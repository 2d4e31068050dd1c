/**
 The chores a node does once per decision, and how often it repeats what may have failed: rejoins, slots,
 repoints, promotions, proposals, and the marker, over runs from a process's start.
 */
module ChoresRuns {
  import opened Quorum
  import opened Supervisor
  import opened SupervisorRuns
  import opened Effects

  // ----------------------------------------------------------------- since the last adoption

  /** No pass between the j-th and the k-th node adopted a decision, the j-th pass itself aside. */
  ghost predicate SameDecision(nodes: seq<Node>, j: nat, k: nat)
    requires k < |nodes|
  {
    forall m :: j < m < k ==> nodes[m + 1].auth.decided == nodes[m].auth.decided
  }

  /** Something marked happened in pass j, and the decision has been the same since. */
  ghost predicate DoneIn(nodes: seq<Node>, marks: seq<bool>, j: nat, k: nat)
    requires k < |nodes| && k <= |marks|
  {
    j < k && marks[j] && SameDecision(nodes, j, k)
  }

  ghost predicate Done(nodes: seq<Node>, marks: seq<bool>, k: nat)
    requires k < |nodes| && k <= |marks|
  {
    exists j: nat :: DoneIn(nodes, marks, j, k)
  }

  lemma DoneInStep(nodes: seq<Node>, marks: seq<bool>, j: nat, k: nat)
    requires k + 1 < |nodes| && k + 1 <= |marks|
    ensures DoneIn(nodes, marks, j, k + 1)
            <==> (j == k && marks[k])
                 || (DoneIn(nodes, marks, j, k) && nodes[k + 1].auth.decided == nodes[k].auth.decided)
  {
  }

  lemma DoneStep(nodes: seq<Node>, marks: seq<bool>, k: nat)
    requires k + 1 < |nodes| && k + 1 <= |marks|
    ensures Done(nodes, marks, k + 1)
            <==> marks[k] || (Done(nodes, marks, k) && nodes[k + 1].auth.decided == nodes[k].auth.decided)
  {
    hide DoneIn;
    DoneInStep(nodes, marks, k, k);
    if j: nat :| DoneIn(nodes, marks, j, k) {
      DoneInStep(nodes, marks, j, k);
    }
    var n := k + 1;
    if j: nat :| DoneIn(nodes, marks, j, n) {
      DoneInStep(nodes, marks, j, k);
    }
  }

  /** Done before pass k, which does not itself adopt. */
  ghost predicate DoneBefore(nodes: seq<Node>, marks: seq<bool>, k: nat)
    requires k + 1 < |nodes| && k <= |marks|
  {
    Done(nodes, marks, k) && nodes[k + 1].auth.decided == nodes[k].auth.decided
  }

  // ----------------------------------------------------------------------- one pass's chores

  /** A pass that adopts starts its decision's chores afresh. */
  lemma PreparedChores(c: Config, x: Node, i: Input)
    ensures var x' := Tick(c, x, i).0; var h := Prepare(c, x, i).chores;
            && h.ticks == x.chores.ticks + 1
            && (x'.auth.decided == x.auth.decided ==> h == x.chores.(ticks := h.ticks))
            && (x'.auth.decided != x.auth.decided ==> h == ResetChores(x.chores).(ticks := h.ticks))
  {
    hide Tick, Drain, Marker;
    TickFrame(c, x, i);
    PrepareFrame(c, x, i);
    assert StallCheck(x.auth, i.loopAt).decided == x.auth.decided;
  }

  lemma EnforceKinds(c: Config, l: Local, authorized: bool, i: Input)
    ensures forall e :: e in Enforce(c, l, authorized, i).1 ==> e.Fence? || e.SetSync? || e.Unfence?
  {
  }

  lemma AuthorizeKeeps(a: Auth, raw: bool, authAt: Time, checkAt: Time)
    ensures var b := Authorize(a, raw, authAt, checkAt).0; b.decided == a.decided && b.datadirKnown == a.datadirKnown
  {
  }

  /** What serving does besides settings: a rejoin and the slots. */
  lemma ServeChores(c: Config, y: Node, i: Input, p: NodeId)
    ensures var (x', authorized, effects) := Serve(c, y, i);
            && (Rejoin(p) in effects <==>
                  && !authorized && y.auth.decided.Some? && y.auth.decided.value.primary == p
                  && p != 0 && p != c.nodeId && p in c.pgMembers && c.rejoinScript
                  && (y.auth.datadirKnown || i.rejoinDirFound) && !y.chores.rejoining)
            && x'.chores == y.chores.(rejoining := y.chores.rejoining || exists e :: e in effects && e.Rejoin?,
                                      slotsEnsured := y.chores.slotsEnsured || SlotsDue(c, y.auth, y.chores))
  {
    hide RawAuth, Authorize, Enforce;
    var raw := RawAuth(c, y.peers, y.auth, i.contactAt);
    AuthorizeKeeps(y.auth, raw, i.authAt, i.checkAt);
    var (a, authorized) := Authorize(y.auth, raw, i.authAt, i.checkAt);
    EnforceKinds(c, Local(a, y.server), authorized, i);
    var h := SlotChores(c, y.auth, y.chores);
    var tail := if Rejoins(c, a, h, authorized, i) then [Rejoin(DecidedPrimary(a))] else [];
    var effects := Enforce(c, Local(a, y.server), authorized, i).1 + tail;
    assert Serve(c, y, i).2 == effects;
    assert tail != [] ==> tail[0] in effects;
  }

  /** Recovering is clearing sync, then repositioning. */
  lemma RecoverIsReposition(c: Config, y: Node, i: Input) returns (z: Node, e1: seq<Effect>)
    ensures var (x', effects) := Recover(c, y, i); var (z', e2) := Reposition(c, z, i);
            && z.chores == y.chores && z.auth.decided == y.auth.decided
            && x' == z' && effects == e1 + e2 && forall e :: e in e1 ==> e.ClearSync?
  {
    hide Reposition;
    var (l, f) := ClearSyncStep(Local(y.auth.(appliedReadOnly := None, authorizedSince := None), y.server),
                                i.clearSyncOk);
    z, e1 := Node(y.peers, l.a, y.chores, l.v), f;
  }

  lemma RepositionChores(c: Config, z: Node, i: Input)
    ensures var (x', effects) := Reposition(c, z, i); var p := DecidedPrimary(z.auth); var h := z.chores;
            && (forall e :: e in effects ==> e.PromoteFence? || e.Promote? || e.Repoint?)
            && x'.chores == h.(promoted := x'.chores.promoted, promoteTick := x'.chores.promoteTick,
                               appliedPrimary := x'.chores.appliedPrimary)
            && (forall q, ok :: Repoint(q, ok) in effects <==>
                  q == p && ok == i.repointOk && p != c.nodeId && p != 0 && h.appliedPrimary != p && p in c.pgMembers)
            && x'.chores.appliedPrimary == (if Repoint(p, true) in effects then p else h.appliedPrimary)
  {
    hide RetryPromotion;
    RetryKeepsPrimary(z.chores);
  }

  lemma RetryKeepsPrimary(h: Chores)
    ensures RetryPromotion(h) == h.(promoted := RetryPromotion(h).promoted)
  {
  }

  /** What recovering does besides settings: a promotion for the named node, a repoint for the others. */
  lemma RecoverChores(c: Config, y: Node, i: Input)
    ensures var (x', effects) := Recover(c, y, i); var p := DecidedPrimary(y.auth); var h := y.chores;
            && (forall e :: e in effects ==> !e.Rejoin?)
            && x'.chores == h.(promoted := x'.chores.promoted, promoteTick := x'.chores.promoteTick,
                               appliedPrimary := x'.chores.appliedPrimary)
            && (forall q, ok :: Repoint(q, ok) in effects <==>
                  q == p && ok == i.repointOk && p != c.nodeId && p != 0 && h.appliedPrimary != p && p in c.pgMembers)
            && x'.chores.appliedPrimary == (if Repoint(p, true) in effects then p else h.appliedPrimary)
  {
    hide Recover, Reposition;
    var z, e1 := RecoverIsReposition(c, y, i);
    RepositionChores(c, z, i);
  }

  /** A promotion is asked for unless the last successful request is less than a hundred passes old. */
  lemma RecoverPromotes(c: Config, y: Node, i: Input)
    ensures var (x', effects) := Recover(c, y, i); var h := y.chores;
            var due := DecidedPrimary(y.auth) == c.nodeId && !(h.promoted && Elapsed(h.ticks, h.promoteTick) < 100);
            && (forall ok :: Promote(ok) in effects <==> due && ok == i.promoteOk)
            && (due ==> x'.chores.promoted == i.promoteOk)
            && (!due ==> x'.chores.promoted == h.promoted)
            && x'.chores.promoteTick == (if due && i.promoteOk then h.ticks else h.promoteTick)
  {
    hide Recover;
    var z, e1 := RecoverIsReposition(c, y, i);
    var e2 := Reposition(c, z, i).1;
    assert |e2| == 2 ==> e2[1] in e2;
  }

  predicate RejoinsIn(o: Output) {
    exists e :: e in o.effects && e.Rejoin?
  }

  predicate RepointedIn(o: Output) {
    exists e :: e in o.effects && e.Repoint? && e.ok
  }

  /** What each pass does to the chores, and what it orders, given whether it adopted a decision. */
  lemma ChoresInPass(c: Config, x: Node, i: Input, p: NodeId)
    ensures var (x', o) := Tick(c, x, i); var same := x'.auth.decided == x.auth.decided;
            && x'.chores.ticks == x.chores.ticks + 1
            && (Rejoin(p) in o.effects <==>
                  && !i.inRecovery && !o.authorized && x'.auth.decided.Some? && x'.auth.decided.value.primary == p
                  && p != 0 && p != c.nodeId && p in c.pgMembers && c.rejoinScript
                  && (x'.auth.datadirKnown || i.rejoinDirFound) && !(same && x.chores.rejoining))
            && (x'.chores.rejoining <==> (same && x.chores.rejoining) || RejoinsIn(o))
            && (o.slots <==> !i.inRecovery && DecidedPrimary(x'.auth) == c.nodeId
                             && !(same && x.chores.slotsEnsured))
            && (x'.chores.slotsEnsured <==> (same && x.chores.slotsEnsured) || o.slots)
  {
    hide Tick, Prepare, Proposal, Serve, Recover;
    PreparedChores(c, x, i);
    TickFrame(c, x, i);
    TickSplits(c, x, i);
    ServeChores(c, Entering(c, x, i), i, p);
    RecoverChores(c, Entering(c, x, i), i);
  }

  lemma RepointInPass(c: Config, x: Node, i: Input, p: NodeId, ok: bool)
    ensures var (x', o) := Tick(c, x, i); var same := x'.auth.decided == x.auth.decided;
            var applied := if same then x.chores.appliedPrimary else 0;
            && (Repoint(p, ok) in o.effects <==>
                  && i.inRecovery && ok == i.repointOk && x'.auth.decided.Some? && x'.auth.decided.value.primary == p
                  && p != 0 && p != c.nodeId && p in c.pgMembers && applied != p)
            && x'.chores.appliedPrimary == (if RepointedIn(o) then DecidedPrimary(x'.auth) else applied)
  {
    hide Tick, Prepare, Proposal, Serve, Recover;
    PreparedChores(c, x, i);
    TickFrame(c, x, i);
    TickSplits(c, x, i);
    var y := Entering(c, x, i);
    RecoverChores(c, y, i);
    ServeChores(c, y, i, p);
    ServingKinds(c, x, i);
    assert RepointedIn(Tick(c, x, i).1) <==> Repoint(DecidedPrimary(y.auth), true) in Tick(c, x, i).1.effects;
  }

  predicate PromotedIn(o: Output) {
    Promote(true) in o.effects
  }

  lemma PromoteInPass(c: Config, x: Node, i: Input, ok: bool)
    ensures var (x', o) := Tick(c, x, i); var same := x'.auth.decided == x.auth.decided;
            var promoted := same && x.chores.promoted;
            var due := !(promoted && Elapsed(x.chores.ticks + 1, x.chores.promoteTick) < 100);
            && (Promote(ok) in o.effects <==>
                  i.inRecovery && ok == i.promoteOk && DecidedPrimary(x'.auth) == c.nodeId && due)
            && (x'.chores.promoted <==>
                  PromotedIn(o) || (promoted && !(i.inRecovery && DecidedPrimary(x'.auth) == c.nodeId && due)))
            && x'.chores.promoteTick == (if PromotedIn(o) then x.chores.ticks + 1 else x.chores.promoteTick)
  {
    hide Tick, Prepare, Proposal, Serve, Recover;
    PreparedChores(c, x, i);
    TickFrame(c, x, i);
    TickSplits(c, x, i);
    RecoverPromotes(c, Entering(c, x, i), i);
    ServeChores(c, Entering(c, x, i), i, 0);
    ServingKinds(c, x, i);
  }

  lemma ProposalInPass(c: Config, x: Node, i: Input)
    ensures var (x', o) := Tick(c, x, i); var same := x'.auth.decided == x.auth.decided;
            && x'.chores.lastProposed == (if o.proposal.Some? then o.proposal.value.seqNo
                                          else if same then x.chores.lastProposed else 0)
            && x'.chores.lastProposedTick == (if o.proposal.Some? then x.chores.ticks + 1
                                              else x.chores.lastProposedTick)
            && x'.chores.ticks == x.chores.ticks + 1
            && (o.proposal.Some? ==> o.proposal.value.seqNo == DecidedSeq(x'.auth) + 1)
  {
    hide Tick, Prepare, Proposal, Serve, Recover, Nominee;
    PreparedChores(c, x, i);
    TickFrame(c, x, i);
    TickSplits(c, x, i);
    ServeChores(c, Entering(c, x, i), i, 0);
    RecoverChores(c, Entering(c, x, i), i);
    ProposedNumber(c, Prepare(c, x, i), i);
  }

  lemma ProposedNumber(c: Config, y: Node, i: Input)
    ensures Proposal(c, y, i).Some? ==> Proposal(c, y, i).value.seqNo == DecidedSeq(y.auth) + 1
  {
    hide Nominee;
  }

  // ---------------------------------------------------------------------- laws of whole runs

  function Marks(outs: seq<Output>, p: Output -> bool): (marks: seq<bool>)
    ensures |marks| == |outs| && forall k :: 0 <= k < |outs| ==> marks[k] == p(outs[k])
  {
    seq(|outs|, k requires 0 <= k < |outs| => p(outs[k]))
  }

  /** A run whose process has no chores behind it. */
  ghost predicate FreshRun(c: Config, nodes: seq<Node>, inputs: seq<Input>, outs: seq<Output>) {
    Run(c, nodes, inputs, outs) && nodes[0].chores == Chores(0, 0, 0, false, 0, false, 0, false)
  }

  lemma {:induction false} TicksCount(c: Config, nodes: seq<Node>, inputs: seq<Input>, outs: seq<Output>, k: nat)
    requires FreshRun(c, nodes, inputs, outs) && k <= |inputs|
    ensures nodes[k].chores.ticks == k
  {
    hide Tick;
    if k > 0 {
      TicksCount(c, nodes, inputs, outs, k - 1);
      assert PassAt(c, nodes, inputs, outs, k - 1);
      ChoresInPass(c, nodes[k - 1], inputs[k - 1], 0);
    }
  }

  /** The once-per-decision flags are up exactly when the chore was done since the decision was adopted. */
  lemma {:induction false} FlagsMeanDone(c: Config, nodes: seq<Node>, inputs: seq<Input>, outs: seq<Output>, k: nat)
    requires FreshRun(c, nodes, inputs, outs) && k <= |inputs|
    ensures nodes[k].chores.rejoining <==> Done(nodes, Marks(outs, RejoinsIn), k)
    ensures nodes[k].chores.slotsEnsured <==> Done(nodes, Marks(outs, (o: Output) => o.slots), k)
  {
    hide Tick, Done, Marks;
    var rejoins, slots := Marks(outs, RejoinsIn), Marks(outs, (o: Output) => o.slots);
    if k == 0 {
      NothingDone(nodes, rejoins);
      NothingDone(nodes, slots);
    } else {
      FlagsMeanDone(c, nodes, inputs, outs, k - 1);
      assert PassAt(c, nodes, inputs, outs, k - 1);
      ChoresInPass(c, nodes[k - 1], inputs[k - 1], 0);
      DoneStep(nodes, rejoins, k - 1);
      DoneStep(nodes, slots, k - 1);
    }
  }

  lemma NothingDone(nodes: seq<Node>, marks: seq<bool>)
    requires nodes != []
    ensures !Done(nodes, marks, 0)
  {
  }

  /** This node is not the decided primary, which is a member it can be rewound onto. */
  predicate Ousted(c: Config, a: Auth, p: NodeId) {
    a.decided.Some? && a.decided.value.primary == p && p != 0 && p != c.nodeId && p in c.pgMembers
  }

  /**
   In every run from a start, a pass orders the rewind onto p exactly if it is out of recovery and
   unauthorized, the decision names the member p and not this node, there is a script and a known or found
   directory, and no pass has ordered one since the decision was adopted.
   */
  lemma RejoinsExactly(c: Config, nodes: seq<Node>, inputs: seq<Input>, outs: seq<Output>, k: nat, p: NodeId)
    requires FreshRun(c, nodes, inputs, outs) && k < |inputs|
    ensures Rejoin(p) in outs[k].effects <==>
              && !inputs[k].inRecovery && !outs[k].authorized && Ousted(c, nodes[k + 1].auth, p)
              && c.rejoinScript && (nodes[k + 1].auth.datadirKnown || inputs[k].rejoinDirFound)
              && !DoneBefore(nodes, Marks(outs, RejoinsIn), k)
  {
    hide Tick, Done, Marks;
    FlagsMeanDone(c, nodes, inputs, outs, k);
    assert PassAt(c, nodes, inputs, outs, k);
    ChoresInPass(c, nodes[k], inputs[k], p);
  }

  /** So between two rewinds a decision is adopted, and no node is ever rewound onto itself. */
  lemma RejoinsOncePerDecision(c: Config, nodes: seq<Node>, inputs: seq<Input>, outs: seq<Output>, j: nat, k: nat,
                               p: NodeId, q: NodeId)
    requires FreshRun(c, nodes, inputs, outs) && j < k < |inputs|
    requires Rejoin(p) in outs[j].effects && Rejoin(q) in outs[k].effects
    ensures q != c.nodeId && !SameDecision(nodes, j, k + 1)
  {
    RejoinsExactly(c, nodes, inputs, outs, k, q);
    var marks := Marks(outs, RejoinsIn);
    assert marks[j];
    if SameDecision(nodes, j, k + 1) {
      assert DoneIn(nodes, marks, j, k);
    }
  }

  /** The named node creates slots exactly in its first pass out of recovery under each decision. */
  lemma SlotsExactly(c: Config, nodes: seq<Node>, inputs: seq<Input>, outs: seq<Output>, k: nat)
    requires FreshRun(c, nodes, inputs, outs) && k < |inputs| && c.nodeId != 0
    ensures outs[k].slots <==>
              && !inputs[k].inRecovery && Named(c, nodes[k + 1].auth)
              && !DoneBefore(nodes, Marks(outs, (o: Output) => o.slots), k)
  {
    hide Tick, Done, Marks;
    FlagsMeanDone(c, nodes, inputs, outs, k);
    assert PassAt(c, nodes, inputs, outs, k);
    ChoresInPass(c, nodes[k], inputs[k], 0);
  }

  // ------------------------------------------------------------------------------ repoints

  lemma {:induction false} PrimaryApplied(c: Config, nodes: seq<Node>, inputs: seq<Input>, outs: seq<Output>, k: nat)
    requires FreshRun(c, nodes, inputs, outs) && k <= |inputs|
    ensures nodes[k].chores.appliedPrimary
            == if Done(nodes, Marks(outs, RepointedIn), k) then DecidedPrimary(nodes[k].auth) else 0
  {
    hide Tick, Done, Marks;
    var marks := Marks(outs, RepointedIn);
    if k == 0 {
      NothingDone(nodes, marks);
    } else {
      PrimaryApplied(c, nodes, inputs, outs, k - 1);
      assert PassAt(c, nodes, inputs, outs, k - 1);
      RepointInPass(c, nodes[k - 1], inputs[k - 1], 0, true);
      DoneStep(nodes, marks, k - 1);
    }
  }

  /**
   In every run from a start, a pass in recovery repoints the standby of a member primary exactly until one
   attempt has succeeded under that decision.
   */
  lemma RepointsExactly(c: Config, nodes: seq<Node>, inputs: seq<Input>, outs: seq<Output>, k: nat, p: NodeId, ok: bool)
    requires FreshRun(c, nodes, inputs, outs) && k < |inputs|
    ensures Repoint(p, ok) in outs[k].effects <==>
              && inputs[k].inRecovery && ok == inputs[k].repointOk && Ousted(c, nodes[k + 1].auth, p)
              && !DoneBefore(nodes, Marks(outs, RepointedIn), k)
  {
    hide Tick, Done, Marks;
    PrimaryApplied(c, nodes, inputs, outs, k);
    assert PassAt(c, nodes, inputs, outs, k);
    RepointInPass(c, nodes[k], inputs[k], p, ok);
  }

  // ---------------------------------------------------------------------------- how recently

  /** Done in pass j, under the present decision, and not again since. */
  ghost predicate LatestIn(nodes: seq<Node>, marks: seq<bool>, j: nat, k: nat)
    requires k < |nodes| && k <= |marks|
  {
    DoneIn(nodes, marks, j, k) && forall m :: j < m < k ==> !marks[m]
  }

  lemma LatestStep(nodes: seq<Node>, marks: seq<bool>, j: nat, k: nat)
    requires k + 1 < |nodes| && k + 1 <= |marks| && j <= k
    ensures LatestIn(nodes, marks, j, k + 1)
            <==> (j == k && marks[k])
                 || (LatestIn(nodes, marks, j, k) && !marks[k] && nodes[k + 1].auth.decided == nodes[k].auth.decided)
  {
    DoneInStep(nodes, marks, j, k);
  }

  /** Some pass within the last `passes` before pass k did it, under the decision pass k goes on with. */
  ghost predicate DoneWithin(nodes: seq<Node>, marks: seq<bool>, k: nat, passes: nat)
    requires k + 1 < |nodes| && k <= |marks|
  {
    exists j: nat :: DoneIn(nodes, marks, j, k) && k - j < passes && nodes[k + 1].auth.decided == nodes[k].auth.decided
  }

  /** Only the latest time matters. */
  lemma WithinIsLatest(nodes: seq<Node>, marks: seq<bool>, j: nat, k: nat, passes: nat)
    requires k + 1 < |nodes| && k <= |marks| && LatestIn(nodes, marks, j, k)
    ensures DoneWithin(nodes, marks, k, passes)
            <==> k - j < passes && nodes[k + 1].auth.decided == nodes[k].auth.decided
  {
    if m: nat :| DoneIn(nodes, marks, m, k) && k - m < passes {
      assert m <= j;
    }
  }

  /** The promotion flag dates the last success; once lowered without an adoption, that is long ago. */
  ghost predicate PromotionDated(nodes: seq<Node>, marks: seq<bool>, k: nat)
    requires k < |nodes| && k <= |marks|
  {
    var h := nodes[k].chores;
    && (h.promoted ==> h.promoteTick > 0 && LatestIn(nodes, marks, h.promoteTick - 1, k))
    && (!h.promoted ==> forall j: nat :: DoneIn(nodes, marks, j, k) ==> k - j > 100)
  }

  lemma PromotionDatedStep(c: Config, nodes: seq<Node>, inputs: seq<Input>, outs: seq<Output>, k: nat)
    requires FreshRun(c, nodes, inputs, outs) && k < |inputs| && nodes[k].chores.ticks == k
    requires PromotionDated(nodes, Marks(outs, PromotedIn), k)
    ensures PromotionDated(nodes, Marks(outs, PromotedIn), k + 1)
  {
    hide Tick, Marks, SameDecision;
    var marks := Marks(outs, PromotedIn);
    assert PassAt(c, nodes, inputs, outs, k);
    PromoteInPass(c, nodes[k], inputs[k], true);
    var h, h' := nodes[k].chores, nodes[k + 1].chores;
    if h'.promoted {
      LatestStep(nodes, marks, h'.promoteTick - 1, k);
    } else {
      var n := k + 1;
      forall j: nat | DoneIn(nodes, marks, j, n)
        ensures n - j > 100
      {
        DoneInStep(nodes, marks, j, k);
        if h.promoted {
          assert j <= h.promoteTick - 1;
        }
      }
    }
  }

  lemma {:induction false} PromotionDatedAlways(c: Config, nodes: seq<Node>, inputs: seq<Input>, outs: seq<Output>,
                                                k: nat)
    requires FreshRun(c, nodes, inputs, outs) && k <= |inputs|
    ensures PromotionDated(nodes, Marks(outs, PromotedIn), k)
  {
    hide Tick, Marks;
    if k > 0 {
      PromotionDatedAlways(c, nodes, inputs, outs, k - 1);
      TicksCount(c, nodes, inputs, outs, k - 1);
      PromotionDatedStep(c, nodes, inputs, outs, k - 1);
    }
  }

  /**
   In every run from a start, a pass in recovery asks for the named node's promotion exactly unless a
   request has succeeded within the last hundred passes under the same decision.
   */
  lemma PromotesExactly(c: Config, nodes: seq<Node>, inputs: seq<Input>, outs: seq<Output>, k: nat, ok: bool)
    requires FreshRun(c, nodes, inputs, outs) && k < |inputs| && c.nodeId != 0
    ensures Promote(ok) in outs[k].effects <==>
              && inputs[k].inRecovery && ok == inputs[k].promoteOk && Named(c, nodes[k + 1].auth)
              && !DoneWithin(nodes, Marks(outs, PromotedIn), k, 100)
  {
    hide Tick, Marks, DoneIn;
    var marks := Marks(outs, PromotedIn);
    TicksCount(c, nodes, inputs, outs, k);
    PromotionDatedAlways(c, nodes, inputs, outs, k);
    assert PassAt(c, nodes, inputs, outs, k);
    PromoteInPass(c, nodes[k], inputs[k], ok);
    if nodes[k].chores.promoted {
      WithinIsLatest(nodes, marks, nodes[k].chores.promoteTick - 1, k, 100);
    }
  }

  // ----------------------------------------------------------------------------- proposals

  predicate Proposes(o: Output) {
    o.proposal.Some?
  }

  /** The number last proposed is the next one, dated, or none under the present decision. */
  ghost predicate ProposalDated(nodes: seq<Node>, marks: seq<bool>, k: nat)
    requires k < |nodes| && k <= |marks|
  {
    var h := nodes[k].chores;
    && (h.lastProposed != 0 ==>
          && h.lastProposed == DecidedSeq(nodes[k].auth) + 1
          && h.lastProposedTick > 0 && LatestIn(nodes, marks, h.lastProposedTick - 1, k))
    && (h.lastProposed == 0 ==> !Done(nodes, marks, k))
  }

  lemma ProposalDatedStep(c: Config, nodes: seq<Node>, inputs: seq<Input>, outs: seq<Output>, k: nat)
    requires FreshRun(c, nodes, inputs, outs) && k < |inputs| && nodes[k].chores.ticks == k
    requires ProposalDated(nodes, Marks(outs, Proposes), k)
    ensures ProposalDated(nodes, Marks(outs, Proposes), k + 1)
  {
    hide Tick, Marks, SameDecision, Done;
    var marks := Marks(outs, Proposes);
    assert PassAt(c, nodes, inputs, outs, k);
    ProposalInPass(c, nodes[k], inputs[k]);
    DoneStep(nodes, marks, k);
    var h' := nodes[k + 1].chores;
    if h'.lastProposed != 0 {
      LatestStep(nodes, marks, h'.lastProposedTick - 1, k);
    }
  }

  lemma {:induction false} ProposalDatedAlways(c: Config, nodes: seq<Node>, inputs: seq<Input>, outs: seq<Output>,
                                               k: nat)
    requires FreshRun(c, nodes, inputs, outs) && k <= |inputs|
    ensures ProposalDated(nodes, Marks(outs, Proposes), k)
  {
    hide Tick, Marks;
    if k > 0 {
      ProposalDatedAlways(c, nodes, inputs, outs, k - 1);
      TicksCount(c, nodes, inputs, outs, k - 1);
      ProposalDatedStep(c, nodes, inputs, outs, k - 1);
    }
  }

  /**
   In every run from a start, the next number counts as in flight exactly if it was proposed within the
   last twenty passes under the same decision.
   */
  lemma InFlightExactly(c: Config, nodes: seq<Node>, inputs: seq<Input>, outs: seq<Output>, k: nat)
    requires FreshRun(c, nodes, inputs, outs) && k < |inputs|
    ensures var y := Prepare(c, nodes[k], inputs[k]);
            InFlight(y.chores, DecidedSeq(y.auth) + 1) <==> DoneWithin(nodes, Marks(outs, Proposes), k, 20)
  {
    hide Tick, Prepare, Marks, DoneIn;
    var marks := Marks(outs, Proposes);
    TicksCount(c, nodes, inputs, outs, k);
    ProposalDatedAlways(c, nodes, inputs, outs, k);
    assert PassAt(c, nodes, inputs, outs, k);
    PreparedChores(c, nodes[k], inputs[k]);
    TickFrame(c, nodes[k], inputs[k]);
    if nodes[k].chores.lastProposed != 0 {
      WithinIsLatest(nodes, marks, nodes[k].chores.lastProposedTick - 1, k, 20);
    }
  }

  /** Somebody is to be proposed: a first primary, a replacement, or the same one because of a doubt. */
  ghost predicate Cause(c: Config, y: Node, i: Input) {
    var live := Live(c, y.peers, i.leaderAt);
    match y.auth.decided
    case None => exists id :: id in live && !y.peers.lsn[id].inRecovery
    case Some(d) =>
      || d.primary == 0 || d.primary !in live || y.auth.reconfirmPending
      || exists id :: id in live && id in y.peers.reconfirm && y.peers.reconfirm[id]
  }

  /**
   In every run from a start, a pass proposes exactly if the node leads a live majority, there is a cause,
   and no proposal was made within the last twenty passes under the same decision.
   */
  lemma ProposesExactly(c: Config, nodes: seq<Node>, inputs: seq<Input>, outs: seq<Output>, k: nat)
    requires FreshRun(c, nodes, inputs, outs) && k < |inputs|
    ensures var y := Prepare(c, nodes[k], inputs[k]);
            outs[k].proposal.Some? <==>
              Leads(c, y, inputs[k]) && Cause(c, y, inputs[k]) && !DoneWithin(nodes, Marks(outs, Proposes), k, 20)
  {
    hide Tick, Prepare, Marks, DoneWithin, Proposal, Live, InFlight, Leads;
    var i, y := inputs[k], Prepare(c, nodes[k], inputs[k]);
    InFlightExactly(c, nodes, inputs, outs, k);
    assert PassAt(c, nodes, inputs, outs, k);
    TickSplits(c, nodes[k], i);
    if y.auth.decided == None {
      FirstPrimaryExactly(c, y, i);
    } else if y.auth.decided.value.primary != 0 && y.auth.decided.value.primary in Live(c, y.peers, i.leaderAt) {
      ReconfirmsExactly(c, y, i);
    } else {
      ReplacesExactly(c, y, i);
    }
  }

  // ----------------------------------------------------------------------------- the marker

  /** Pass k asks where the data directory is, and is told. */
  predicate Finds(inputs: seq<Input>, k: nat)
    requires k < |inputs|
  {
    k % 20 == 0 && inputs[k].markerFound.Some?
  }

  /** Pass k is the first to be told. */
  ghost predicate FirstFinds(inputs: seq<Input>, k: nat) {
    k < |inputs| && Finds(inputs, k) && forall j :: 0 <= j < k ==> !Finds(inputs, j)
  }

  lemma MarkerInPass(c: Config, x: Node, i: Input)
    ensures var a, b := x.auth, Tick(c, x, i).0.auth;
            var asked := !a.datadirKnown && (x.chores.ticks + 1) % 20 == 1 && i.markerFound.Some?;
            var found := if asked then i.markerFound.value else a.clusterMarker;
            && (b.datadirKnown <==> a.datadirKnown || asked)
            && (b.clusterMarker <==> found || (b.decided.Some? && b.datadirKnown && i.markerWritten))
  {
    hide Tick, Drain;
    TickFrame(c, x, i);
  }

  /** The cluster's marker, as a process knows it: found when the directory was, or written under a decision since. */
  ghost predicate Marked(nodes: seq<Node>, inputs: seq<Input>, k: nat)
    requires k < |nodes| && k <= |inputs|
  {
    || (exists f: nat :: f < k && FirstFinds(inputs, f) && inputs[f].markerFound.value)
    || (exists j: nat :: j < k && WritesMarker(nodes, inputs, j))
  }

  /** Pass j writes the marker: it goes on with a decision and knows the directory. */
  ghost predicate WritesMarker(nodes: seq<Node>, inputs: seq<Input>, j: nat)
    requires j + 1 < |nodes| && j < |inputs|
  {
    nodes[j + 1].auth.decided.Some? && inputs[j].markerWritten && exists f: nat :: f <= j && FirstFinds(inputs, f)
  }

  ghost predicate FreshMarker(a: Auth) {
    !a.datadirKnown && !a.clusterMarker
  }

  lemma {:induction false} MarkerExactly(c: Config, nodes: seq<Node>, inputs: seq<Input>, outs: seq<Output>, k: nat)
    requires FreshRun(c, nodes, inputs, outs) && FreshMarker(nodes[0].auth) && k <= |inputs|
    ensures nodes[k].auth.datadirKnown <==> exists f: nat :: f < k && FirstFinds(inputs, f)
    ensures nodes[k].auth.clusterMarker <==> Marked(nodes, inputs, k)
  {
    hide Tick;
    if k > 0 {
      MarkerExactly(c, nodes, inputs, outs, k - 1);
      assert PassAt(c, nodes, inputs, outs, k - 1);
      TicksCount(c, nodes, inputs, outs, k - 1);
      MarkerInPass(c, nodes[k - 1], inputs[k - 1]);
      MarkerStep(nodes, inputs, k - 1);
    }
  }

  lemma MarkerStep(nodes: seq<Node>, inputs: seq<Input>, k: nat)
    requires |nodes| == |inputs| + 1 && k < |inputs|
    requires nodes[k].auth.datadirKnown <==> exists f: nat :: f < k && FirstFinds(inputs, f)
    requires nodes[k].auth.clusterMarker <==> Marked(nodes, inputs, k)
    requires var a, b := nodes[k].auth, nodes[k + 1].auth;
             var asked := !a.datadirKnown && Finds(inputs, k);
             && (b.datadirKnown <==> a.datadirKnown || asked)
             && (b.clusterMarker <==> (if asked then inputs[k].markerFound.value else a.clusterMarker)
                                      || (b.decided.Some? && b.datadirKnown && inputs[k].markerWritten))
    ensures nodes[k + 1].auth.datadirKnown <==> exists f: nat :: f < k + 1 && FirstFinds(inputs, f)
    ensures nodes[k + 1].auth.clusterMarker <==> Marked(nodes, inputs, k + 1)
  {
    FindsFirst(inputs, k);
    var a, b, n := nodes[k].auth, nodes[k + 1].auth, k + 1;
    var asked := !a.datadirKnown && Finds(inputs, k);
    assert asked <==> FirstFinds(inputs, k);
    hide Finds, FirstFinds;
    if b.datadirKnown {
      var f: nat :| f < n && FirstFinds(inputs, f);
      assert f <= k;
    }
    assert WritesMarker(nodes, inputs, k) <==> b.decided.Some? && inputs[k].markerWritten && b.datadirKnown;
    if Marked(nodes, inputs, n) {
      if f: nat :| f < n && FirstFinds(inputs, f) && inputs[f].markerFound.value {
        assert f == k || f < k;
      } else {
        var j: nat :| j < n && WritesMarker(nodes, inputs, j);
        assert j == k || j < k;
      }
    }
  }

  /** Somebody was told before pass k exactly if somebody was told first. */
  lemma {:induction false} FindsFirst(inputs: seq<Input>, k: nat)
    requires k <= |inputs|
    ensures (exists j: nat :: j < k && Finds(inputs, j)) <==> exists f: nat :: f < k && FirstFinds(inputs, f)
  {
    if k > 0 {
      FindsFirst(inputs, k - 1);
      if Finds(inputs, k - 1) && !(exists f: nat :: f < k - 1 && FirstFinds(inputs, f)) {
        assert FirstFinds(inputs, k - 1);
      }
    }
  }

  // ----------------------------------------------------------- sync where it is not wanted

  /** A standby's sync setting is cleared, unless the call fails. */
  lemma RecoveryClearsSync(c: Config, x: Node, i: Input)
    requires Cached(x.auth, x.server) && i.inRecovery
    ensures Tick(c, x, i).0.server.sync == Off <==> x.server.sync == Off || i.clearSyncOk
  {
    hide Tick, Prepare, Proposal, Serve, Reposition;
    TickSplits(c, x, i);
    PrepareFrame(c, x, i);
    RepositionKeepsSync(c, x, i);
  }

  lemma RepositionKeepsSync(c: Config, x: Node, i: Input)
    ensures forall z: Node :: Reposition(c, z, i).0.server.sync == z.server.sync
  {
  }

  /** Where synchronous replication is off, so is every serving pass's setting, unless the call fails. */
  lemma AsynchronousClearsSync(c: Config, x: Node, i: Input)
    requires Cached(x.auth, x.server) && !i.inRecovery && !c.synchronous
    ensures Tick(c, x, i).0.server.sync == Off <==> x.server.sync == Off || i.syncOk
  {
    hide Tick, Authorized;
    var t, rest := ServingEffects(c, x, i);
    EntersCached(c, x, i);
  }
}
