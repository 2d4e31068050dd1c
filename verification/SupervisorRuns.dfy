/** What whole runs of the supervisor loop guarantee, whatever it observes and whichever calls fail. */
module SupervisorRuns {
  import opened Quorum
  import opened Supervisor
  import D = Durability
  import Selection

  /** Pass k starts no earlier than the one before it did; it takes node k to node k+1 and yields output k. */
  ghost predicate PassAt(c: Config, nodes: seq<Node>, inputs: seq<Input>, outs: seq<Output>, k: nat)
    requires |nodes| == |inputs| + 1 && |outs| == |inputs| && k < |inputs|
  {
    && inputs[k].Ordered() && nodes[k].auth.lastLoop <= inputs[k].loopAt
    && (nodes[k + 1], outs[k]) == Tick(c, nodes[k], inputs[k])
  }

  /** Passes k = 0, 1, ... of one process. */
  ghost predicate Run(c: Config, nodes: seq<Node>, inputs: seq<Input>, outs: seq<Output>) {
    && |nodes| == |inputs| + 1 && |outs| == |inputs|
    && forall k :: 0 <= k < |inputs| ==> PassAt(c, nodes, inputs, outs, k)
  }

  predicate Unfences(o: Output) {
    Unfence(true) in o.effects || Unfence(false) in o.effects
  }

  // ---------------------------------------------------- one pass, field by field

  /** Sequence numbers heard from peers never go down. */
  lemma {:induction false} DrainGrows(p: Peers, inbox: seq<Message>)
    ensures forall id :: KnownSeq(p, id) <= KnownSeq(Drain(p, inbox), id)
    decreases |inbox|
  {
    if inbox != [] {
      DrainGrows(p, inbox[..|inbox| - 1]);
    }
  }

  /** The highest sequence number decoded from a peer is remembered. */
  lemma {:induction false} DrainRemembers(p: Peers, inbox: seq<Message>, k: nat)
    requires k < |inbox| && inbox[k].payload.Some?
    ensures KnownSeq(Drain(p, inbox), inbox[k].from) >= inbox[k].payload.value.seqNo
    decreases |inbox|
  {
    if k < |inbox| - 1 {
      DrainRemembers(p, inbox[..|inbox| - 1], k);
    }
  }

  /** Stall check, adoption and marker, seen together. */
  lemma AuthPrepared(a: Auth, ticks: nat, i: Input)
    ensures var b := Marker(Adopt(StallCheck(a, i.loopAt), i.current), ticks, i);
            var stalled := Stalled(a, i.loopAt);
            && b.authorizedSince == (if stalled then None else a.authorizedSince)
            && b.appliedReadOnly == (if stalled then None else a.appliedReadOnly)
            && b.decided == (if i.current.Some? then i.current else a.decided)
            && b.reconfirmPending == ((a.reconfirmPending || stalled) && b.decided == a.decided)
            && b.appliedSync == a.appliedSync && b.lastLoop == i.loopAt
            && (a.datadirKnown ==> b.datadirKnown)
            && (a.clusterMarker && a.datadirKnown ==> b.clusterMarker)
  {
  }

  /** The authority a pass starts serving with. */
  lemma PrepareFrame(c: Config, x: Node, i: Input)
    ensures var y := Prepare(c, x, i); var stalled := Stalled(x.auth, i.loopAt);
            && y.auth.authorizedSince == (if stalled then None else x.auth.authorizedSince)
            && y.auth.appliedReadOnly == (if stalled then None else x.auth.appliedReadOnly)
            && y.auth.decided == (if i.current.Some? then i.current else x.auth.decided)
            && y.auth.reconfirmPending
               == ((x.auth.reconfirmPending || stalled) && y.auth.decided == x.auth.decided)
            && y.auth.appliedSync == x.auth.appliedSync && y.server == x.server
            && y.auth.lastLoop == i.loopAt
            && (x.auth.datadirKnown ==> y.auth.datadirKnown)
            && (x.auth.clusterMarker && x.auth.datadirKnown ==> y.auth.clusterMarker)
            && (forall id :: KnownSeq(x.peers, id) <= KnownSeq(y.peers, id))
  {
    hide Drain, Marker, Adopt, StallCheck, Stalled, Receive;
    DrainGrows(x.peers, i.inbox);
    AuthPrepared(x.auth, x.chores.ticks + 1, i);
  }

  predicate Named(c: Config, a: Auth) {
    a.decided.Some? && a.decided.value.primary == c.nodeId
  }

  /** What the three settings steps do, given the authority just established. */
  lemma EnforceFrame(c: Config, l: Local, authorized: bool, i: Input)
    ensures var (l', effects) := Enforce(c, l, authorized, i);
            && l'.a == l.a.(appliedReadOnly := l'.a.appliedReadOnly, appliedSync := l'.a.appliedSync)
            && (Unfence(true) in effects || Unfence(false) in effects <==>
                  authorized && l.a.appliedReadOnly != Some(false))
  {
  }

  /** Serving changes the caches and the date of authority; raw authority decides whether there is one. */
  lemma ServeFrame(c: Config, x: Node, i: Input)
    ensures var (x', authorized, effects) := Serve(c, x, i);
            var raw := RawAuth(c, x.peers, x.auth, i.contactAt);
            && x'.peers == x.peers
            && x'.auth == x.auth.(appliedReadOnly := x'.auth.appliedReadOnly, appliedSync := x'.auth.appliedSync,
                                  authorizedSince := x'.auth.authorizedSince)
            && (authorized ==> raw) && (raw <==> x'.auth.authorizedSince.Some?)
            && (raw && x.auth.decided.Some? && x.auth.appliedReadOnly != Some(false) ==>
                  && x'.auth.authorizedSince.value in {i.authAt, x.auth.authorizedSince.GetOr(i.authAt)}
                  && (authorized ==> Since(i.checkAt, x'.auth.authorizedSince.value) >= CONFIRM_WINDOW))
            && (raw && (x.auth.decided.None? || x.auth.appliedReadOnly == Some(false)) ==>
                  x'.auth.authorizedSince.value == i.authAt)
            && (Unfence(true) in effects || Unfence(false) in effects <==>
                  authorized && x.auth.appliedReadOnly != Some(false))
  {
    var (a, authorized) := Authorize(x.auth, RawAuth(c, x.peers, x.auth, i.contactAt), i.authAt, i.checkAt);
    EnforceFrame(c, Local(a, x.server), authorized, i);
    hide Enforce, RawAuth, SlotChores, RejoinChores;
  }

  lemma RecoverFrame(c: Config, x: Node, i: Input)
    ensures var (x', effects) := Recover(c, x, i);
            && x'.peers == x.peers
            && x'.auth == x.auth.(appliedReadOnly := None, authorizedSince := None,
                                  appliedSync := x'.auth.appliedSync)
            && Unfence(true) !in effects && Unfence(false) !in effects
  {
  }

  /** The state a pass serves or recovers with: prepared, the proposal noted. */
  function Entering(c: Config, x: Node, i: Input): Node {
    var y := Prepare(c, x, i);
    y.(chores := NoteProposal(y.chores, Proposal(c, y, i)))
  }

  /** A pass is a preparation followed by serving or recovering. */
  lemma TickSplits(c: Config, x: Node, i: Input)
    ensures var (x', o) := Tick(c, x, i); var y := Entering(c, x, i);
            && y.peers == Prepare(c, x, i).peers && y.auth == Prepare(c, x, i).auth && y.server == x.server
            && o.gossip == Broadcast(Prepare(c, x, i), i) && o.proposal == Proposal(c, Prepare(c, x, i), i)
            && (i.inRecovery ==> x' == Recover(c, y, i).0 && !o.rawAuth && !o.authorized
                                 && o.effects == Recover(c, y, i).1)
            && (!i.inRecovery ==> x' == Serve(c, y, i).0 && o.authorized == Serve(c, y, i).1
                                  && o.effects == Serve(c, y, i).2
                                  && o.rawAuth == RawAuth(c, y.peers, y.auth, i.contactAt))
            && o.slots == (!i.inRecovery && SlotsDue(c, y.auth, y.chores))
  {
    hide Serve, Recover, Proposal, RawAuth, Drain, Marker, Adopt, StallCheck;
  }

  /** What a pass leaves of the authority it prepared. */
  lemma TickFrame(c: Config, x: Node, i: Input)
    ensures var (x', o) := Tick(c, x, i); var y := Prepare(c, x, i);
            && x'.auth == y.auth.(appliedReadOnly := x'.auth.appliedReadOnly, appliedSync := x'.auth.appliedSync,
                                  authorizedSince := x'.auth.authorizedSince)
            && x'.peers == y.peers
            && (o.authorized ==> o.rawAuth)
            && (o.rawAuth ==> !i.inRecovery && RawAuth(c, x'.peers, x'.auth, i.contactAt))
  {
    TickSplits(c, x, i);
    ServeFrame(c, Entering(c, x, i), i);
    RecoverFrame(c, Entering(c, x, i), i);
    hide Tick, Serve, Recover, Entering, Prepare;
  }

  /** Authority dates from this pass or is carried over, unstalled, under a decision naming this node. */
  lemma SinceFrame(c: Config, x: Node, i: Input)
    ensures var (x', o) := Tick(c, x, i);
            x'.auth.authorizedSince.Some? ==>
              && o.rawAuth && !i.inRecovery
              && (x'.auth.authorizedSince.value == i.authAt
                  || (!Stalled(x.auth, i.loopAt) && x'.auth.authorizedSince == x.auth.authorizedSince
                      && Named(c, x'.auth)))
  {
    TickSplits(c, x, i);
    PrepareFrame(c, x, i);
    ServeFrame(c, Entering(c, x, i), i);
    RecoverFrame(c, Entering(c, x, i), i);
    hide Tick, Serve, Recover, Entering, Prepare;
  }

  /** An unfence under a decision is issued only once the remembered start of authority is old enough. */
  lemma UnfenceFrame(c: Config, x: Node, i: Input)
    ensures var (x', o) := Tick(c, x, i);
            Unfences(o) && x'.auth.decided.Some? ==>
              && x'.auth.authorizedSince.Some?
              && Since(i.checkAt, x'.auth.authorizedSince.value) >= CONFIRM_WINDOW
  {
    TickSplits(c, x, i);
    ServeFrame(c, Entering(c, x, i), i);
    RecoverFrame(c, Entering(c, x, i), i);
    hide Tick, Serve, Recover, Entering, Prepare;
  }

  /** What a pass remembers and reports does not depend on the server's settings, only on its caches. */
  lemma ServerIsNotRead(c: Config, x: Node, i: Input, v: Server)
    ensures var (x', o) := Tick(c, x, i);
            Tick(c, x.(server := v), i) == (x'.(server := Tick(c, x.(server := v), i).0.server), o)
  {
    hide Prepare, Proposal, Serve, Recover, RawAuth;
    PrepareIgnoresServer(c, x, i, v);
    ServeIgnoresServer(c, Entering(c, x, i), i, v);
    RecoverIgnoresServer(c, Entering(c, x, i), i, v);
    ProposalIgnoresServer(c, Prepare(c, x, i), i, v);
  }

  lemma PrepareIgnoresServer(c: Config, x: Node, i: Input, v: Server)
    ensures Prepare(c, x.(server := v), i) == Prepare(c, x, i).(server := v)
  {
    hide Drain, Marker, Adopt, StallCheck;
  }

  lemma ProposalIgnoresServer(c: Config, x: Node, i: Input, v: Server)
    ensures Proposal(c, x.(server := v), i) == Proposal(c, x, i)
  {
    hide Live, Listed, FreshCandidates;
  }

  lemma ServeIgnoresServer(c: Config, x: Node, i: Input, v: Server)
    ensures var (x', authorized, effects) := Serve(c, x, i); var t := Serve(c, x.(server := v), i);
            t == (x'.(server := t.0.server), authorized, effects)
  {
    hide RawAuth, Authorize, Rejoins, SlotChores;
  }

  lemma RecoverIgnoresServer(c: Config, x: Node, i: Input, v: Server)
    ensures var (x', effects) := Recover(c, x, i); var t := Recover(c, x.(server := v), i);
            t == (x'.(server := t.0.server), effects)
  {
  }

  /**
   A pass has raw authority exactly if it is out of recovery, a majority counting itself is within the lease,
   and its decision names it and is in no doubt, or it has none and has seen no sign of a cluster.
   */
  lemma AuthorityExactly(c: Config, x: Node, i: Input)
    ensures var (x', o) := Tick(c, x, i); var a, p := x'.auth, x'.peers;
            var near := set id | id in p.heard && id != c.nodeId && Since(i.contactAt, p.heard[id]) < QUORUM_LEASE;
            o.rawAuth <==>
              && !i.inRecovery && 2 * (1 + |near|) > |c.voters|
              && (a.decided.Some? ==> a.decided.value.primary == c.nodeId && !a.reconfirmPending)
              && (a.decided.None? ==> !a.clusterMarker && forall id :: id in p.seqNo ==> p.seqNo[id] == 0)
  {
    hide Tick, Prepare;
    TickSplits(c, x, i);
    TickFrame(c, x, i);
    var p := Prepare(c, x, i).peers;
    var near := set id | id in p.heard && id != c.nodeId && Since(i.contactAt, p.heard[id]) < QUORUM_LEASE;
    assert near == Reachable(c, p, i.contactAt);
  }

  /** It is authorized at once without a decision or when known open, otherwise after the confirm window. */
  lemma AuthorizedExactly(c: Config, x: Node, i: Input)
    ensures var (x', o) := Tick(c, x, i); var stalled := Stalled(x.auth, i.loopAt);
            var open := !stalled && x.auth.appliedReadOnly == Some(false);
            var since := if stalled then i.authAt else x.auth.authorizedSince.GetOr(i.authAt);
            && (o.authorized <==>
                  o.rawAuth && (x'.auth.decided.None? || open || Since(i.checkAt, since) >= CONFIRM_WINDOW))
            && x'.auth.authorizedSince == (if !o.rawAuth then None
                                           else if x'.auth.decided.None? || open then Some(i.authAt) else Some(since))
  {
    hide Tick, Prepare, Proposal, RawAuth, Recover;
    TickSplits(c, x, i);
    TickFrame(c, x, i);
    PrepareFrame(c, x, i);
    ServeAuthorizes(c, Entering(c, x, i), i);
    RecoverFrame(c, Entering(c, x, i), i);
    hide Serve;
  }

  lemma ServeAuthorizes(c: Config, y: Node, i: Input)
    ensures var (a, authorized) := Authorize(y.auth, RawAuth(c, y.peers, y.auth, i.contactAt), i.authAt, i.checkAt);
            Serve(c, y, i).1 == authorized && Serve(c, y, i).0.auth.authorizedSince == a.authorizedSince
  {
    hide RawAuth, Authorize, Enforce, SlotChores, RejoinChores, Rejoins;
    var (a, authorized) := Authorize(y.auth, RawAuth(c, y.peers, y.auth, i.contactAt), i.authAt, i.checkAt);
    EnforceFrame(c, Local(a, y.server), authorized, i);
  }

  // --------------------------------------------------------------- confirm window

  /** Pass m follows its predecessor without a stall and acts on a decision naming this node. */
  ghost predicate Continues(c: Config, nodes: seq<Node>, inputs: seq<Input>, m: nat)
    requires |nodes| == |inputs| + 1 && 0 < m < |inputs|
  {
    Named(c, nodes[m + 1].auth) && inputs[m].loopAt <= inputs[m - 1].loopAt + STALL_THRESHOLD
  }

  /** Every pass from j to k had raw authority out of recovery, with no gap above the stall threshold. */
  ghost predicate AuthorityHeld(c: Config, nodes: seq<Node>, inputs: seq<Input>, outs: seq<Output>, j: nat, k: nat)
    requires |nodes| == |inputs| + 1 && |outs| == |inputs|
  {
    && j <= k < |inputs|
    && (forall m :: j <= m <= k ==> outs[m].rawAuth && !inputs[m].inRecovery)
    && (forall m :: j < m <= k ==> Continues(c, nodes, inputs, m))
  }

  lemma {:induction false} AuthorityDates(c: Config, nodes: seq<Node>, inputs: seq<Input>, outs: seq<Output>, k: nat)
    returns (j: nat)
    requires Run(c, nodes, inputs, outs) && nodes[0].auth.authorizedSince == None
    requires k < |inputs| && nodes[k + 1].auth.authorizedSince.Some?
    ensures AuthorityHeld(c, nodes, inputs, outs, j, k)
    ensures nodes[k + 1].auth.authorizedSince.value == inputs[j].authAt
  {
    hide Tick;
    assert PassAt(c, nodes, inputs, outs, k);
    SinceFrame(c, nodes[k], inputs[k]);
    if nodes[k + 1].auth.authorizedSince.value == inputs[k].authAt {
      j := k;
    } else {
      j := AuthorityDates(c, nodes, inputs, outs, k - 1);
      assert PassAt(c, nodes, inputs, outs, k - 1);
      TickFrame(c, nodes[k - 1], inputs[k - 1]);
      PrepareFrame(c, nodes[k - 1], inputs[k - 1]);
      hide Prepare;
    }
  }

  /**
   Every unfence under a decision ends an interval of at least the confirm window in which every pass
   had raw authority, none was in recovery and no two were further apart than the stall threshold.
   */
  lemma ConfirmWindowHeld(c: Config, nodes: seq<Node>, inputs: seq<Input>, outs: seq<Output>, k: nat) returns (j: nat)
    requires Run(c, nodes, inputs, outs) && nodes[0].auth.authorizedSince == None
    requires k < |inputs| && Unfences(outs[k]) && nodes[k + 1].auth.decided.Some?
    ensures AuthorityHeld(c, nodes, inputs, outs, j, k)
    ensures inputs[k].checkAt >= inputs[j].authAt + CONFIRM_WINDOW
  {
    hide Tick;
    assert PassAt(c, nodes, inputs, outs, k);
    UnfenceFrame(c, nodes[k], inputs[k]);
    j := AuthorityDates(c, nodes, inputs, outs, k);
  }

  // ------------------------------------------------------------ stall re-ratification

  lemma {:induction false} PendingPersists(c: Config, nodes: seq<Node>, inputs: seq<Input>, outs: seq<Output>,
                                           i: nat, k: nat)
    requires Run(c, nodes, inputs, outs) && i <= k < |inputs| && Stalled(nodes[i].auth, inputs[i].loopAt)
    requires forall m :: i < m <= k + 1 ==> nodes[m].auth.decided == nodes[i].auth.decided
    ensures nodes[k + 1].auth.reconfirmPending
  {
    hide Tick, Prepare;
    assert PassAt(c, nodes, inputs, outs, k);
    TickFrame(c, nodes[k], inputs[k]);
    PrepareFrame(c, nodes[k], inputs[k]);
    if i < k {
      PendingPersists(c, nodes, inputs, outs, i, k - 1);
    }
  }

  /** While the decision held at the stall stays in force, later passes are not authorized. */
  lemma PendingBlocks(c: Config, nodes: seq<Node>, inputs: seq<Input>, outs: seq<Output>, i: nat, k: nat)
    requires Run(c, nodes, inputs, outs) && i <= k < |inputs| && Stalled(nodes[i].auth, inputs[i].loopAt)
    requires nodes[i].auth.decided.Some?
    requires forall m :: i < m <= k + 1 ==> nodes[m].auth.decided == nodes[i].auth.decided
    ensures !outs[k].authorized
  {
    PendingPersists(c, nodes, inputs, outs, i, k);
    assert PassAt(c, nodes, inputs, outs, k);
    TickFrame(c, nodes[k], inputs[k]);
    hide Tick, Prepare;
  }

  /** The first pass after i at which the decision is no longer the one held before i. */
  lemma {:induction false} FirstChange(nodes: seq<Node>, i: nat, k: nat) returns (m: nat)
    requires i < k < |nodes| && nodes[k].auth.decided != nodes[i].auth.decided
    ensures i <= m < k && nodes[m].auth.decided == nodes[i].auth.decided != nodes[m + 1].auth.decided
  {
    if nodes[k - 1].auth.decided == nodes[i].auth.decided {
      m := k - 1;
    } else {
      m := FirstChange(nodes, i, k - 1);
    }
  }

  /**
   After a stall on a node that holds a decision, a pass authorizes writes only if a decision different
   from that one has been adopted at or after the stalled pass.
   */
  lemma StallNeedsNewDecision(c: Config, nodes: seq<Node>, inputs: seq<Input>, outs: seq<Output>, i: nat, k: nat)
    returns (m: nat)
    requires Run(c, nodes, inputs, outs) && i <= k < |inputs| && Stalled(nodes[i].auth, inputs[i].loopAt)
    requires nodes[i].auth.decided.Some? && outs[k].authorized
    ensures i <= m <= k
    ensures nodes[m + 1].auth.decided == inputs[m].current != nodes[i].auth.decided
  {
    hide Tick, Prepare;
    if forall m :: i < m <= k + 1 ==> nodes[m].auth.decided == nodes[i].auth.decided {
      PendingBlocks(c, nodes, inputs, outs, i, k);
      assert false;
    }
    var last :| i < last <= k + 1 && nodes[last].auth.decided != nodes[i].auth.decided;
    m := FirstChange(nodes, i, last);
    assert PassAt(c, nodes, inputs, outs, m);
    TickFrame(c, nodes[m], inputs[m]);
    PrepareFrame(c, nodes[m], inputs[m]);
  }

  // ------------------------------------------------------------- bootstrap authority

  /** This process knows that the cluster has decided something before. */
  ghost predicate SeenCluster(x: Node) {
    || x.auth.decided.Some?
    || (x.auth.clusterMarker && x.auth.datadirKnown)
    || exists id :: KnownSeq(x.peers, id) >= 1
  }

  lemma SeenClusterStep(c: Config, x: Node, i: Input)
    requires SeenCluster(x)
    ensures SeenCluster(Tick(c, x, i).0)
    ensures Tick(c, x, i).1.authorized ==> Tick(c, x, i).0.auth.decided.Some?
  {
    PrepareFrame(c, x, i);
    TickFrame(c, x, i);
    var y := Prepare(c, x, i);
    if id :| KnownSeq(x.peers, id) >= 1 {
      assert KnownSeq(y.peers, id) >= 1;
      assert !NoClusterHistory(y.peers);
    }
  }

  /** Once seen, forever: no later pass of the process authorizes writes without a decision. */
  lemma {:induction false} BootstrapLost(c: Config, nodes: seq<Node>, inputs: seq<Input>, outs: seq<Output>,
                                         i: nat, k: nat)
    requires Run(c, nodes, inputs, outs) && i <= k < |inputs| && SeenCluster(nodes[i])
    ensures SeenCluster(nodes[k])
    ensures outs[k].authorized ==> nodes[k + 1].auth.decided.Some?
  {
    hide Tick, SeenCluster;
    if i < k {
      BootstrapLost(c, nodes, inputs, outs, i, k - 1);
      assert PassAt(c, nodes, inputs, outs, k - 1);
      SeenClusterStep(c, nodes[k - 1], inputs[k - 1]);
    }
    assert PassAt(c, nodes, inputs, outs, k);
    SeenClusterStep(c, nodes[k], inputs[k]);
  }

  /** Decoding any gossiped sequence number, holding a decision, or finding the marker is seeing it. */
  lemma WaysToSeeCluster(c: Config, x: Node, i: Input)
    requires || (exists k :: 0 <= k < |i.inbox| && i.inbox[k].payload.Some? && i.inbox[k].payload.value.seqNo >= 1)
             || i.current.Some?
             || (!x.auth.datadirKnown && Prepare(c, x, i).chores.ticks % 20 == 1 && i.markerFound == Some(true))
    ensures SeenCluster(Tick(c, x, i).0)
  {
    TickFrame(c, x, i);
    if k :| 0 <= k < |i.inbox| && i.inbox[k].payload.Some? && i.inbox[k].payload.value.seqNo >= 1 {
      DrainRemembers(x.peers, i.inbox, k);
      assert KnownSeq(Tick(c, x, i).0.peers, i.inbox[k].from) >= 1;
    }
  }

  // ------------------------------------------------------------------ sync settings

  /** What the caches claim is what the server has. */
  ghost predicate Cached(a: Auth, v: Server) {
    && (a.appliedSync.Some? ==> v.sync == a.appliedSync.value)
    && (a.appliedReadOnly.Some? ==> v.readOnly == a.appliedReadOnly.value)
  }

  lemma EnforceSettings(c: Config, l: Local, authorized: bool, i: Input)
    requires Cached(l.a, l.v)
    ensures var l' := Enforce(c, l, authorized, i).0;
            && Cached(l'.a, l'.v)
            && (c.synchronous && authorized && l.a.decided.Some? ==>
                  (l'.v.sync == c.SyncTarget() <==> l.v.sync == c.SyncTarget() || i.syncOk))
            && (c.synchronous ==> l'.v.sync in {l.v.sync, c.SyncTarget()})
            && (c.synchronous && !authorized ==> l'.v.sync == l.v.sync)
            && (!authorized && i.fenceOk ==> l'.v.readOnly)
            && (authorized && i.unfenceOk ==> !l'.v.readOnly)
  {
  }

  lemma ServeSettings(c: Config, y: Node, i: Input)
    requires Cached(y.auth, y.server)
    ensures var (x', authorized, _) := Serve(c, y, i);
            && Cached(x'.auth, x'.server) && x'.auth.decided == y.auth.decided
            && (c.synchronous && authorized && y.auth.decided.Some? ==>
                  (x'.server.sync == c.SyncTarget() <==> y.server.sync == c.SyncTarget() || i.syncOk))
            && (c.synchronous ==> x'.server.sync in {y.server.sync, c.SyncTarget()})
            && (c.synchronous && !authorized ==> x'.server.sync == y.server.sync)
            && (!authorized && i.fenceOk ==> x'.server.readOnly)
            && (authorized && i.unfenceOk ==> !x'.server.readOnly)
  {
    var (a, authorized) := Authorize(y.auth, RawAuth(c, y.peers, y.auth, i.contactAt), i.authAt, i.checkAt);
    EnforceSettings(c, Local(a, y.server), authorized, i);
    EnforceFrame(c, Local(a, y.server), authorized, i);
    hide RawAuth, Enforce, SlotChores, RejoinChores, Rejoins;
  }

  lemma RecoverSettings(c: Config, y: Node, i: Input)
    requires Cached(y.auth, y.server)
    ensures Cached(Recover(c, y, i).0.auth, Recover(c, y, i).0.server)
  {
  }

  /** The settings after a pass, in terms of the settings before it and the calls that succeeded. */
  lemma TickSettings(c: Config, x: Node, i: Input)
    requires Cached(x.auth, x.server)
    ensures var (x', o) := Tick(c, x, i);
            && Cached(x'.auth, x'.server)
            && (c.synchronous && o.authorized && x'.auth.decided.Some? ==>
                  (x'.server.sync == c.SyncTarget() <==> x.server.sync == c.SyncTarget() || i.syncOk))
            && (c.synchronous && !i.inRecovery ==> x'.server.sync in {x.server.sync, c.SyncTarget()})
            && (c.synchronous && !i.inRecovery && !o.authorized ==> x'.server.sync == x.server.sync)
            && (!i.inRecovery && !o.authorized && i.fenceOk ==> x'.server.readOnly)
            && (o.authorized && i.unfenceOk ==> !x'.server.readOnly)
  {
    TickSplits(c, x, i);
    PrepareFrame(c, x, i);
    var y := Entering(c, x, i);
    assert Cached(y.auth, y.server);
    ServeSettings(c, y, i);
    RecoverSettings(c, y, i);
    hide Tick, Entering, Prepare, Serve, Recover;
  }

  /** A decided, authorized pass leaves the majority-1 target in force exactly when it was, or the call succeeds. */
  lemma AuthorizedSetsSync(c: Config, x: Node, i: Input)
    requires Cached(x.auth, x.server) && c.synchronous
    requires Tick(c, x, i).1.authorized && Tick(c, x, i).0.auth.decided.Some?
    ensures Tick(c, x, i).0.server.sync == c.SyncTarget() <==> x.server.sync == c.SyncTarget() || i.syncOk
  {
    TickSettings(c, x, i);
    hide Tick;
  }

  /** Once the target is in force it stays, through losses of authority, until the node is in recovery. */
  lemma {:induction false} TargetStays(c: Config, nodes: seq<Node>, inputs: seq<Input>, outs: seq<Output>,
                                       j: nat, k: nat)
    requires Run(c, nodes, inputs, outs) && c.synchronous && j <= k <= |inputs|
    requires Cached(nodes[0].auth, nodes[0].server) && nodes[j].server.sync == c.SyncTarget()
    requires forall m :: j <= m < k ==> !inputs[m].inRecovery
    ensures nodes[k].server.sync == c.SyncTarget()
  {
    if j < k {
      TargetStays(c, nodes, inputs, outs, j, k - 1);
      CachedAlways(c, nodes, inputs, outs, k - 1);
      assert PassAt(c, nodes, inputs, outs, k - 1);
      TickSettings(c, nodes[k - 1], inputs[k - 1]);
      hide Tick;
    }
  }

  lemma {:induction false} CachedAlways(c: Config, nodes: seq<Node>, inputs: seq<Input>, outs: seq<Output>, k: nat)
    requires Run(c, nodes, inputs, outs) && Cached(nodes[0].auth, nodes[0].server) && k <= |inputs|
    ensures Cached(nodes[k].auth, nodes[k].server)
  {
    hide Tick;
    if k > 0 {
      CachedAlways(c, nodes, inputs, outs, k - 1);
      assert PassAt(c, nodes, inputs, outs, k - 1);
      TickSettings(c, nodes[k - 1], inputs[k - 1]);
    }
  }

  // ----------------------------------------------------------- whom a leader proposes

  /** The choice among fresh candidates is the same for every order in which a map yields its entries. */
  lemma ReplacementIsOrderFree(c: Config, p: Peers, i: Input, order: seq<NodeId>)
    requires forall id :: id in order <==> id in Live(c, p, i.leaderAt)
    ensures Selection.ChoosePrimary(FreshCandidates(c, p, i, order))
            == Selection.ChoosePrimary(FreshCandidates(c, p, i, Listed(Live(c, p, i.leaderAt))))
  {
    var listed := Listed(Live(c, p, i.leaderAt));
    var a, b := FreshCandidates(c, p, i, order), FreshCandidates(c, p, i, listed);
    SameCandidates(c, p, i, order, listed);
    SameCandidates(c, p, i, listed, order);
    Selection.ChoiceIsOrderFree(a, b);
  }

  lemma SameCandidates(c: Config, p: Peers, i: Input, a: seq<NodeId>, b: seq<NodeId>)
    requires forall id :: id in a ==> id in b
    requires forall id :: id in b ==> id in p.lsn
    ensures forall x :: x in FreshCandidates(c, p, i, a) ==> x in FreshCandidates(c, p, i, b)
  {
    var from, to := FreshCandidates(c, p, i, a), FreshCandidates(c, p, i, b);
    forall x | x in from
      ensures x in to
    {
      var k :| 0 <= k < |from| && from[k] == x;
      assert a[k] in b;
      var j :| 0 <= j < |b| && b[j] == a[k];
      assert to[j] == x;
    }
  }

  /**
   A replacement is proposed only by a leader that sees a majority and not the decided primary; it is one
   of the nodes seen, none of which has a higher fresh LSN.
   */
  lemma ReplacementIsBest(c: Config, x: Node, i: Input)
    requires x.auth.decided.Some? && Proposal(c, x, i).Some?
    requires Proposal(c, x, i).value.primary != DecidedPrimary(x.auth)
    ensures var live := Live(c, x.peers, i.leaderAt); var p := Proposal(c, x, i).value.primary;
            && i.leader && |live| >= c.Quorum() && DecidedPrimary(x.auth) !in live - {0}
            && p in live && forall id :: id in live ==> FreshLsn(c, x.peers, i, id) <= FreshLsn(c, x.peers, i, p)
    ensures Proposal(c, x, i).value.seqNo == x.auth.decided.value.seqNo + 1
  {
    var live := Live(c, x.peers, i.leaderAt);
    var ids := Listed(live);
    var candidates := FreshCandidates(c, x.peers, i, ids);
    assert Nominee(c, x, i) == Selection.ChoosePrimary(candidates);
    var best := Selection.Best(candidates);
    var k :| 0 <= k < |candidates| && candidates[k] == best;
    assert ids[k] in live;
    forall id | id in live
      ensures FreshLsn(c, x.peers, i, id) <= best.lsn
    {
      assert id in ids;
      var j :| 0 <= j < |ids| && ids[j] == id;
      assert candidates[j] in candidates;
    }
  }

  /** A leader that hears from a majority. */
  predicate Leads(c: Config, x: Node, i: Input) {
    i.leader && |Live(c, x.peers, i.leaderAt)| >= c.Quorum()
  }

  /** Before any decision a leader names the least live node out of recovery, under number 1. */
  lemma FirstPrimaryExactly(c: Config, x: Node, i: Input)
    requires x.auth.decided == None
    ensures var live := Live(c, x.peers, i.leaderAt); var proposal := Proposal(c, x, i);
            && (proposal.Some? <==>
                  Leads(c, x, i) && !InFlight(x.chores, 1) && exists id :: id in live && !x.peers.lsn[id].inRecovery)
            && (proposal.Some? ==>
                  var p := proposal.value.primary;
                  && proposal.value.seqNo == 1 && p in live && !x.peers.lsn[p].inRecovery
                  && forall id :: id in live && !x.peers.lsn[id].inRecovery ==> p <= id)
  {
    var live := Live(c, x.peers, i.leaderAt);
    var serving := set id | id in live && !x.peers.lsn[id].inRecovery;
    assert Nominee(c, x, i) == if serving == {} then None else Some(Least(serving));
    assert DecidedSeq(x.auth) == 0;
    forall id | id in live && !x.peers.lsn[id].inRecovery
      ensures id in serving && IsLeast(serving, Least(serving)) && Least(serving) <= id
    {
    }
    if serving != {} {
      assert Least(serving) in serving;
      assert Leads(c, x, i) && !InFlight(x.chores, 1) ==> Proposal(c, x, i) == Some(Decision(1, Least(serving)));
    }
  }

  /** While the decided primary is live, a doubt anywhere makes a leader propose the same one again. */
  lemma ReconfirmsExactly(c: Config, x: Node, i: Input)
    requires x.auth.decided.Some? && x.auth.decided.value.primary != 0
    requires x.auth.decided.value.primary in Live(c, x.peers, i.leaderAt)
    ensures var live := Live(c, x.peers, i.leaderAt); var d := x.auth.decided.value; var proposal := Proposal(c, x, i);
            && (proposal.Some? <==>
                  && Leads(c, x, i) && !InFlight(x.chores, d.seqNo + 1)
                  && (x.auth.reconfirmPending
                      || exists id :: id in live && id in x.peers.reconfirm && x.peers.reconfirm[id]))
            && (proposal.Some? ==> proposal.value == Decision(d.seqNo + 1, d.primary))
  {
    hide Live;
    var live := Live(c, x.peers, i.leaderAt);
    assert (exists id :: id in live && Asks(x.peers, id))
           <==> exists id :: id in live && id in x.peers.reconfirm && x.peers.reconfirm[id];
  }

  /** Once it is not, a leader always proposes somebody. */
  lemma ReplacesExactly(c: Config, x: Node, i: Input)
    requires x.auth.decided.Some?
    requires x.auth.decided.value.primary == 0 || x.auth.decided.value.primary !in Live(c, x.peers, i.leaderAt)
    ensures var d := x.auth.decided.value;
            && (Proposal(c, x, i).Some? <==> Leads(c, x, i) && !InFlight(x.chores, d.seqNo + 1))
            && (Proposal(c, x, i).Some? ==> Proposal(c, x, i).value.seqNo == d.seqNo + 1)
  {
    var live := Live(c, x.peers, i.leaderAt);
    if live != {} {
      assert Listed(live) != [] by {
        var id :| id in live;
        assert id in Listed(live);
      }
    }
    hide Live;
  }

  /** The leader asked for this node's position and was told. */
  predicate Probed(c: Config, i: Input, id: NodeId) {
    id in i.probes && (id == c.nodeId || id in c.pgMembers)
  }

  /**
   How candidates are compared: by what a successful probe said; a peer without one counts with its last
   gossip, the leader itself with nothing.
   */
  lemma ReplacementByProbes(c: Config, x: Node, i: Input, id: NodeId)
    requires x.auth.decided.Some? && Proposal(c, x, i).Some?
    requires Proposal(c, x, i).value.primary != DecidedPrimary(x.auth)
    requires id in Live(c, x.peers, i.leaderAt)
    ensures var p := Proposal(c, x, i).value.primary; var live := Live(c, x.peers, i.leaderAt);
            && p in live
            && (Probed(c, i, p) && Probed(c, i, id) ==> i.probes[id] <= i.probes[p])
            && (Probed(c, i, p) && !Probed(c, i, id) && id != c.nodeId ==> x.peers.lsn[id].lsn <= i.probes[p])
            && (!Probed(c, i, p) && p != c.nodeId && Probed(c, i, id) ==> i.probes[id] <= x.peers.lsn[p].lsn)
            && (!Probed(c, i, p) && p != c.nodeId && !Probed(c, i, id) && id != c.nodeId ==>
                  x.peers.lsn[id].lsn <= x.peers.lsn[p].lsn)
            && (!Probed(c, i, p) && p == c.nodeId && Probed(c, i, id) ==> i.probes[id] == 0)
            && (!Probed(c, i, p) && p == c.nodeId && !Probed(c, i, id) && id != c.nodeId ==>
                  x.peers.lsn[id].lsn == 0)
  {
    ReplacementIsBest(c, x, i);
    hide Proposal;
  }

  /** Every live node was probed, and the probes told the truth. */
  ghost predicate TruthfulProbes(c: Config, live: set<NodeId>, i: Input, position: map<NodeId, nat>) {
    forall id :: id in live ==> Probed(c, i, id) && id in position && i.probes[id] == position[id]
  }

  /**
   If every live node is probed and the probes tell the true positions, a proposal that departs from the
   decided primary names a live node of highest true position, whatever had been gossiped.
   */
  lemma ReplacementIsMostAdvanced(c: Config, x: Node, i: Input, position: map<NodeId, nat>)
    requires x.auth.decided.Some? && Proposal(c, x, i).Some?
    requires Proposal(c, x, i).value.primary != DecidedPrimary(x.auth)
    requires TruthfulProbes(c, Live(c, x.peers, i.leaderAt), i, position)
    ensures var live := Live(c, x.peers, i.leaderAt); var p := Proposal(c, x, i).value.primary;
            p in live && forall id :: id in live ==> position[id] <= position[p]
  {
    var live, p := Live(c, x.peers, i.leaderAt), Proposal(c, x, i).value.primary;
    ReplacementIsBest(c, x, i);
    hide Proposal, Live;
    forall id | id in live
      ensures position[id] <= position[p]
    {
      ReplacementByProbes(c, x, i, id);
    }
  }

  /** The supervisor's nodes as the durability model numbers them. */
  ghost predicate Numbered(live: set<NodeId>, number: map<NodeId, nat>, n: nat) {
    && (forall id :: id in live ==> id in number && number[id] < n)
    && (forall a, b :: a in live && b in live && number[a] == number[b] ==> a == b)
  }

  lemma {:induction false} NumbersOf(live: set<NodeId>, number: map<NodeId, nat>, n: nat) returns (r: set<nat>)
    requires Numbered(live, number, n)
    ensures r == set id | id in live :: number[id]
    ensures |r| == |live| && r <= Nodes(n)
    decreases |live|
  {
    r := set id | id in live :: number[id];
    if live != {} {
      var id :| id in live;
      var rest := NumbersOf(live - {id}, number, n);
      assert r == rest + {number[id]};
    }
  }

  /**
   Joined to the durability model: with overlapping quorums and truthful probes, the node a leader
   proposes in place of the decided primary holds every acknowledged position.
   */
  lemma ProposedHoldsAcked(c: Config, x: Node, i: Input, bounds: D.Config, s: D.State, number: map<NodeId, nat>,
                           position: map<NodeId, nat>)
    requires x.auth.decided.Some? && Proposal(c, x, i).Some?
    requires Proposal(c, x, i).value.primary != DecidedPrimary(x.auth)
    requires bounds.Valid() && bounds.Overlapping() && D.Reachable(bounds, s) && D.Shaped(bounds, s)
    requires bounds.n == |c.voters| && Numbered(Live(c, x.peers, i.leaderAt), number, bounds.n)
    requires TruthfulProbes(c, Live(c, x.peers, i.leaderAt), i, position)
    requires forall id :: id in Live(c, x.peers, i.leaderAt) ==> position[id] == s.lsn[number[id]]
    ensures Proposal(c, x, i).value.primary in Live(c, x.peers, i.leaderAt)
    ensures s.lsn[number[Proposal(c, x, i).value.primary]] >= s.acked
  {
    var live, p := Live(c, x.peers, i.leaderAt), Proposal(c, x, i).value.primary;
    ReplacementIsMostAdvanced(c, x, i, position);
    ReplacementIsBest(c, x, i);
    hide Proposal, Live;
    var members := NumbersOf(live, number, bounds.n);
    Selection.NobodyAheadHoldsAcked(bounds, s, members, number[p]);
  }

  lemma {:induction false} WithoutSize(ids: seq<NodeId>, x: NodeId)
    requires forall i, j :: 0 <= i < j < |ids| ==> ids[i] != ids[j]
    ensures |Without(ids, x)| == |ids| - (if x in ids then 1 else 0)
    ensures forall y :: y in Without(ids, x) <==> y in ids && y != x
  {
    if ids != [] {
      WithoutSize(ids[1..], x);
      assert ids[0] !in ids[1..];
      assert forall y :: y in ids <==> y == ids[0] || y in ids[1..];
    }
  }

  /** How many nodes hold a commit before it is acknowledged under this setting. */
  function AckedBy(names: SyncNames): nat {
    1 + if names.Off? then 0 else names.k
  }

  /**
   The target lists exactly the other voters, enough of them, and a commit it admits is on enough nodes
   for the durability model's threshold: no failover loses it.
   */
  lemma TargetMeetsThreshold(c: Config, bounds: D.Config)
    requires c.Valid()
    requires bounds.n == |c.voters| && bounds.ackQuorum == AckedBy(c.SyncTarget())
    ensures c.SyncTarget().AnyOf? ==>
              && c.SyncTarget().k <= |c.SyncTarget().standbys| == |c.voters| - 1
              && forall id :: id in c.SyncTarget().standbys <==> id in c.voters && id != c.nodeId
    ensures forall s :: D.Reachable(bounds, s) ==> !D.Lost(bounds, s)
  {
    WithoutSize(c.voters, c.nodeId);
    forall s | D.Reachable(bounds, s)
      ensures !D.Lost(bounds, s)
    {
      D.LossExactly(bounds);
    }
  }
}
