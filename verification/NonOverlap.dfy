/**
 Timed non-overlap: a primary cut off from the majority has its fence in force before any node on the
 majority side can have its server take writes.

 Stated hypotheses, none of which the code itself discharges: clocks agree; passes are at most `pace`
 apart; a message in flight at the cut arrives within `delay`; a fence is in force within `landing` of
 the quorum check that orders it; the majority side acts on decisions naming the old primary until one
 of its own leaders proposes otherwise; it has drained the old primary's last gossip before the cut; and
 its nodes leave recovery only after asking for their promotion.
 */
module NonOverlap {
  import opened Quorum
  import opened Supervisor
  import opened SupervisorRuns
  import opened Effects

  datatype Timing = Timing(cut: Time, delay: Time, pace: Time, landing: Time)

  // -------------------------------------------------------- gossip, message by message

  /** What is known of a peer after draining was known before or came in with one of the messages. */
  lemma {:induction false} DrainSources(p: Peers, inbox: seq<Message>, id: NodeId)
    ensures var q := Drain(p, inbox);
            && (id in p.heard ==> id in q.heard) && (id in p.lsn ==> id in q.lsn)
            && (id in q.heard ==> (id in p.heard && q.heard[id] == p.heard[id])
                                  || exists j :: 0 <= j < |inbox| && inbox[j].from == id && q.heard[id] == inbox[j].at)
            && (id in q.lsn ==> (id in p.lsn && q.lsn[id] == p.lsn[id])
                                || exists j :: 0 <= j < |inbox| && inbox[j].from == id && q.lsn[id].at == inbox[j].at)
    decreases |inbox|
  {
    if inbox != [] {
      var k := |inbox| - 1;
      DrainSources(p, inbox[..k], id);
      assert inbox[k].from == inbox[k].from;
    }
  }

  /** The peers a pass ends with: the drained ones, and every fifth time this node's own sighting. */
  lemma PeersAfter(c: Config, x: Node, i: Input)
    ensures var x' := Tick(c, x, i).0; var q := Drain(x.peers, i.inbox);
            && x'.peers == Prepare(c, x, i).peers
            && x'.peers.heard == q.heard
            && forall id :: id != c.nodeId ==>
                 (id in x'.peers.lsn <==> id in q.lsn) && (id in q.lsn ==> x'.peers.lsn[id] == q.lsn[id])
  {
    TickFrame(c, x, i);
    hide Tick, Drain, Marker, Adopt, StallCheck;
  }

  // --------------------------------------------------------------- the old primary

  /** Pass k comes after pass k-1, each of its instants at most `pace` after the corresponding one. */
  ghost predicate InStep(inputs: seq<Input>, pace: Time, k: nat)
    requires 0 < k < |inputs|
  {
    && inputs[k - 1].adoptAt <= inputs[k].adoptAt <= inputs[k - 1].adoptAt + pace
    && inputs[k - 1].gossipAt <= inputs[k].gossipAt <= inputs[k - 1].gossipAt + pace
    && inputs[k - 1].contactAt <= inputs[k].contactAt <= inputs[k - 1].contactAt + pace
  }

  ghost predicate Paced(inputs: seq<Input>, pace: Time) {
    forall k :: 0 < k < |inputs| ==> InStep(inputs, pace, k)
  }

  /** The message was in the queue when pass k drained it, but not when pass k-1 emptied the queue. */
  ghost predicate Queued(inputs: seq<Input>, k: nat, m: Message, arrival: Time)
    requires k < |inputs|
  {
    arrival <= m.at && (k > 0 ==> inputs[k - 1].adoptAt <= arrival)
  }

  ghost predicate ArrivedBy(inputs: seq<Input>, k: nat, m: Message, latest: Time)
    requires k < |inputs|
  {
    exists arrival: Time :: Queued(inputs, k, m, arrival) && arrival <= latest
  }

  /** From the cut on, only the peers on the primary's own side are heard, up to messages in flight. */
  ghost predicate CutOff(c: Config, near: set<NodeId>, nodes: seq<Node>, inputs: seq<Input>, t: Timing)
    requires |nodes| == |inputs| + 1
  {
    && inputs != [] && inputs[0].contactAt <= t.cut
    && (forall id :: id in nodes[0].peers.heard ==> nodes[0].peers.heard[id] <= t.cut)
    && (forall k, j :: 0 <= k < |inputs| && 0 <= j < |inputs[k].inbox| && inputs[k].inbox[j].from !in near ==>
          ArrivedBy(inputs, k, inputs[k].inbox[j], t.cut + t.delay))
  }

  /** The far side was last heard no later than a pass after the last message in flight arrived. */
  lemma {:induction false} LastHeard(c: Config, near: set<NodeId>, nodes: seq<Node>, inputs: seq<Input>,
                                     outs: seq<Output>, t: Timing, k: nat, id: NodeId)
    requires Run(c, nodes, inputs, outs) && Paced(inputs, t.pace) && CutOff(c, near, nodes, inputs, t)
    requires k <= |inputs| && id !in near && id in nodes[k].peers.heard
    ensures nodes[k].peers.heard[id] <= t.cut + t.delay + t.pace
  {
    hide Tick;
    if k > 0 {
      var i := inputs[k - 1];
      assert PassAt(c, nodes, inputs, outs, k - 1);
      PeersAfter(c, nodes[k - 1], i);
      DrainSources(nodes[k - 1].peers, i.inbox, id);
      if id in nodes[k - 1].peers.heard && nodes[k].peers.heard[id] == nodes[k - 1].peers.heard[id] {
        LastHeard(c, near, nodes, inputs, outs, t, k - 1, id);
      } else {
        var j :| 0 <= j < |i.inbox| && i.inbox[j].from == id && nodes[k].peers.heard[id] == i.inbox[j].at;
        assert ArrivedBy(inputs, k - 1, i.inbox[j], t.cut + t.delay);
        assert k > 1 ==> InStep(inputs, t.pace, k - 1);
      }
    }
  }

  /** Once the lease on the far side has run out, no pass of the cut-off primary is authorized. */
  lemma LeaseRunsOut(c: Config, near: set<NodeId>, nodes: seq<Node>, inputs: seq<Input>, outs: seq<Output>,
                     t: Timing, k: nat)
    requires Run(c, nodes, inputs, outs) && Paced(inputs, t.pace) && CutOff(c, near, nodes, inputs, t)
    requires 1 + |near - {c.nodeId}| < c.Quorum()
    requires k < |inputs| && inputs[k].contactAt >= t.cut + t.delay + t.pace + QUORUM_LEASE
    ensures !outs[k].authorized
  {
    hide Tick;
    assert PassAt(c, nodes, inputs, outs, k);
    var p := nodes[k + 1].peers;
    TickFrame(c, nodes[k], inputs[k]);
    hide Prepare;
    var reachable := Reachable(c, p, inputs[k].contactAt);
    forall id | id in reachable
      ensures id in near - {c.nodeId}
    {
      if id !in near {
        LastHeard(c, near, nodes, inputs, outs, t, k + 1, id);
      }
    }
    SubsetSize(reachable, near - {c.nodeId});
  }

  /** The first pass at or after an instant that the first pass precedes; it is within a pace of it. */
  lemma {:induction false} FirstContact(inputs: seq<Input>, pace: Time, from: Time, k: nat) returns (f: nat)
    requires Paced(inputs, pace) && k < |inputs| && inputs[0].contactAt < from <= inputs[k].contactAt
    ensures f <= k && from <= inputs[f].contactAt < from + pace
    ensures forall j :: f <= j <= k ==> from <= inputs[j].contactAt
  {
    assert InStep(inputs, pace, k);
    if inputs[k - 1].contactAt < from {
      f := k;
    } else {
      f := FirstContact(inputs, pace, from, k - 1);
    }
  }

  /** Pass k authorized nothing and left the server read-only. */
  ghost predicate Fenced(nodes: seq<Node>, outs: seq<Output>, k: nat)
    requires |nodes| == |outs| + 1 && k < |outs|
  {
    nodes[k + 1].server.readOnly && !outs[k].authorized
  }

  lemma FencedPass(c: Config, near: set<NodeId>, nodes: seq<Node>, inputs: seq<Input>, outs: seq<Output>,
                   t: Timing, k: nat)
    requires Run(c, nodes, inputs, outs) && Paced(inputs, t.pace) && CutOff(c, near, nodes, inputs, t)
    requires Cached(nodes[0].auth, nodes[0].server) && 1 + |near - {c.nodeId}| < c.Quorum()
    requires k < |inputs| && !inputs[k].inRecovery && inputs[k].fenceOk
    requires inputs[k].contactAt >= t.cut + t.delay + t.pace + QUORUM_LEASE
    ensures Fenced(nodes, outs, k)
  {
    hide Tick;
    LeaseRunsOut(c, near, nodes, inputs, outs, t, k);
    CachedAlways(c, nodes, inputs, outs, k);
    assert PassAt(c, nodes, inputs, outs, k);
    TickSettings(c, nodes[k], inputs[k]);
  }

  /**
   A cut-off primary whose fence calls succeed has one ordered within lease + delay + two paces of the
   cut, and its server stays read-only after every later pass.
   */
  lemma OldPrimaryFences(c: Config, near: set<NodeId>, nodes: seq<Node>, inputs: seq<Input>, outs: seq<Output>,
                         t: Timing, last: nat)
    returns (f: nat)
    requires Run(c, nodes, inputs, outs) && Paced(inputs, t.pace) && CutOff(c, near, nodes, inputs, t)
    requires Cached(nodes[0].auth, nodes[0].server)
    requires 1 + |near - {c.nodeId}| < c.Quorum()
    requires forall k :: 0 <= k < |inputs| ==> !inputs[k].inRecovery && inputs[k].fenceOk
    requires last < |inputs| && inputs[last].contactAt >= t.cut + t.delay + t.pace + QUORUM_LEASE
    ensures f <= last && inputs[f].contactAt < t.cut + t.delay + 2 * t.pace + QUORUM_LEASE
    ensures forall k :: f <= k <= last ==> Fenced(nodes, outs, k)
  {
    hide Tick;
    f := FirstContact(inputs, t.pace, t.cut + t.delay + t.pace + QUORUM_LEASE, last);
    forall k | f <= k <= last
      ensures Fenced(nodes, outs, k)
    {
      FencedPass(c, near, nodes, inputs, outs, t, k);
    }
  }

  // ------------------------------------------------------------------ gossip cadence

  lemma ServingKeepsTicks(c: Config, x: Node, i: Input)
    ensures Serve(c, x, i).0.chores.ticks == x.chores.ticks
    ensures Recover(c, x, i).0.chores.ticks == x.chores.ticks
  {
    hide RawAuth, Authorize, Enforce, Rejoins, ClearSyncStep;
  }

  lemma TickCounts(c: Config, x: Node, i: Input)
    ensures var (x', o) := Tick(c, x, i);
            && x'.chores.ticks == x.chores.ticks + 1
            && (o.gossip.Some? <==> x'.chores.ticks % GOSSIP_EVERY == 0)
  {
    TickSplits(c, x, i);
    ServingKeepsTicks(c, Entering(c, x, i), i);
    hide Tick, Serve, Recover, Proposal, Drain, Marker, Adopt, StallCheck;
  }

  lemma {:induction false} TicksAt(c: Config, nodes: seq<Node>, inputs: seq<Input>, outs: seq<Output>, j: nat, k: nat)
    requires Run(c, nodes, inputs, outs) && j <= k <= |inputs|
    ensures nodes[k].chores.ticks == nodes[j].chores.ticks + (k - j)
    decreases k
  {
    hide Tick;
    if j < k {
      TicksAt(c, nodes, inputs, outs, j, k - 1);
      assert PassAt(c, nodes, inputs, outs, k - 1);
      TickCounts(c, nodes[k - 1], inputs[k - 1]);
    }
  }

  /** Pass b is the last one to broadcast at or before the instant. */
  ghost predicate LastBroadcast(inputs: seq<Input>, outs: seq<Output>, at: Time, b: nat)
    requires |outs| == |inputs|
  {
    && b < |inputs| && outs[b].gossip.Some? && inputs[b].gossipAt <= at
    && forall k :: b < k < |inputs| && outs[k].gossip.Some? ==> inputs[k].gossipAt > at
  }

  lemma {:induction false} GossipSpan(inputs: seq<Input>, pace: Time, j: nat, k: nat)
    requires Paced(inputs, pace) && j <= k < |inputs|
    ensures inputs[j].gossipAt <= inputs[k].gossipAt <= inputs[j].gossipAt + (k - j) * pace
    decreases k
  {
    if j < k {
      GossipSpan(inputs, pace, j, k - 1);
      assert InStep(inputs, pace, k);
      assert (k - j) * pace == (k - 1 - j) * pace + pace;
    }
  }

  /** Broadcasting on every fifth pass, the last broadcast before an instant is less than five paces old. */
  lemma LastBroadcastIsRecent(c: Config, nodes: seq<Node>, inputs: seq<Input>, outs: seq<Output>, pace: Time,
                              at: Time, m: nat, b: nat)
    requires Run(c, nodes, inputs, outs) && Paced(inputs, pace)
    requires 4 <= m && m + 1 < |inputs| && inputs[m].gossipAt <= at < inputs[m + 1].gossipAt
    requires LastBroadcast(inputs, outs, at, b)
    ensures at < inputs[b].gossipAt + 5 * pace
  {
    hide Tick;
    var k := BroadcastWithinFive(c, nodes, inputs, outs, m);
    assert k <= b || inputs[k].gossipAt > at;
    GossipSpan(inputs, pace, k, m);
    GossipSpan(inputs, pace, m, m + 1);
    Scale(m - k, 4, pace);
    GossipSpan(inputs, pace, k, b);
  }

  /** Of any five consecutive passes one broadcasts. */
  lemma BroadcastWithinFive(c: Config, nodes: seq<Node>, inputs: seq<Input>, outs: seq<Output>, m: nat) returns (k: nat)
    requires Run(c, nodes, inputs, outs) && 4 <= m < |inputs|
    ensures m - 4 <= k <= m && outs[k].gossip.Some?
  {
    hide Tick;
    k := m - nodes[m + 1].chores.ticks % GOSSIP_EVERY;
    TicksAt(c, nodes, inputs, outs, k + 1, m + 1);
    assert PassAt(c, nodes, inputs, outs, k);
    TickCounts(c, nodes[k], inputs[k]);
  }

  lemma Scale(a: nat, b: nat, pace: Time)
    requires a <= b
    ensures a * pace <= b * pace
  {
  }

  // ----------------------------------------------------------------- the majority side

  /**
   The majority side: its nodes, when each one's last pass ended, what its leaders have proposed, and
   which nodes may be out of recovery.
   */
  datatype Cluster = Cluster(nodes: map<NodeId, Node>, ended: map<NodeId, Time>, proposals: set<(Decision, Time)>,
                             risen: set<NodeId>)

  /** A pass of one of its nodes, with what came of it. */
  datatype PassOf = PassOf(id: NodeId, i: Input, o: Output)

  /** A readable decision names the old primary or was proposed on this side no later than it is read. */
  ghost predicate Ratified(w: Cluster, old_: NodeId, i: Input) {
    i.current.Some? ==>
      || i.current.value.primary == old_
      || exists at: Time :: (i.current.value, at) in w.proposals && at <= i.adoptAt
  }

  /** A node is out of recovery only if it started so or has asked for its promotion. */
  ghost predicate ClusterStep(cs: map<NodeId, Config>, old_: NodeId, w: Cluster, e: PassOf, w': Cluster) {
    && e.id in w.nodes && e.id in w.ended && e.id in cs && cs[e.id].nodeId == e.id
    && e.i.Ordered() && w.ended[e.id] <= e.i.loopAt && Ratified(w, old_, e.i)
    && (!e.i.inRecovery ==> e.id in w.risen)
    && var (x, o) := Tick(cs[e.id], w.nodes[e.id], e.i);
       && e.o == o
       && w' == Cluster(w.nodes[e.id := x], w.ended[e.id := e.i.checkAt],
                        w.proposals + if o.proposal.Some? then {(o.proposal.value, e.i.leaderAt)} else {},
                        w.risen + if Promotes(o.effects) then {e.id} else {})
  }

  /** Before the m-th call of a pass the node may be out of recovery, and its server is not read-only. */
  ghost predicate OpenBefore(w: Cluster, e: PassOf, m: nat) {
    && e.id in w.nodes && m <= |e.o.effects|
    && (e.id in w.risen || Promotes(e.o.effects[..m]))
    && !Before(w.nodes[e.id], e.o, m).readOnly
  }

  /** At some point of the pass, before, between or after its calls, the server takes writes. */
  ghost predicate OpenDuring(w: Cluster, e: PassOf) {
    exists m: nat :: OpenBefore(w, e, m)
  }

  /** The last time a pass looks at the clock before it calls the server. */
  function LastLook(i: Input): Time {
    if i.inRecovery then i.contactAt else i.checkAt
  }

  /** No fence that a promotion makes fails. */
  ghost predicate PromotionsFenced(es: seq<PassOf>) {
    forall k :: 0 <= k < |es| ==> PromoteFence(false) !in es[k].o.effects
  }

  /** How long after the old primary was last seen the majority side stays closed. */
  function Quiet(fenced: bool): Time {
    DEAD_TIMEOUT + if fenced then CONFIRM_WINDOW else 0
  }

  ghost predicate StepAt(cs: map<NodeId, Config>, old_: NodeId, ws: seq<Cluster>, es: seq<PassOf>, k: nat)
    requires |ws| == |es| + 1 && k < |es|
  {
    ClusterStep(cs, old_, ws[k], es[k], ws[k + 1])
  }

  ghost predicate ClusterRun(cs: map<NodeId, Config>, old_: NodeId, ws: seq<Cluster>, es: seq<PassOf>) {
    && |ws| == |es| + 1
    && forall k :: 0 <= k < |es| ==> StepAt(cs, old_, ws, es, k)
  }

  /** A node that follows the old primary and has seen it no earlier than `seen`. */
  ghost predicate Follows(x: Node, old_: NodeId, seen: Time) {
    && x.auth.decided.Some? && x.auth.decided.value.primary == old_
    && x.auth.authorizedSince == None
    && old_ in x.peers.lsn && x.peers.lsn[old_].at >= seen
  }

  /** Whoever is out of recovery is read-only. */
  ghost predicate StartsFollowing(w: Cluster, old_: NodeId, seen: Time) {
    && w.proposals == {} && old_ != 0 && old_ !in w.nodes
    && (forall id :: id in w.nodes ==> Follows(w.nodes[id], old_, seen) && id in w.ended && w.ended[id] >= seen)
    && (forall id :: id in w.nodes && id in w.risen ==> w.nodes[id].server.readOnly)
  }

  /** Whatever departs from the old primary is later than its dead timeout; whatever opens, later still. */
  ghost predicate NodeInv(x: Node, ended: Time, old_: NodeId, seen: Time, risen: bool, fenced: bool) {
    && ended >= seen
    && x.auth.decided.Some?
    && (x.auth.decided.value.primary != old_ ==> ended >= seen + DEAD_TIMEOUT)
    && (x.auth.authorizedSince.Some? ==> x.auth.authorizedSince.value >= seen + DEAD_TIMEOUT)
    && old_ in x.peers.lsn && x.peers.lsn[old_].at >= seen
    && (risen && !x.server.readOnly ==> ended >= seen + Quiet(fenced))
  }

  ghost predicate ClusterInv(w: Cluster, old_: NodeId, seen: Time, fenced: bool) {
    && old_ != 0 && old_ !in w.nodes
    && (forall id :: id in w.nodes ==>
          id in w.ended && NodeInv(w.nodes[id], w.ended[id], old_, seen, id in w.risen, fenced))
    && (forall d, at {:trigger (d, at) in w.proposals} ::
          (d, at) in w.proposals && d.primary != old_ ==> at >= seen + DEAD_TIMEOUT)
  }

  /** A leader that still follows the old primary names another only after the dead timeout. */
  lemma ProposalIsLate(c: Config, y: Node, i: Input, old_: NodeId, seen: Time)
    requires y.auth.decided.Some? && old_ != 0 && c.nodeId != old_
    requires old_ in y.peers.lsn && y.peers.lsn[old_].at >= seen
    requires y.auth.decided.value.primary != old_ ==> i.leaderAt >= seen + DEAD_TIMEOUT
    requires Proposal(c, y, i).Some? && Proposal(c, y, i).value.primary != old_
    ensures i.leaderAt >= seen + DEAD_TIMEOUT
  {
    hide Listed, FreshCandidates;
  }

  /** Decisions, dates of authority and proposals of a pass that depart from the old primary are late. */
  lemma PassDepartsLate(c: Config, x: Node, ended: Time, i: Input, w: Cluster, old_: NodeId, seen: Time,
                        risen: bool, fenced: bool)
    requires NodeInv(x, ended, old_, seen, risen, fenced) && ClusterInv(w, old_, seen, fenced) && old_ != c.nodeId
    requires i.Ordered() && ended <= i.loopAt && Ratified(w, old_, i)
    ensures var (x', o) := Tick(c, x, i);
            && NodeInv(x', i.checkAt, old_, seen, false, fenced)
            && (x'.auth.decided.value.primary != old_ ==> i.adoptAt >= seen + DEAD_TIMEOUT)
            && (o.proposal.Some? && o.proposal.value.primary != old_ ==> i.leaderAt >= seen + DEAD_TIMEOUT)
            && (Unfences(o) ==> i.checkAt >= seen + Quiet(true))
  {
    hide Tick, Prepare, Drain, Proposal;
    var y := Prepare(c, x, i);
    TickFrame(c, x, i);
    PrepareFrame(c, x, i);
    PeersAfter(c, x, i);
    SinceFrame(c, x, i);
    UnfenceFrame(c, x, i);
    DrainSources(x.peers, i.inbox, old_);
    TickSplits(c, x, i);
    assert y.auth.decided.value.primary != old_ ==> i.adoptAt >= seen + DEAD_TIMEOUT;
    assert old_ in y.peers.lsn && y.peers.lsn[old_].at >= seen;
    if Proposal(c, y, i).Some? && Proposal(c, y, i).value.primary != old_ {
      ProposalIsLate(c, y, i, old_, seen);
    }
  }

  /** Nothing opens in a pass before its time: neither between two calls nor after the last one. */
  lemma PassOpensLate(c: Config, x: Node, ended: Time, i: Input, w: Cluster, old_: NodeId, seen: Time,
                      risen: bool, fenced: bool, m: nat)
    requires NodeInv(x, ended, old_, seen, risen, fenced) && ClusterInv(w, old_, seen, fenced) && old_ != c.nodeId
    requires i.Ordered() && ended <= i.loopAt && Ratified(w, old_, i)
    requires m <= |Tick(c, x, i).1.effects| && (fenced ==> PromoteFence(false) !in Tick(c, x, i).1.effects)
    requires risen || Promotes(Tick(c, x, i).1.effects[..m])
    requires !Before(x, Tick(c, x, i).1, m).readOnly
    ensures LastLook(i) >= seen + Quiet(fenced)
  {
    hide Tick, Before;
    var o := Tick(c, x, i).1;
    PassDepartsLate(c, x, ended, i, w, old_, seen, risen, fenced);
    OpenBetween(c, x, i, m);
    if Promotes(o.effects[..m]) {
      FenceBeforePromote(c, x, i, m);
    } else if Unfences(o) {
      NoUnfenceInRecovery(c, x, i);
    }
  }

  lemma PassKeepsInv(c: Config, x: Node, ended: Time, i: Input, w: Cluster, old_: NodeId, seen: Time,
                     risen: bool, fenced: bool)
    requires NodeInv(x, ended, old_, seen, risen, fenced) && ClusterInv(w, old_, seen, fenced) && old_ != c.nodeId
    requires i.Ordered() && ended <= i.loopAt && Ratified(w, old_, i)
    requires fenced ==> PromoteFence(false) !in Tick(c, x, i).1.effects
    ensures var (x', o) := Tick(c, x, i);
            NodeInv(x', i.checkAt, old_, seen, risen || Promotes(o.effects), fenced)
  {
    hide Tick, ClusterInv, Ratified;
    var (x', o) := Tick(c, x, i);
    PassDepartsLate(c, x, ended, i, w, old_, seen, risen, fenced);
    EffectsExplainServer(c, x, i);
    assert o.effects[..|o.effects|] == o.effects;
    if (risen || Promotes(o.effects)) && !x'.server.readOnly {
      PassOpensLate(c, x, ended, i, w, old_, seen, risen, fenced, |o.effects|);
    }
  }

  lemma ClusterInvStep(cs: map<NodeId, Config>, w: Cluster, e: PassOf, w': Cluster, old_: NodeId, seen: Time,
                       fenced: bool)
    requires ClusterInv(w, old_, seen, fenced) && ClusterStep(cs, old_, w, e, w')
    requires fenced ==> PromoteFence(false) !in e.o.effects
    ensures ClusterInv(w', old_, seen, fenced)
    ensures OpenDuring(w, e) ==> LastLook(e.i) >= seen + Quiet(fenced)
  {
    hide Tick, NodeInv, Ratified, Before;
    var c, x, ended := cs[e.id], w.nodes[e.id], w.ended[e.id];
    PassKeepsInv(c, x, ended, e.i, w, old_, seen, e.id in w.risen, fenced);
    PassDepartsLate(c, x, ended, e.i, w, old_, seen, e.id in w.risen, fenced);
    if m: nat :| OpenBefore(w, e, m) {
      PassOpensLate(c, x, ended, e.i, w, old_, seen, e.id in w.risen, fenced, m);
    }
  }

  lemma {:induction false} ClusterInvAlways(cs: map<NodeId, Config>, ws: seq<Cluster>, es: seq<PassOf>, k: nat,
                                            old_: NodeId, seen: Time)
    requires ClusterRun(cs, old_, ws, es) && StartsFollowing(ws[0], old_, seen) && k <= |es|
    ensures ClusterInv(ws[k], old_, seen, PromotionsFenced(es))
  {
    if k > 0 {
      ClusterInvAlways(cs, ws, es, k - 1, old_, seen);
      assert StepAt(cs, old_, ws, es, k - 1);
      ClusterInvStep(cs, ws[k - 1], es[k - 1], ws[k], old_, seen, PromotionsFenced(es));
      hide ClusterStep, ClusterInv;
    }
  }

  /**
   No server of the majority side takes writes earlier than the dead timeout plus the confirm window after
   the old primary was last seen, however proposals, adoptions and promotions chain. Should the fence of
   a promotion fail, the dead timeout alone is certain.
   */
  lemma NewPrimaryWaits(cs: map<NodeId, Config>, ws: seq<Cluster>, es: seq<PassOf>, k: nat, old_: NodeId, seen: Time)
    requires ClusterRun(cs, old_, ws, es) && StartsFollowing(ws[0], old_, seen) && k < |es|
    requires OpenDuring(ws[k], es[k])
    ensures LastLook(es[k].i) >= seen + Quiet(PromotionsFenced(es))
  {
    hide ClusterStep, OpenDuring;
    ClusterInvAlways(cs, ws, es, k, old_, seen);
    assert StepAt(cs, old_, ws, es, k);
    ClusterInvStep(cs, ws[k], es[k], ws[k + 1], old_, seen, PromotionsFenced(es));
  }

  // -------------------------------------------------------------------- main result

  /** A cut-off primary beside a majority side, one of whose servers takes writes during pass k. */
  ghost predicate Scenario(
      c: Config, near: set<NodeId>, nodes: seq<Node>, inputs: seq<Input>, outs: seq<Output>, t: Timing,
      m: nat, b: nat, last: nat,
      cs: map<NodeId, Config>, ws: seq<Cluster>, es: seq<PassOf>, k: nat)
  {
    // the old primary, out of recovery, cut off with less than a quorum
    && Run(c, nodes, inputs, outs) && Paced(inputs, t.pace) && CutOff(c, near, nodes, inputs, t)
    && Cached(nodes[0].auth, nodes[0].server) && 1 + |near - {c.nodeId}| < c.Quorum()
    && (forall j :: 0 <= j < |inputs| ==> !inputs[j].inRecovery && inputs[j].fenceOk)
    && last < |inputs| && inputs[last].contactAt >= t.cut + t.delay + t.pace + QUORUM_LEASE
    // its last broadcast before the cut
    && 4 <= m && m + 1 < |inputs| && inputs[m].gossipAt <= t.cut < inputs[m + 1].gossipAt
    && LastBroadcast(inputs, outs, t.cut, b)
    // the majority side has drained it, and runs on
    && ClusterRun(cs, c.nodeId, ws, es) && StartsFollowing(ws[0], c.nodeId, inputs[b].gossipAt)
    && k < |es| && OpenDuring(ws[k], es[k])
  }

  /** A node as a process has it that started, has gone through passes, and ended the last by `ended`. */
  ghost predicate FromStart(c: Config, x: Node, ended: Time) {
    exists nodes: seq<Node>, inputs: seq<Input>, outs: seq<Output> {:trigger Run(c, nodes, inputs, outs)} ::
      && Run(c, nodes, inputs, outs) && inputs != []
      && nodes[0] == Start(inputs[0].current, inputs[0].loopAt, nodes[0].server)
      && nodes[|inputs|] == x && inputs[|inputs| - 1].checkAt <= ended
  }

  /** Every node of the majority side has been led up to from its process's start. */
  ghost predicate LedUpTo(cs: map<NodeId, Config>, w: Cluster) {
    forall id :: id in w.nodes ==> id in cs && id in w.ended && FromStart(cs[id], w.nodes[id], w.ended[id])
  }

  /**
   The old primary's fence is in force strictly before any server of the majority side takes writes,
   whenever delay + 7 paces + landing is under 2802 ms, or under 1302 ms should a promotion's fence fail.
   */
  lemma TimedNonOverlap(
      c: Config, near: set<NodeId>, nodes: seq<Node>, inputs: seq<Input>, outs: seq<Output>, t: Timing,
      m: nat, b: nat, last: nat,
      cs: map<NodeId, Config>, ws: seq<Cluster>, es: seq<PassOf>, k: nat)
    returns (f: nat)
    requires Scenario(c, near, nodes, inputs, outs, t, m, b, last, cs, ws, es, k)
    requires t.delay + 7 * t.pace + t.landing < if PromotionsFenced(es) then 2802 else 1302
    ensures f <= last < |inputs| && |outs| == |inputs| && |nodes| == |inputs| + 1 && k < |es|
    ensures forall j :: f <= j <= last ==> Fenced(nodes, outs, j)
    ensures inputs[f].contactAt + t.landing < LastLook(es[k].i)
  {
    hide Tick, ClusterStep, OpenDuring, PromotionsFenced;
    f := OldPrimaryFences(c, near, nodes, inputs, outs, t, last);
    LastBroadcastIsRecent(c, nodes, inputs, outs, t.pace, t.cut, m, b);
    NewPrimaryWaits(cs, ws, es, k, c.nodeId, inputs[b].gossipAt);
  }
}
