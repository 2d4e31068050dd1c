/**
 The majority side at its earliest: node 1, a standby of node 3 from its process's start on, leads, names
 itself once node 3 has expired, is promoted, and opens. All times are relative to `s`, when it last saw
 node 3.
 */
module NewSide {
  import opened Quorum
  import opened Supervisor
  import opened SupervisorRuns
  import opened Effects
  import opened Scenarios
  import opened NonOverlap

  const FOLLOWED: Option<Decision> := Some(Decision(1, 3))
  const NEW: Option<Decision> := Some(Decision(2, 1))

  // ----------------------------------------------------------------- following node 3

  function FollowAt(s: Time, k: nat): Time {
    if k < 4 then s + 400 * k else s + 1500
  }

  /** A standby's pass; node 3's last gossip is drained in the first. */
  function FollowInput(s: Time, k: nat): Input {
    var inbox := if k == 0 then [Message(3, Some(Gossip(0, false, false, 1)), s)] else [];
    QuietInput(FollowAt(s, k), inbox, FOLLOWED, false).(inRecovery := true)
  }

  function FollowNode(s: Time, k: nat): Node {
    if k == 0 then Start(FOLLOWED, s, Server(false, Off))
    else Tick(EXAMPLE, FollowNode(s, k - 1), FollowInput(s, k - 1)).0
  }

  ghost predicate Following(x: Node, s: Time, k: nat) {
    && x.auth.decided == FOLLOWED && x.auth.appliedReadOnly == None && x.auth.authorizedSince == None
    && !x.auth.reconfirmPending && x.auth.lastLoop == (if k == 0 then s else FollowAt(s, k - 1))
    && x.chores.ticks == k && x.chores.lastProposed == 0 && !x.server.readOnly && Cached(x.auth, x.server)
    && x.peers.lsn.Keys == (if k == 0 then {} else if k < 5 then {3} else {1, 3})
    && (k > 0 ==> x.peers.lsn[3].at == s)
  }

  /** Sightings after a pass: the drained ones, and every fifth time this node's own. */
  lemma SightingsAfter(c: Config, x: Node, i: Input)
    ensures var lsn := Drain(x.peers, i.inbox).lsn;
            Prepare(c, x, i).peers.lsn
            == if (x.chores.ticks + 1) % GOSSIP_EVERY == 0
               then lsn[c.nodeId := Sighting(i.localLsn, i.inRecovery, i.gossipAt)] else lsn
  {
    hide Drain, Marker, Adopt, StallCheck;
  }

  /** A pass that does not lead remembers no new proposal. */
  lemma ProposalsKept(c: Config, x: Node, i: Input)
    requires !i.leader && i.inRecovery && i.current == x.auth.decided
    ensures Tick(c, x, i).0.chores.lastProposed == x.chores.lastProposed
  {
    hide Tick, Serve, Drain, Marker, StallCheck, Nominee;
    TickSplits(c, x, i);
    FollowerProposesNothing(c, x, i);
    RecoverKeepsProposals(c, Entering(c, x, i), i);
    hide Recover;
    assert !Adopts(StallCheck(x.auth, i.loopAt), i.current) by {
      PrepareFrame(c, x, i);
      assert StallCheck(x.auth, i.loopAt).decided == x.auth.decided by { StallKeepsDecision(x.auth, i.loopAt); }
    }
  }

  lemma StallKeepsDecision(a: Auth, now: Time)
    ensures StallCheck(a, now).decided == a.decided
  {
  }

  lemma RecoverKeepsProposals(c: Config, y: Node, i: Input)
    ensures Recover(c, y, i).0.chores.lastProposed == y.chores.lastProposed
  {
  }

  /** A pass under a decision that names another node authorizes nothing and promotes nothing. */
  lemma NotNamedNotServing(c: Config, x: Node, i: Input)
    requires i.inRecovery && Prepare(c, x, i).auth.decided.Some? && !Named(c, Prepare(c, x, i).auth)
    ensures var (x', o) := Tick(c, x, i);
            && x'.auth.authorizedSince == None && x'.auth.appliedReadOnly == None
            && !Promotes(o.effects) && x'.server.readOnly == x.server.readOnly
  {
    hide Tick, Prepare, Proposal, Serve, Recover, Replay;
    TickSplits(c, x, i);
    TickFrame(c, x, i);
    RecoverFrame(c, Entering(c, x, i), i);
    var e1, e2 := RecoveryEffects(c, x, i);
    ReplayShort(x.server, e1);
    ReplayShort(Replay(x.server, e1), e2);
    assert e2 != [] ==> e2[0] in e2;
  }

  lemma FollowPass(x: Node, s: Time, k: nat)
    requires k < 5 && Following(x, s, k)
    ensures Following(Tick(EXAMPLE, x, FollowInput(s, k)).0, s, k + 1)
  {
    hide Tick, Prepare, Drain;
    var i := FollowInput(s, k);
    if k == 0 {
      DrainOne(x.peers, i.inbox[0]);
    } else {
      EmptyDrain(x.peers);
    }
    SightingsAfter(EXAMPLE, x, i);
    PrepareFrame(EXAMPLE, x, i);
    TickFrame(EXAMPLE, x, i);
    TickCounts(EXAMPLE, x, i);
    TickSettings(EXAMPLE, x, i);
    ProposalsKept(EXAMPLE, x, i);
    NotNamedNotServing(EXAMPLE, x, i);
  }

  lemma {:induction false} FollowsTo(s: Time, k: nat)
    requires k <= 5
    ensures Following(FollowNode(s, k), s, k)
  {
    hide Tick;
    if k > 0 {
      FollowsTo(s, k - 1);
      FollowPass(FollowNode(s, k - 1), s, k - 1);
    }
  }

  /** The follower's life so far is a run from a start. */
  lemma FollowerFromStart(s: Time)
    ensures FromStart(EXAMPLE, FollowNode(s, 5), s + 1500)
  {
    hide Tick, FollowInput;
    var nodes := seq(6, k requires 0 <= k < 6 => FollowNode(s, k));
    var inputs := seq(5, k requires 0 <= k < 5 => FollowInput(s, k));
    var outs := seq(5, k requires 0 <= k < 5 => Tick(EXAMPLE, FollowNode(s, k), FollowInput(s, k)).1);
    forall k | 0 <= k < 5
      ensures PassAt(EXAMPLE, nodes, inputs, outs, k)
    {
      FollowsTo(s, k);
      FollowOrdered(s, k);
      assert FollowNode(s, k + 1) == Tick(EXAMPLE, FollowNode(s, k), FollowInput(s, k)).0;
    }
    FollowOrdered(s, 0);
    FollowOrdered(s, 4);
    assert Run(EXAMPLE, nodes, inputs, outs);
  }

  lemma FollowOrdered(s: Time, k: nat)
    ensures var i := FollowInput(s, k);
            i.Ordered() && i.loopAt == i.checkAt == FollowAt(s, k) && i.current == FOLLOWED
  {
  }

  // ------------------------------------------------------------ leading, once node 3 expires

  /** The leader's pass at the first instant at which node 3 no longer counts as live. */
  function LeadInput(s: Time): Input {
    QuietInput(s + 2500, FromTwo(s + 2500, 1), FOLLOWED, true).(inRecovery := true)
  }

  lemma LeadPrepared(s: Time, x: Node)
    requires Following(x, s, 5)
    ensures var y := Prepare(EXAMPLE, x, LeadInput(s));
            && Live(EXAMPLE, y.peers, s + 2500) == {1, 2} && y.peers.lsn.Keys == {1, 2, 3}
            && 2 in y.peers.heard && y.peers.heard[2] == s + 2500
            && y.auth.decided == FOLLOWED && !y.auth.reconfirmPending && y.chores.lastProposed == 0
  {
    hide Drain;
    DrainOne(x.peers, FromTwo(s + 2500, 1)[0]);
    PrepareFrame(EXAMPLE, x, LeadInput(s));
  }

  /** The leader names the better of the two live nodes, itself. */
  lemma NamesItself(s: Time, x: Node)
    requires Following(x, s, 5)
    ensures Proposal(EXAMPLE, Prepare(EXAMPLE, x, LeadInput(s)), LeadInput(s)) == NEW
  {
    hide Prepare, FreshCandidates;
    LeadPrepared(s, x);
    var i, y := LeadInput(s), Prepare(EXAMPLE, x, LeadInput(s));
    assert 1 in Listed({1, 2});
    assert Proposal(EXAMPLE, y, i).Some? && Proposal(EXAMPLE, y, i).value.primary != 3;
    ReplacementIsBest(EXAMPLE, y, i);
    assert FreshLsn(EXAMPLE, y.peers, i, 1) == 9 && FreshLsn(EXAMPLE, y.peers, i, 2) == 5;
  }

  /** Unstalled at s + 2500, in touch with node 2 then, with no authority yet and not known to be open. */
  ghost predicate Waiting(x: Node, s: Time) {
    && x.auth.lastLoop == s + 2500 && !x.auth.reconfirmPending && x.auth.authorizedSince == None
    && x.auth.appliedReadOnly == None && Cached(x.auth, x.server)
    && 2 in x.peers.heard && x.peers.heard[2] == s + 2500
  }

  lemma LeadPass(s: Time, x: Node) returns (x1: Node, o: Output)
    requires Following(x, s, 5)
    ensures (x1, o) == Tick(EXAMPLE, x, LeadInput(s))
    ensures o.proposal == NEW && !Promotes(o.effects) && !x1.server.readOnly && Waiting(x1, s)
    ensures PromoteFence(false) !in o.effects
  {
    hide Tick, Prepare, Proposal;
    var i := LeadInput(s);
    x1, o := Tick(EXAMPLE, x, i).0, Tick(EXAMPLE, x, i).1;
    LeadPrepared(s, x);
    NamesItself(s, x);
    PrepareFrame(EXAMPLE, x, i);
    TickSplits(EXAMPLE, x, i);
    TickFrame(EXAMPLE, x, i);
    TickSettings(EXAMPLE, x, i);
    NotNamedNotServing(EXAMPLE, x, i);
    PromoteFenceReported(EXAMPLE, x, i);
    hide Serve, Recover;
  }

  // ------------------------------------------------------------------ promotion and service

  function PromoteInput(s: Time, fenceOk: bool): Input {
    QuietInput(s + 2500, [], NEW, false).(inRecovery := true, promoteFenceOk := fenceOk)
  }

  function ServeInput(s: Time): Input {
    QuietInput(s + 2500, [], NEW, false)
  }

  function OpenInput(s: Time): Input {
    QuietInput(s + 4000, FromTwo(s + 4000, 1), NEW, false)
  }

  /** The new decision is adopted, and the promotion it calls for is asked for. */
  lemma PromotePass(s: Time, x: Node, fenceOk: bool) returns (x1: Node, o: Output)
    requires Waiting(x, s) && !x.server.readOnly && x.auth.decided == FOLLOWED
    ensures (x1, o) == Tick(EXAMPLE, x, PromoteInput(s, fenceOk)) && Waiting(x1, s)
    ensures Promotes(o.effects) && x1.server.readOnly == fenceOk && PromoteFence(!fenceOk) !in o.effects
  {
    hide Tick, Prepare, Drain;
    var i := PromoteInput(s, fenceOk);
    x1, o := Tick(EXAMPLE, x, i).0, Tick(EXAMPLE, x, i).1;
    EmptyDrain(x.peers);
    PrepareFrame(EXAMPLE, x, i);
    TickFrame(EXAMPLE, x, i);
    TickSettings(EXAMPLE, x, i);
    PeersAfter(EXAMPLE, x, i);
    RecoveryForgets(EXAMPLE, x, i);
    AdoptionResets(EXAMPLE, x, i);
    NamedIsPromoted(EXAMPLE, x, i);
    EffectsExplainServer(EXAMPLE, x, i);
    assert o.effects[..|o.effects|] == o.effects;
    PromotedOpen(EXAMPLE, x, i, |o.effects|);
    PromoteFenceReported(EXAMPLE, x, i);
  }

  lemma RecoveryForgets(c: Config, x: Node, i: Input)
    requires i.inRecovery
    ensures Tick(c, x, i).0.auth.authorizedSince == None && Tick(c, x, i).0.auth.appliedReadOnly == None
  {
    hide Tick, Prepare, Proposal, Serve, Recover;
    TickSplits(c, x, i);
    RecoverFrame(c, Entering(c, x, i), i);
  }

  lemma AdoptionResets(c: Config, x: Node, i: Input)
    requires i.current.Some? && i.current != x.auth.decided
    ensures !Prepare(c, x, i).chores.promoted
  {
    hide Drain, Marker;
  }

  lemma ServesTwice(s: Time, x1: Node) returns (x2: Node, x3: Node)
    requires Waiting(x1, s)
    ensures x2 == Tick(EXAMPLE, x1, ServeInput(s)).0 && x3 == Tick(EXAMPLE, x2, OpenInput(s)).0
    ensures !x3.server.readOnly
  {
    hide Tick, Drain;
    EmptyDrain(x1.peers);
    x2 := ServingPass(EXAMPLE, x1, ServeInput(s), 2);
    DrainOne(x2.peers, FromTwo(s + 4000, 1)[0]);
    x3 := ServingPass(EXAMPLE, x2, OpenInput(s), 2);
    TickSettings(EXAMPLE, x1, ServeInput(s));
    TickSettings(EXAMPLE, x2, OpenInput(s));
  }

  // ------------------------------------------------------------------------ as a cluster

  const ONE: map<NodeId, Config> := map[1 := EXAMPLE]

  /** What the leading pass proposes, and when. */
  function Naming(s: Time): (Decision, Time) {
    (Decision(2, 1), s + 2500)
  }

  function Solo(x: Node, ended: Time, proposals: set<(Decision, Time)>, risen: set<NodeId>): Cluster {
    Cluster(map[1 := x], map[1 := ended], proposals, risen)
  }

  /** One pass of the only node of a one-node majority side. */
  lemma SoloStep(w: Cluster, x: Node, ended: Time, i: Input, x': Node, o: Output)
    requires w == Solo(x, ended, w.proposals, w.risen) && (x', o) == Tick(EXAMPLE, x, i)
    requires i.Ordered() && ended <= i.loopAt && Ratified(w, 3, i) && (!i.inRecovery ==> 1 in w.risen)
    ensures ClusterStep(ONE, 3, w, PassOf(1, i, o),
                        Solo(x', i.checkAt,
                             w.proposals + if o.proposal.Some? then {(o.proposal.value, i.leaderAt)} else {},
                             w.risen + if Promotes(o.effects) then {1} else {}))
  {
    hide Tick, Ratified, Promotes;
    assert w.nodes[1 := x'] == map[1 := x'] && w.ended[1 := i.checkAt] == map[1 := i.checkAt];
  }

  lemma ClusterExtends(cs: map<NodeId, Config>, old_: NodeId, ws: seq<Cluster>, es: seq<PassOf>, e: PassOf, w: Cluster)
    requires ClusterRun(cs, old_, ws, es) && ClusterStep(cs, old_, ws[|es|], e, w)
    ensures ClusterRun(cs, old_, ws + [w], es + [e])
  {
    hide ClusterStep;
    forall k | 0 <= k < |es + [e]|
      ensures StepAt(cs, old_, ws + [w], es + [e], k)
    {
      assert k < |es| ==> StepAt(cs, old_, ws, es, k);
    }
  }

  /**
   A run of the majority side, led up to from a start, that ends with a pass during which its server takes
   writes, having looked at the clock at `at`.
   */
  ghost predicate OpensAt(ws: seq<Cluster>, es: seq<PassOf>, s: Time, at: Time) {
    && es != [] && ClusterRun(ONE, 3, ws, es) && StartsFollowing(ws[0], 3, s) && LedUpTo(ONE, ws[0])
    && OpenDuring(ws[|es| - 1], es[|es| - 1]) && LastLook(es[|es| - 1].i) == at
  }

  lemma FirstStep(s: Time) returns (x1: Node, ws: seq<Cluster>, es: seq<PassOf>)
    ensures ClusterRun(ONE, 3, ws, es) && |es| == 1 && |ws| == 2
    ensures StartsFollowing(ws[0], 3, s) && LedUpTo(ONE, ws[0])
    ensures ws[1] == Solo(x1, s + 2500, {Naming(s)}, {}) && PromoteFence(false) !in es[0].o.effects
    ensures Waiting(x1, s) && !x1.server.readOnly && x1.auth.decided == FOLLOWED
  {
    hide Tick, ClusterStep, FollowNode, Promotes;
    var x, i := FollowNode(s, 5), LeadInput(s);
    FollowsTo(s, 5);
    FollowerFromStart(s);
    var o;
    x1, o := LeadPass(s, x);
    LeadKeepsDecision(s, x);
    var w0, e := Solo(x, s + 1500, {}, {}), PassOf(1, i, o);
    var w1 := Solo(x1, s + 2500, {Naming(s)}, {});
    SoloStep(w0, x, s + 1500, i, x1, o);
    assert w0.proposals + {Naming(s)} == {Naming(s)} && w0.risen + {} == {};
    ws, es := [w0] + [w1], [] + [e];
    assert ClusterRun(ONE, 3, [w0], []);
    ClusterExtends(ONE, 3, [w0], [], e, w1);
  }

  lemma LeadKeepsDecision(s: Time, x: Node)
    requires Following(x, s, 5)
    ensures Tick(EXAMPLE, x, LeadInput(s)).0.auth.decided == FOLLOWED
  {
    hide Tick, Prepare;
    PrepareFrame(EXAMPLE, x, LeadInput(s));
    TickFrame(EXAMPLE, x, LeadInput(s));
  }

  /** A further pass under the new decision, by a node that does not lead. */
  lemma NextStep(s: Time, ws: seq<Cluster>, es: seq<PassOf>, x: Node, i: Input, x': Node, o: Output,
                 risen: set<NodeId>)
    returns (ws': seq<Cluster>, es': seq<PassOf>)
    requires ClusterRun(ONE, 3, ws, es) && ws[|es|] == Solo(x, s + 2500, {Naming(s)}, risen)
    requires (x', o) == Tick(EXAMPLE, x, i) && i.Ordered() && s + 2500 <= i.loopAt && i.current == NEW && !i.leader
    requires !i.inRecovery ==> 1 in risen
    ensures ClusterRun(ONE, 3, ws', es') && es' == es + [PassOf(1, i, o)] && ws'[..|ws|] == ws && |ws'| == |ws| + 1
    ensures ws'[|ws|] == Solo(x', i.checkAt, {Naming(s)}, risen + if Promotes(o.effects) then {1} else {})
  {
    hide Tick, ClusterStep, Promotes;
    FollowerProposesNothing(EXAMPLE, x, i);
    assert Naming(s) in ws[|es|].proposals;
    SoloStep(ws[|es|], x, s + 2500, i, x', o);
    assert {Naming(s)} + {} == {Naming(s)};
    ws' := ws + [Solo(x', i.checkAt, {Naming(s)}, risen + if Promotes(o.effects) then {1} else {})];
    es' := es + [PassOf(1, i, o)];
    ClusterExtends(ONE, 3, ws, es, PassOf(1, i, o), ws'[|ws|]);
  }

  /** A node that ends a pass possibly out of recovery and not read-only was open during it. */
  lemma EndsOpen(x: Node, i: Input, w: Cluster)
    requires w.nodes == map[1 := x] && !Tick(EXAMPLE, x, i).0.server.readOnly
    requires 1 in w.risen || Promotes(Tick(EXAMPLE, x, i).1.effects)
    ensures OpenDuring(w, PassOf(1, i, Tick(EXAMPLE, x, i).1))
  {
    hide Tick, Promotes;
    var o := Tick(EXAMPLE, x, i).1;
    EffectsExplainServer(EXAMPLE, x, i);
    assert o.effects[..|o.effects|] == o.effects;
    assert OpenBefore(w, PassOf(1, i, o), |o.effects|);
  }

  lemma PromoteStep(s: Time, fenceOk: bool) returns (x1: Node, x2: Node, ws: seq<Cluster>, es: seq<PassOf>)
    ensures ClusterRun(ONE, 3, ws, es) && |es| == 2 && |ws| == 3
    ensures StartsFollowing(ws[0], 3, s) && LedUpTo(ONE, ws[0]) && ws[1] == Solo(x1, s + 2500, {Naming(s)}, {})
    ensures ws[2] == Solo(x2, s + 2500, {Naming(s)}, {1}) && Waiting(x2, s) && x2.server.readOnly == fenceOk
    ensures es[1] == PassOf(1, PromoteInput(s, fenceOk), Tick(EXAMPLE, x1, PromoteInput(s, fenceOk)).1)
    ensures x2 == Tick(EXAMPLE, x1, PromoteInput(s, fenceOk)).0 && Promotes(es[1].o.effects)
    ensures fenceOk ==> PromotionsFenced(es)
  {
    hide Tick, ClusterRun, StartsFollowing, LedUpTo, Promotes, Waiting;
    var ws1, es1, o;
    x1, ws1, es1 := FirstStep(s);
    x2, o := PromotePass(s, x1, fenceOk);
    assert {} + {1} == {1};
    assert ws1[|es1|] == Solo(x1, s + 2500, {Naming(s)}, {});
    ws, es := NextStep(s, ws1, es1, x1, PromoteInput(s, fenceOk), x2, o, {});
    assert ws[0] == ws[..|ws1|][0] && ws[1] == ws[..|ws1|][1];
  }

  /** A follower can open exactly at the bound: dead timeout plus confirm window, no later. */
  lemma WaitIsTight(s: Time) returns (ws: seq<Cluster>, es: seq<PassOf>)
    ensures OpensAt(ws, es, s, s + DEAD_TIMEOUT + CONFIRM_WINDOW) && PromotionsFenced(es)
  {
    hide Tick, ClusterRun, StartsFollowing, LedUpTo, OpenDuring, Promotes, Waiting, Cached;
    var x0, x1, ws1, es1 := PromoteStep(s, true);
    var x2, x3 := ServesTwice(s, x1);
    var o2, o3 := Tick(EXAMPLE, x1, ServeInput(s)).1, Tick(EXAMPLE, x2, OpenInput(s)).1;
    PromotesInRecovery(EXAMPLE, x1, ServeInput(s));
    PromotesInRecovery(EXAMPLE, x2, OpenInput(s));
    PromoteFenceReported(EXAMPLE, x1, ServeInput(s));
    PromoteFenceReported(EXAMPLE, x2, OpenInput(s));
    assert {1} + {} == {1};
    var ws2, es2 := NextStep(s, ws1, es1, x1, ServeInput(s), x2, o2, {1});
    ws, es := NextStep(s, ws2, es2, x2, OpenInput(s), x3, o3, {1});
    EndsOpen(x2, OpenInput(s), ws2[3]);
    assert ws[0] == ws[..|ws2|][0] == ws2[..|ws1|][0] && ws[3] == ws[..|ws2|][3];
  }

  /** Should the fence of its promotion fail, it can open at the dead timeout. */
  lemma FailedFenceIsTight(s: Time) returns (ws: seq<Cluster>, es: seq<PassOf>)
    ensures OpensAt(ws, es, s, s + DEAD_TIMEOUT)
  {
    hide Tick, ClusterRun, StartsFollowing, LedUpTo, OpenDuring, Promotes, Waiting, Cached;
    var x1, x2;
    x1, x2, ws, es := PromoteStep(s, false);
    EndsOpen(x1, PromoteInput(s, false), ws[1]);
  }
}
