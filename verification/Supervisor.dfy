/**
 One node's supervisor: what a single pass of its loop does to its bookkeeping and to the local
 server's two settings. Clock reads, probe results and the success of each SQL call are inputs;
 a setting call is all-or-nothing here.
 */
module Supervisor {
  import opened Quorum
  import Selection

  /** Milliseconds. */
  type Time = nat
  type NodeId = nat

  const GOSSIP_EVERY: nat := 5
  const DEAD_TIMEOUT: Time := 2500
  const CONFIRM_WINDOW: Time := 1500
  const QUORUM_LEASE: Time := 1200
  const STALL_THRESHOLD: Time := 1500

  datatype Decision = Decision(seqNo: nat, primary: NodeId)
  datatype Gossip = Gossip(lsn: nat, inRecovery: bool, reconfirm: bool, seqNo: nat)
  datatype Sighting = Sighting(lsn: nat, inRecovery: bool, at: Time)

  /** A value of synchronous_standby_names: empty, or any k of the listed standbys. */
  datatype SyncNames = Off | AnyOf(k: nat, standbys: seq<NodeId>)

  datatype Config = Config(nodeId: NodeId, voters: seq<NodeId>, synchronous: bool, rejoinScript: bool,
                           pgMembers: set<NodeId>) {
    /** What the start-up checks establish before the loop is entered. */
    ghost predicate Valid() {
      && nodeId != 0 && nodeId in voters && nodeId in pgMembers
      && forall i, j :: 0 <= i < j < |voters| ==> voters[i] != voters[j]
    }

    function Quorum(): nat { Majority(|voters|) }

    function SyncTarget(): SyncNames {
      if Quorum() - 1 >= 1 then AnyOf(Quorum() - 1, Without(voters, nodeId)) else Off
    }
  }

  function Without(ids: seq<NodeId>, x: NodeId): seq<NodeId> {
    if ids == [] then []
    else (if ids[0] == x then [] else [ids[0]]) + Without(ids[1..], x)
  }

  /** What gossip has told this node about its peers, each entry stamped when it was drained. */
  datatype Peers = Peers(
    lsn: map<NodeId, Sighting>,
    heard: map<NodeId, Time>,
    reconfirm: map<NodeId, bool>,
    seqNo: map<NodeId, nat>
  )

  /** What this node's authority to serve writes rests on, and what it believes the server runs with. */
  datatype Auth = Auth(
    decided: Option<Decision>,
    reconfirmPending: bool,
    appliedReadOnly: Option<bool>,
    appliedSync: Option<SyncNames>,
    authorizedSince: Option<Time>,
    datadirKnown: bool,
    clusterMarker: bool,
    lastLoop: Time
  )

  /** Counters and once-per-decision flags. */
  datatype Chores = Chores(
    ticks: nat,
    lastProposed: nat,
    lastProposedTick: nat,
    promoted: bool,
    promoteTick: nat,
    rejoining: bool,
    appliedPrimary: NodeId,
    slotsEnsured: bool
  )

  /** The settings the local server actually runs with. */
  datatype Server = Server(readOnly: bool, sync: SyncNames)

  /** A supervisor's memory, and the server it controls. */
  datatype Node = Node(peers: Peers, auth: Auth, chores: Chores, server: Server)

  datatype Message = Message(from: NodeId, payload: Option<Gossip>, at: Time)

  /** One pass: when each clock is read, what is observed, and which SQL calls succeed. */
  datatype Input = Input(
    loopAt: Time,
    inbox: seq<Message>,
    adoptAt: Time,
    current: Option<Decision>,
    inRecovery: bool,
    gossipAt: Time,
    localLsn: nat,
    markerFound: Option<bool>,
    markerWritten: bool,
    leader: bool,
    leaderAt: Time,
    probes: map<NodeId, nat>,
    contactAt: Time,
    authAt: Time,
    checkAt: Time,
    clearSyncOk: bool,
    promoteFenceOk: bool,
    promoteOk: bool,
    repointOk: bool,
    fenceOk: bool,
    syncOk: bool,
    unfenceOk: bool,
    rejoinDirFound: bool
  ) {
    /** Clock reads of one pass, in program order. */
    ghost predicate Ordered() {
      && (forall i :: 0 <= i < |inbox| ==> loopAt <= inbox[i].at <= adoptAt)
      && (forall i, j :: 0 <= i < j < |inbox| ==> inbox[i].at <= inbox[j].at)
      && loopAt <= adoptAt <= gossipAt <= leaderAt <= contactAt <= authAt <= checkAt
    }
  }

  datatype Effect =
    | ClearSync(ok: bool)
    | PromoteFence(ok: bool)
    | Promote(ok: bool)
    | Repoint(primary: NodeId, ok: bool)
    | Fence(ok: bool)
    | SetSync(names: SyncNames, ok: bool)
    | Unfence(ok: bool)
    | Rejoin(primary: NodeId)

  datatype Output = Output(
    gossip: Option<Gossip>,
    proposal: Option<Decision>,
    rawAuth: bool,
    authorized: bool,
    slots: bool,
    effects: seq<Effect>
  )

  /** Instants subtract with saturation. */
  function Since(now: Time, earlier: Time): Time {
    if now >= earlier then now - earlier else 0
  }

  /** A supervisor process starting up over a server it knows nothing about. */
  function Start(current: Option<Decision>, now: Time, server: Server): Node {
    Node(Peers(map[], map[], map[], map[]),
         Auth(current, false, None, None, None, false, false, now),
         Chores(0, 0, 0, false, 0, false, 0, false),
         server)
  }

  // ----------------------------------------------------------------- phases

  predicate Stalled(a: Auth, now: Time) {
    Since(now, a.lastLoop) > STALL_THRESHOLD
  }

  function StallCheck(a: Auth, now: Time): Auth {
    if Stalled(a, now) then
      a.(appliedReadOnly := None, authorizedSince := None, reconfirmPending := true, lastLoop := now)
    else a.(lastLoop := now)
  }

  function KnownSeq(p: Peers, id: NodeId): nat {
    if id in p.seqNo then p.seqNo[id] else 0
  }

  function Receive(p: Peers, m: Message): Peers {
    var p := p.(heard := p.heard[m.from := m.at]);
    match m.payload
    case None => p
    case Some(g) =>
      var known := KnownSeq(p, m.from);
      p.(lsn := p.lsn[m.from := Sighting(g.lsn, g.inRecovery, m.at)],
         reconfirm := p.reconfirm[m.from := g.reconfirm],
         seqNo := p.seqNo[m.from := if g.seqNo > known then g.seqNo else known])
  }

  function Drain(p: Peers, inbox: seq<Message>): Peers
    decreases |inbox|
  {
    if inbox == [] then p else Receive(Drain(p, inbox[..|inbox| - 1]), inbox[|inbox| - 1])
  }

  /** The decision currently readable differs from the one this node acts on. */
  predicate Adopts(a: Auth, current: Option<Decision>) {
    current.Some? && a.decided != current
  }

  function Adopt(a: Auth, current: Option<Decision>): Auth {
    if Adopts(a, current) then a.(decided := current, reconfirmPending := false) else a
  }

  function ResetChores(h: Chores): Chores {
    h.(promoted := false, rejoining := false, appliedPrimary := 0, slotsEnsured := false, lastProposed := 0)
  }

  function DecidedSeq(a: Auth): nat { if a.decided.Some? then a.decided.value.seqNo else 0 }
  function DecidedPrimary(a: Auth): NodeId { if a.decided.Some? then a.decided.value.primary else 0 }

  /** The on-disk sign that this data directory has belonged to a decided cluster. */
  function Marker(a: Auth, ticks: nat, i: Input): Auth {
    var a := if !a.datadirKnown && ticks % 20 == 1 && i.markerFound.Some?
             then a.(datadirKnown := true, clusterMarker := i.markerFound.value) else a;
    if !a.clusterMarker && a.decided.Some? && a.datadirKnown && i.markerWritten
    then a.(clusterMarker := true) else a
  }

  /** Take note of a stall, of the peers' gossip, and of a new decision. */
  function Observe(x: Node, i: Input): Node {
    var a := StallCheck(x.auth, i.loopAt);
    Node(Drain(x.peers, i.inbox),
         Adopt(a, i.current),
         if Adopts(a, i.current) then ResetChores(x.chores) else x.chores,
         x.server)
  }

  /** Count the pass, record this node's own position every fifth one, and look after the marker. */
  function Announce(c: Config, x: Node, i: Input): Node {
    var h := x.chores.(ticks := x.chores.ticks + 1);
    var own := Sighting(i.localLsn, i.inRecovery, i.gossipAt);
    Node(if h.ticks % GOSSIP_EVERY == 0 then x.peers.(lsn := x.peers.lsn[c.nodeId := own]) else x.peers,
         Marker(x.auth, h.ticks, i), h, x.server)
  }

  /** The bookkeeping every pass does before it considers leading or serving. */
  function Prepare(c: Config, x: Node, i: Input): Node {
    Announce(c, Observe(x, i), i)
  }

  /** Every fifth pass tells the peers this node's position, doubts and decision. */
  function Broadcast(x: Node, i: Input): Option<Gossip> {
    if x.chores.ticks % GOSSIP_EVERY == 0
    then Some(Gossip(i.localLsn, i.inRecovery, x.auth.reconfirmPending, DecidedSeq(x.auth)))
    else None
  }

  /** The peers heard of within the dead timeout, and this node itself. */
  function Live(c: Config, p: Peers, now: Time): set<NodeId> {
    set id | id in p.lsn && (id == c.nodeId || Since(now, p.lsn[id].at) < DEAD_TIMEOUT)
  }

  predicate IsLeast(ids: set<NodeId>, m: NodeId) {
    m in ids && forall x :: x in ids ==> m <= x
  }

  lemma {:induction false} LeastExists(ids: set<NodeId>) returns (m: NodeId)
    requires ids != {}
    ensures IsLeast(ids, m)
  {
    m :| m in ids;
    var rest := ids - {m};
    if rest != {} {
      var least := LeastExists(rest);
      if least < m {
        m := least;
      }
    }
    forall x | x in ids
      ensures m <= x
    {
      assert x in rest || ids - rest == {x};
    }
  }

  function Least(ids: set<NodeId>): (m: NodeId)
    requires ids != {}
    ensures IsLeast(ids, m)
  {
    assert exists m :: IsLeast(ids, m) by { var _ := LeastExists(ids); }
    var m :| IsLeast(ids, m);
    m
  }

  /** The map's entries in some fixed order; the choice made from them does not depend on it. */
  function Listed(ids: set<NodeId>): (r: seq<NodeId>)
    ensures forall x :: x in r <==> x in ids
    decreases |ids|
  {
    if ids == {} then [] else [Least(ids)] + Listed(ids - {Least(ids)})
  }

  /** A live node's LSN as freshly probed: a failed self-probe reads 0, a failed peer probe the gossip. */
  function FreshLsn(c: Config, p: Peers, i: Input, id: NodeId): nat
    requires id in p.lsn
  {
    if id == c.nodeId then (if id in i.probes then i.probes[id] else 0)
    else if id in c.pgMembers && id in i.probes then i.probes[id]
    else p.lsn[id].lsn
  }

  function FreshCandidates(c: Config, p: Peers, i: Input, ids: seq<NodeId>): (r: seq<Selection.Candidate>)
    requires forall id :: id in ids ==> id in p.lsn
    ensures |r| == |ids|
    ensures forall k :: 0 <= k < |ids| ==>
              r[k] == Selection.Candidate(ids[k], FreshLsn(c, p, i, ids[k]), p.lsn[ids[k]].inRecovery)
  {
    if ids == [] then []
    else [Selection.Candidate(ids[0], FreshLsn(c, p, i, ids[0]), p.lsn[ids[0]].inRecovery)]
         + FreshCandidates(c, p, i, ids[1..])
  }

  predicate Asks(p: Peers, id: NodeId) {
    id in p.reconfirm && p.reconfirm[id]
  }

  predicate PrimaryAlive(c: Config, x: Node, now: Time) {
    DecidedPrimary(x.auth) != 0 && DecidedPrimary(x.auth) in Live(c, x.peers, now)
  }

  /** Whom a leader would name: a first primary, a replacement, or the same one again. */
  function Nominee(c: Config, x: Node, i: Input): Option<NodeId> {
    var live := Live(c, x.peers, i.leaderAt);
    if x.auth.decided.None? then
      var serving := set id | id in live && !x.peers.lsn[id].inRecovery;
      if serving == {} then None else Some(Least(serving))
    else if !PrimaryAlive(c, x, i.leaderAt) then
      Selection.ChoosePrimary(FreshCandidates(c, x.peers, i, Listed(live)))
    else if x.auth.reconfirmPending || exists id :: id in live && Asks(x.peers, id) then
      Some(DecidedPrimary(x.auth))
    else None
  }

  function Elapsed(now: nat, before: nat): nat {
    if now >= before then now - before else 0
  }

  predicate InFlight(h: Chores, seqNo: nat) {
    h.lastProposed == seqNo && Elapsed(h.ticks, h.lastProposedTick) < 20
  }

  /** A leader with a live majority proposes, unless the same proposal is still in flight. */
  function Proposal(c: Config, x: Node, i: Input): Option<Decision> {
    if i.leader && |Live(c, x.peers, i.leaderAt)| >= c.Quorum() && Nominee(c, x, i).Some?
       && !InFlight(x.chores, DecidedSeq(x.auth) + 1)
    then Some(Decision(DecidedSeq(x.auth) + 1, Nominee(c, x, i).value))
    else None
  }

  function NoteProposal(h: Chores, proposal: Option<Decision>): Chores {
    if proposal.Some? then h.(lastProposed := proposal.value.seqNo, lastProposedTick := h.ticks) else h
  }

  function Reachable(c: Config, p: Peers, now: Time): set<NodeId> {
    set id | id in p.heard && id != c.nodeId && Since(now, p.heard[id]) < QUORUM_LEASE
  }

  predicate QuorumOk(c: Config, p: Peers, now: Time) {
    1 + |Reachable(c, p, now)| >= c.Quorum()
  }

  /** No peer has ever reported a decided sequence number. */
  predicate NoClusterHistory(p: Peers) {
    forall id :: id in p.seqNo ==> p.seqNo[id] == 0
  }

  predicate RawAuth(c: Config, p: Peers, a: Auth, now: Time) {
    match a.decided
    case None => QuorumOk(c, p, now) && NoClusterHistory(p) && !a.clusterMarker
    case Some(d) => d.primary == c.nodeId && QuorumOk(c, p, now) && !a.reconfirmPending
  }

  /** Bootstrap and an already writable primary are authorized at once; otherwise the window must pass. */
  function Authorize(a: Auth, rawAuth: bool, authAt: Time, checkAt: Time): (Auth, bool) {
    if !rawAuth then (a.(authorizedSince := None), false)
    else if a.decided.None? || a.appliedReadOnly == Some(false) then
      (a.(authorizedSince := Some(authAt)), true)
    else
      var since := if a.authorizedSince.Some? then a.authorizedSince.value else authAt;
      (a.(authorizedSince := Some(since)), Since(checkAt, since) >= CONFIRM_WINDOW)
  }

  /** The settings and what is remembered of them change together. */
  datatype Local = Local(a: Auth, v: Server)

  function FenceStep(l: Local, authorized: bool, ok: bool): (Local, seq<Effect>) {
    if !authorized && l.a.appliedReadOnly != Some(true) then
      (if ok then Local(l.a.(appliedReadOnly := Some(true)), l.v.(readOnly := true)) else l, [Fence(ok)])
    else (l, [])
  }

  /** None leaves synchronous_standby_names alone. */
  function WantSync(c: Config, a: Auth, authorized: bool): Option<SyncNames> {
    if !c.synchronous then Some(Off)
    else if authorized && a.decided.Some? then Some(c.SyncTarget())
    else None
  }

  function SyncStep(l: Local, want: Option<SyncNames>, ok: bool): (Local, seq<Effect>) {
    if want.Some? && l.a.appliedSync != want then
      (if ok then Local(l.a.(appliedSync := want), l.v.(sync := want.value)) else l, [SetSync(want.value, ok)])
    else (l, [])
  }

  function UnfenceStep(l: Local, authorized: bool, ok: bool): (Local, seq<Effect>) {
    if authorized && l.a.appliedReadOnly != Some(false) then
      (if ok then Local(l.a.(appliedReadOnly := Some(false)), l.v.(readOnly := false)) else l, [Unfence(ok)])
    else (l, [])
  }

  /** Fence first, then set sync, then unfence. */
  function Enforce(c: Config, l: Local, authorized: bool, i: Input): (Local, seq<Effect>) {
    var (l1, e1) := FenceStep(l, authorized, i.fenceOk);
    var (l2, e2) := SyncStep(l1, WantSync(c, l1.a, authorized), i.syncOk);
    var (l3, e3) := UnfenceStep(l2, authorized, i.unfenceOk);
    (l3, e1 + e2 + e3)
  }

  /** An unauthorized node outside recovery is rewound onto the decided primary, once per decision. */
  predicate Rejoins(c: Config, a: Auth, h: Chores, authorized: bool, i: Input) {
    var p := DecidedPrimary(a);
    && !authorized && p != 0 && p != c.nodeId && !h.rejoining && c.rejoinScript
    && p in c.pgMembers && (a.datadirKnown || i.rejoinDirFound)
  }

  function RejoinChores(c: Config, a: Auth, h: Chores, authorized: bool, i: Input): Chores {
    if Rejoins(c, a, h, authorized, i) then h.(rejoining := true) else h
  }

  /** The decided primary creates its peers' replication slots, once per decision. */
  predicate SlotsDue(c: Config, a: Auth, h: Chores) {
    DecidedPrimary(a) == c.nodeId && !h.slotsEnsured
  }

  function SlotChores(c: Config, a: Auth, h: Chores): Chores {
    if SlotsDue(c, a, h) then h.(slotsEnsured := true) else h
  }

  /** With authority decided, bring the settings in line with it and rejoin if need be. */
  function Settle(c: Config, x: Node, authorized: bool, i: Input): (Node, seq<Effect>) {
    var (l, effects) := Enforce(c, Local(x.auth, x.server), authorized, i);
    (Node(x.peers, l.a, RejoinChores(c, x.auth, x.chores, authorized, i), l.v),
     effects + if Rejoins(c, x.auth, x.chores, authorized, i) then [Rejoin(DecidedPrimary(x.auth))] else [])
  }

  /** A node out of recovery: see to the slots, decide authority and enforce it. */
  function Serve(c: Config, x: Node, i: Input): (Node, bool, seq<Effect>) {
    var (a, authorized) := Authorize(x.auth, RawAuth(c, x.peers, x.auth, i.contactAt), i.authAt, i.checkAt);
    var (y, effects) := Settle(c, x.(auth := a, chores := SlotChores(c, x.auth, x.chores)), authorized, i);
    (y, authorized, effects)
  }

  function ClearSyncStep(l: Local, ok: bool): (Local, seq<Effect>) {
    if l.a.appliedSync != Some(Off) then
      (if ok then Local(l.a.(appliedSync := Some(Off)), l.v.(sync := Off)) else l, [ClearSync(ok)])
    else (l, [])
  }

  /** A promotion that has not taken effect for a hundred passes is asked for again. */
  function RetryPromotion(h: Chores): Chores {
    if h.promoted && Elapsed(h.ticks, h.promoteTick) >= 100 then h.(promoted := false) else h
  }

  /** A standby named primary fences itself (the result is ignored) and asks to be promoted. */
  function PromoteStep(h: Chores, v: Server, i: Input): (Chores, Server, seq<Effect>) {
    var h := RetryPromotion(h);
    if h.promoted then (h, v, [])
    else
      (if i.promoteOk then h.(promoted := true, promoteTick := h.ticks) else h,
       if i.promoteFenceOk then v.(readOnly := true) else v,
       [PromoteFence(i.promoteFenceOk), Promote(i.promoteOk)])
  }

  function RepointStep(c: Config, p: NodeId, h: Chores, i: Input): (Chores, seq<Effect>) {
    if p != 0 && h.appliedPrimary != p && p in c.pgMembers then
      (if i.repointOk then h.(appliedPrimary := p) else h, [Repoint(p, i.repointOk)])
    else (h, [])
  }

  /** The primary-to-be asks for its promotion; any other standby follows the decided primary. */
  function Reposition(c: Config, x: Node, i: Input): (Node, seq<Effect>) {
    if DecidedPrimary(x.auth) == c.nodeId then
      var (h, v, effects) := PromoteStep(x.chores, x.server, i);
      (Node(x.peers, x.auth, h, v), effects)
    else
      var (h, effects) := RepointStep(c, DecidedPrimary(x.auth), x.chores, i);
      (Node(x.peers, x.auth, h, x.server), effects)
  }

  /** A node in recovery forgets its authority and its read-only cache, and clears sync. */
  function Recover(c: Config, x: Node, i: Input): (Node, seq<Effect>) {
    var (l, e1) := ClearSyncStep(Local(x.auth.(appliedReadOnly := None, authorizedSince := None), x.server),
                                 i.clearSyncOk);
    var (y, e2) := Reposition(c, Node(x.peers, l.a, x.chores, l.v), i);
    (y, e1 + e2)
  }

  /** One pass of the loop. */
  function Tick(c: Config, x: Node, i: Input): (Node, Output) {
    var x1 := Prepare(c, x, i);
    var proposal := Proposal(c, x1, i);
    var x2 := x1.(chores := NoteProposal(x1.chores, proposal));
    if i.inRecovery then
      var (x3, effects) := Recover(c, x2, i);
      (x3, Output(Broadcast(x1, i), proposal, false, false, false, effects))
    else
      var (x3, authorized, effects) := Serve(c, x2, i);
      (x3, Output(Broadcast(x1, i), proposal, RawAuth(c, x1.peers, x1.auth, i.contactAt), authorized,
                  SlotsDue(c, x2.auth, x2.chores), effects))
  }
}
