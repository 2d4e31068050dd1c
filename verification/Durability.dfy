/**
 The quorum-acknowledged write model with crash-stop failover: exactly when an acknowledged LSN can
 be lost, for every cluster size, quorum, LSN bound, term bound and run length.
 */
module Durability {
  import opened Quorum

  /** AnyMajority elects the best of some majority of alive nodes; AllAlive the best of all of them. */
  datatype Rule = AnyMajority | AllAlive

  datatype Config = Config(n: nat, ackQuorum: nat, maxLsn: nat, maxTerm: nat, rule: Rule) {
    ghost predicate Valid() { n >= 1 }
    /** The primary always confirms its own write, so a quorum of zero acts like one. */
    function Confirmers(): nat { if ackQuorum == 0 then 1 else ackQuorum }
    /** Every acknowledgement quorum meets every failover majority. */
    predicate Overlapping() { Confirmers() + Majority(n) > n }
  }

  datatype State = State(lsn: seq<nat>, alive: seq<bool>, primary: Option<nat>, acked: nat, term: nat)

  datatype Action = Write | Replicate(standby: nat) | Ack | Crash(node: nat) | Failover(winner: nat)

  ghost predicate Shaped(c: Config, s: State) {
    |s.lsn| == |s.alive| == c.n && (s.primary.Some? ==> s.primary.value < c.n)
  }

  function Init(c: Config): State {
    State(seq(c.n, i => 0), seq(c.n, i => true), Some(0), 0, 0)
  }

  ghost function Alive(n: nat, alive: seq<bool>): set<nat>
    requires |alive| == n
  {
    set i | 0 <= i < n && alive[i]
  }

  /** a is preferred to b (or is b): a higher LSN, or the same LSN and a lower id. */
  predicate Ranks(lsn: seq<nat>, a: nat, b: nat)
    requires a < |lsn| && b < |lsn|
  {
    lsn[a] > lsn[b] || (lsn[a] == lsn[b] && a <= b)
  }

  ghost predicate BestOf(lsn: seq<nat>, members: set<nat>, w: nat)
    requires members <= Nodes(|lsn|)
  {
    w in members && forall x :: x in members ==> Ranks(lsn, w, x)
  }

  /** The electorate a failover may consult. */
  ghost predicate Electorate(c: Config, alive: seq<bool>, members: set<nat>)
    requires |alive| == c.n
  {
    && members <= Alive(c.n, alive)
    && (match c.rule
        case AnyMajority => |members| == Majority(c.n)
        case AllAlive => members == Alive(c.n, alive) && |members| >= Majority(c.n))
  }

  ghost predicate CanWin(c: Config, lsn: seq<nat>, alive: seq<bool>, w: nat)
    requires |lsn| == |alive| == c.n
  {
    exists members :: Electorate(c, alive, members) && BestOf(lsn, members, w)
  }

  ghost function Holding(n: nat, lsn: seq<nat>, level: nat): set<nat>
    requires |lsn| == n
  {
    set i | 0 <= i < n && lsn[i] >= level
  }

  ghost predicate Enabled(c: Config, s: State, a: Action)
    requires Shaped(c, s)
  {
    match a
    case Write => s.primary.Some? && s.alive[s.primary.value] && s.lsn[s.primary.value] < c.maxLsn
    case Replicate(i) =>
      && s.primary.Some? && s.alive[s.primary.value]
      && i < c.n && i != s.primary.value && s.alive[i] && s.lsn[i] < s.lsn[s.primary.value]
    case Ack =>
      && s.primary.Some? && s.alive[s.primary.value]
      && 0 < s.lsn[s.primary.value] && s.acked < s.lsn[s.primary.value]
      && |Alive(c.n, s.alive) * Holding(c.n, s.lsn, s.lsn[s.primary.value])| >= c.ackQuorum
    case Crash(i) => i < c.n && s.alive[i]
    case Failover(w) =>
      && (s.primary.Some? ==> !s.alive[s.primary.value])
      && s.term < c.maxTerm
      && w < c.n && CanWin(c, s.lsn, s.alive, w)
  }

  ghost function Next(c: Config, s: State, a: Action): State
    requires Shaped(c, s) && Enabled(c, s, a)
  {
    match a
    case Write => var p := s.primary.value; s.(lsn := s.lsn[p := s.lsn[p] + 1])
    case Replicate(i) => s.(lsn := s.lsn[i := s.lsn[i] + 1])
    case Ack => s.(acked := s.lsn[s.primary.value])
    case Crash(i) => s.(alive := s.alive[i := false])
    case Failover(w) => s.(primary := Some(w), term := s.term + 1)
  }

  ghost predicate Step(c: Config, s: State, a: Action, s': State) {
    Shaped(c, s) && Enabled(c, s, a) && s' == Next(c, s, a)
  }

  /** A finite run: states[k] steps to states[k+1] by acts[k], starting from the initial state. */
  ghost predicate Run(c: Config, states: seq<State>, acts: seq<Action>) {
    && |states| == |acts| + 1
    && states[0] == Init(c)
    && forall k {:trigger acts[k]} :: 0 <= k < |acts| ==> Step(c, states[k], acts[k], states[k + 1])
  }

  ghost predicate Reachable(c: Config, s: State) {
    exists states: seq<State>, acts: seq<Action> {:trigger Run(c, states, acts)} ::
      Run(c, states, acts) && states[|acts|] == s
  }

  lemma Extend(c: Config, r: State, a: Action, s: State)
    requires Reachable(c, r) && Step(c, r, a, s)
    ensures Reachable(c, s)
  {
    var states, acts :| Run(c, states, acts) && states[|acts|] == r;
    assert Run(c, states + [s], acts + [a]);
  }

  /** The acknowledged position is no longer on the node that serves clients. */
  ghost predicate Lost(c: Config, s: State) {
    Shaped(c, s) && s.primary.Some? && s.lsn[s.primary.value] < s.acked
  }

  // ------------------------------------------------------------------- safety

  ghost predicate AckHeld(c: Config, s: State) {
    && Shaped(c, s) && !Lost(c, s) && s.primary.Some?
    && (s.acked > 0 ==> |Holding(c.n, s.lsn, s.acked)| >= c.Confirmers())
  }

  /** Any electorate contains a node holding the acknowledged position, so its best member holds it. */
  lemma WinnerHolds(c: Config, s: State, w: nat)
    requires c.Valid() && c.Overlapping() && AckHeld(c, s)
    requires w < c.n && CanWin(c, s.lsn, s.alive, w)
    ensures s.lsn[w] >= s.acked
  {
    var members :| Electorate(c, s.alive, members) && BestOf(s.lsn, members, w);
    if s.acked > 0 {
      var x := Intersect(c.n, members, Holding(c.n, s.lsn, s.acked));
      assert Ranks(s.lsn, w, x);
    }
  }

  lemma AckHeldStep(c: Config, s: State, a: Action, s': State)
    requires c.Valid() && c.Overlapping() && AckHeld(c, s) && Step(c, s, a, s')
    ensures AckHeld(c, s')
  {
    SubsetSize(Holding(c.n, s.lsn, s.acked), Holding(c.n, s'.lsn, s.acked));
    match a
    case Write =>
    case Replicate(_) =>
    case Ack =>
      var p := s.primary.value;
      var confirmed := Alive(c.n, s.alive) * Holding(c.n, s.lsn, s.lsn[p]);
      SubsetSize(confirmed, Holding(c.n, s.lsn, s.lsn[p]));
      SubsetSize({p}, Holding(c.n, s.lsn, s.lsn[p]));
    case Crash(_) =>
    case Failover(w) => WinnerHolds(c, s, w);
  }

  lemma {:induction false} AckHeldAlways(c: Config, states: seq<State>, acts: seq<Action>, k: nat)
    requires c.Valid() && c.Overlapping() && Run(c, states, acts) && k <= |acts|
    ensures AckHeld(c, states[k])
  {
    if k > 0 {
      AckHeldAlways(c, states, acts, k - 1);
      AckHeldStep(c, states[k - 1], acts[k - 1], states[k]);
    }
  }

  /** Nothing is ever written with maxLsn 0, and the first primary keeps its own writes. */
  ghost predicate Trivial(c: Config, s: State) {
    && Shaped(c, s) && s.primary.Some? && s.acked <= s.lsn[s.primary.value]
    && (c.maxTerm == 0 ==> s.term == 0)
    && (c.maxLsn == 0 ==> s.acked == 0 && forall i :: 0 <= i < c.n ==> s.lsn[i] == 0)
  }

  lemma TrivialStep(c: Config, s: State, a: Action, s': State)
    requires c.Valid() && (c.maxLsn == 0 || c.maxTerm == 0) && Trivial(c, s) && Step(c, s, a, s')
    ensures Trivial(c, s')
  {
    match a
    case Write =>
    case Replicate(_) =>
    case Ack =>
    case Crash(_) =>
    case Failover(_) =>
  }

  lemma {:induction false} TrivialAlways(c: Config, states: seq<State>, acts: seq<Action>, k: nat)
    requires c.Valid() && (c.maxLsn == 0 || c.maxTerm == 0) && Run(c, states, acts) && k <= |acts|
    ensures Trivial(c, states[k])
  {
    if k > 0 {
      TrivialAlways(c, states, acts, k - 1);
      TrivialStep(c, states[k - 1], acts[k - 1], states[k]);
    }
  }

  // --------------------------------------------------------------- losing runs

  /** The first `copies` nodes hold LSN 1, the first `dead` nodes have crashed. */
  ghost function Scenario(c: Config, copies: nat, acked: nat, dead: nat): State {
    State(seq(c.n, i => if i < copies then 1 else 0), seq(c.n, i => i >= dead), Some(0), acked, 0)
  }

  lemma {:induction false} Replicated(c: Config, copies: nat)
    requires c.Valid() && c.maxLsn >= 1 && 1 <= copies <= c.n
    ensures Reachable(c, Scenario(c, copies, 0, 0))
  {
    var s := Scenario(c, copies, 0, 0);
    if copies == 1 {
      assert Run(c, [Init(c)], []);
      assert s.lsn == Init(c).lsn[0 := 1] && s.alive == Init(c).alive;
      Extend(c, Init(c), Write, s);
    } else {
      Replicated(c, copies - 1);
      var r := Scenario(c, copies - 1, 0, 0);
      assert s.lsn == r.lsn[copies - 1 := 1];
      Extend(c, r, Replicate(copies - 1), s);
    }
  }

  lemma Acknowledged(c: Config, copies: nat)
    requires c.Valid() && c.maxLsn >= 1 && c.Confirmers() <= copies <= c.n
    ensures Reachable(c, Scenario(c, copies, 1, 0))
  {
    Replicated(c, copies);
    var r, s := Scenario(c, copies, 0, 0), Scenario(c, copies, 1, 0);
    SubsetSize(Nodes(copies), Alive(c.n, r.alive) * Holding(c.n, r.lsn, 1));
    assert Step(c, r, Ack, s);
    Extend(c, r, Ack, s);
  }

  lemma {:induction false} CrashedPrefix(c: Config, copies: nat, dead: nat)
    requires c.Valid() && c.maxLsn >= 1 && c.Confirmers() <= copies <= c.n && dead <= c.n
    ensures Reachable(c, Scenario(c, copies, 1, dead))
  {
    var s := Scenario(c, copies, 1, dead);
    if dead == 0 {
      Acknowledged(c, copies);
    } else {
      CrashedPrefix(c, copies, dead - 1);
      var r := Scenario(c, copies, 1, dead - 1);
      assert s.alive == r.alive[dead - 1 := false];
      Extend(c, r, Crash(dead - 1), s);
    }
  }

  /** When the first q nodes are dead and the rest tie at LSN 0, node q can win under either rule. */
  lemma LowestSurvivorWins(c: Config, s: State, q: nat)
    requires c.Valid() && Shaped(c, s) && q + Majority(c.n) <= c.n
    requires forall i :: 0 <= i < c.n ==> s.alive[i] == (i >= q)
    requires forall i :: q <= i < c.n ==> s.lsn[i] == 0
    ensures CanWin(c, s.lsn, s.alive, q)
  {
    assert Alive(c.n, s.alive) == Range(q, c.n);
    var members := match c.rule
      case AllAlive => Range(q, c.n)
      case AnyMajority => Range(q, q + Majority(c.n));
    assert Electorate(c, s.alive, members);
    assert BestOf(s.lsn, members, q);
  }

  // --------------------------------------------------------------- reachable profiles

  /** Node 0 at its target, the nodes below k at theirs, node k at v, the others at nothing. */
  ghost function Profile(c: Config, lsn: seq<nat>, k: nat, v: nat): State
    requires |lsn| == c.n && c.n >= 1
  {
    State(seq(c.n, i requires 0 <= i < c.n => if i == 0 || i < k then lsn[i] else if i == k then v else 0),
          seq(c.n, i => true), Some(0), 0, 0)
  }

  lemma {:induction false} WritesReach(c: Config, lsn: seq<nat>, v: nat)
    requires c.Valid() && |lsn| == c.n && v <= c.maxLsn
    ensures Reachable(c, Profile(c, lsn[0 := v], 1, 0))
  {
    var s := Profile(c, lsn[0 := v], 1, 0);
    if v == 0 {
      assert Run(c, [Init(c)], []);
      assert s == Init(c);
    } else {
      WritesReach(c, lsn, v - 1);
      var r := Profile(c, lsn[0 := v - 1], 1, 0);
      assert s.lsn == r.lsn[0 := v];
      Extend(c, r, Write, s);
    }
  }

  lemma {:induction false} ProfileReached(c: Config, lsn: seq<nat>, k: nat, v: nat)
    requires c.Valid() && |lsn| == c.n && 1 <= k <= c.n && v <= (if k < c.n then lsn[k] else 0)
    requires lsn[0] <= c.maxLsn && forall i :: 0 <= i < c.n ==> lsn[i] <= lsn[0]
    ensures Reachable(c, Profile(c, lsn, k, v))
    decreases k, v
  {
    var s := Profile(c, lsn, k, v);
    if v > 0 {
      ProfileReached(c, lsn, k, v - 1);
      var r := Profile(c, lsn, k, v - 1);
      assert s.lsn == r.lsn[k := v];
      Extend(c, r, Replicate(k), s);
    } else if k > 1 {
      ProfileReached(c, lsn, k - 1, lsn[k - 1]);
      assert s.lsn == Profile(c, lsn, k - 1, lsn[k - 1]).lsn;
    } else {
      WritesReach(c, lsn, lsn[0]);
      assert s.lsn == Profile(c, lsn[0 := lsn[0]], 1, 0).lsn;
    }
  }

  /**
   Standbys catch up one position at a time: every way of lagging behind the primary is reachable, and the
   primary's position can be acknowledged as soon as enough nodes hold it.
   */
  lemma EveryLagIsReachable(c: Config, lsn: seq<nat>)
    requires c.Valid() && |lsn| == c.n
    requires lsn[0] <= c.maxLsn && forall i :: 0 <= i < c.n ==> lsn[i] <= lsn[0]
    ensures var s := State(lsn, seq(c.n, i => true), Some(0), 0, 0);
            && Reachable(c, s)
            && (lsn[0] > 0 && |Holding(c.n, lsn, lsn[0])| >= c.ackQuorum ==> Reachable(c, s.(acked := lsn[0])))
  {
    ProfileReached(c, lsn, c.n, 0);
    var s := State(lsn, seq(c.n, i => true), Some(0), 0, 0);
    assert s.lsn == Profile(c, lsn, c.n, 0).lsn;
    if lsn[0] > 0 && |Holding(c.n, lsn, lsn[0])| >= c.ackQuorum {
      assert Alive(c.n, s.alive) * Holding(c.n, lsn, lsn[0]) == Holding(c.n, lsn, lsn[0]);
      Extend(c, s, Ack, s.(acked := lsn[0]));
    }
  }

  /** Acknowledge on the first nodes only, crash exactly those, and promote the lowest survivor. */
  lemma LosingRun(c: Config) returns (s: State)
    requires c.Valid() && c.maxLsn >= 1 && c.maxTerm >= 1 && !c.Overlapping()
    ensures Reachable(c, s) && Lost(c, s)
  {
    var q := c.Confirmers();
    CrashedPrefix(c, q, q);
    var r := Scenario(c, q, 1, q);
    LowestSurvivorWins(c, r, q);
    s := r.(primary := Some(q), term := 1);
    Extend(c, r, Failover(q), s);
  }

  // -------------------------------------------------------------- main results

  /**
   An acknowledged write can be lost exactly when acknowledgement quorums and failover majorities can
   miss each other (and a write and a failover are allowed at all).
   */
  lemma LossExactly(c: Config)
    requires c.Valid()
    ensures (exists s :: Reachable(c, s) && Lost(c, s))
            <==> c.maxLsn >= 1 && c.maxTerm >= 1 && !c.Overlapping()
  {
    if c.maxLsn >= 1 && c.maxTerm >= 1 && !c.Overlapping() {
      var s := LosingRun(c);
    } else {
      forall s | Reachable(c, s)
        ensures !Lost(c, s)
      {
        var states, acts :| Run(c, states, acts) && states[|acts|] == s;
        if c.Overlapping() {
          AckHeldAlways(c, states, acts, |acts|);
        } else {
          TrivialAlways(c, states, acts, |acts|);
        }
      }
    }
  }

  /**
   The negative control, for every size: one confirmation short of a majority loses an acknowledged
   write for exactly the odd clusters of three or more.
   */
  lemma MajorityMinusOneLoses(c: Config)
    requires c.Valid() && c.maxLsn >= 1 && c.maxTerm >= 1 && c.ackQuorum == Majority(c.n) - 1
    ensures (exists s :: Reachable(c, s) && Lost(c, s)) <==> c.n % 2 == 1 && c.n >= 3
  {
    LossExactly(c);
  }

  /** The deployed setting: the primary plus majority-1 synchronous standbys. It never loses. */
  lemma PrimaryPlusSyncQuorumIsSafe(c: Config, s: State)
    requires c.Valid() && c.ackQuorum == 1 + (Majority(c.n) - 1) && Reachable(c, s)
    ensures !Lost(c, s)
  {
    LossExactly(c);
  }
}
