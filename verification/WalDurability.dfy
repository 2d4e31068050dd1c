/**
 The same write/failover model with the WAL contents behind the LSNs. A log entry is the term of the
 primary that wrote it, so two primaries never write equal entries. LSN counting alone admits runs in
 which an acknowledged entry disappears although an entry with its LSN survives; this module says
 exactly when.
 */
module WalDurability {
  import opened Quorum
  import D = Durability

  type Log = seq<nat>

  datatype State = State(logs: seq<Log>, alive: seq<bool>, primary: Option<nat>, acked: Log, term: nat)

  /** Forget contents, keep positions. */
  function Erase(s: State): D.State {
    D.State(seq(|s.logs|, i requires 0 <= i < |s.logs| => |s.logs[i]|), s.alive, s.primary, |s.acked|, s.term)
  }

  function Init(c: D.Config): State {
    State(seq(c.n, i => []), seq(c.n, i => true), Some(0), [], 0)
  }

  ghost predicate Shaped(c: D.Config, s: State) {
    |s.logs| == |s.alive| == c.n && (s.primary.Some? ==> s.primary.value < c.n)
  }

  /** Which steps are possible depends on positions only, exactly as in the numeric model. */
  ghost predicate Enabled(c: D.Config, s: State, a: D.Action)
    requires Shaped(c, s)
  {
    D.Enabled(c, Erase(s), a)
  }

  ghost function Next(c: D.Config, s: State, a: D.Action): State
    requires Shaped(c, s) && Enabled(c, s, a)
  {
    match a
    case Write => var p := s.primary.value; s.(logs := s.logs[p := s.logs[p] + [s.term]])
    case Replicate(i) => var p := s.primary.value; s.(logs := s.logs[i := s.logs[i] + [s.logs[p][|s.logs[i]|]]])
    case Ack => s.(acked := s.logs[s.primary.value])
    case Crash(i) => s.(alive := s.alive[i := false])
    case Failover(w) => s.(primary := Some(w), term := s.term + 1)
  }

  ghost predicate Step(c: D.Config, s: State, a: D.Action, s': State) {
    Shaped(c, s) && Enabled(c, s, a) && s' == Next(c, s, a)
  }

  /** A finite run: states[k] steps to states[k+1] by acts[k], starting from the initial state. */
  ghost predicate Run(c: D.Config, states: seq<State>, acts: seq<D.Action>) {
    && |states| == |acts| + 1
    && states[0] == Init(c)
    && forall k {:trigger acts[k]} :: 0 <= k < |acts| ==> Step(c, states[k], acts[k], states[k + 1])
  }

  ghost predicate Reachable(c: D.Config, s: State) {
    exists states: seq<State>, acts: seq<D.Action> {:trigger Run(c, states, acts)} ::
      Run(c, states, acts) && states[|acts|] == s
  }

  lemma Extend(c: D.Config, r: State, a: D.Action, s: State)
    requires Reachable(c, r) && Step(c, r, a, s)
    ensures Reachable(c, s)
  {
    var states, acts :| Run(c, states, acts) && states[|acts|] == r;
    assert Run(c, states + [s], acts + [a]);
  }

  /** The acknowledged entries are not the beginning of the log that serves clients. */
  ghost predicate Lost(c: D.Config, s: State) {
    Shaped(c, s) && s.primary.Some? && !(s.acked <= s.logs[s.primary.value])
  }

  // ------------------------------------------------- contents refine positions

  /** Erasing contents turns every step into the numeric model's step by the same action. */
  lemma EraseStep(c: D.Config, s: State, a: D.Action)
    requires Shaped(c, s) && Enabled(c, s, a)
    ensures Erase(Next(c, s, a)) == D.Next(c, Erase(s), a)
  {
    assert Erase(Next(c, s, a)).lsn == D.Next(c, Erase(s), a).lsn;
  }

  lemma EraseInit(c: D.Config)
    ensures Erase(Init(c)) == D.Init(c)
  {
    assert Erase(Init(c)).lsn == D.Init(c).lsn;
  }

  lemma EraseOneStep(c: D.Config, s: State, a: D.Action, s': State)
    requires Step(c, s, a, s')
    ensures Shaped(c, s') && D.Step(c, Erase(s), a, Erase(s'))
  {
    EraseStep(c, s, a);
  }

  function EraseAll(states: seq<State>): seq<D.State> {
    seq(|states|, i requires 0 <= i < |states| => Erase(states[i]))
  }

  lemma LiftStep(c: D.Config, s: State, a: D.Action, t: D.State) returns (s': State)
    requires D.Step(c, Erase(s), a, t)
    ensures Step(c, s, a, s') && Erase(s') == t
  {
    EraseStep(c, s, a);
    s' := Next(c, s, a);
  }

  lemma RunExtends(c: D.Config, front: seq<State>, acts: seq<D.Action>, next: State)
    requires acts != [] && Run(c, front, acts[..|acts| - 1])
    requires Step(c, front[|acts| - 1], acts[|acts| - 1], next)
    ensures Run(c, front + [next], acts)
  {
    hide Step;
    assert acts[..|acts| - 1] + [acts[|acts| - 1]] == acts;
  }

  lemma NumericFront(c: D.Config, numeric: seq<D.State>, acts: seq<D.Action>)
    requires acts != [] && D.Run(c, numeric, acts)
    ensures D.Run(c, numeric[..|acts|], acts[..|acts| - 1])
    ensures |numeric| == |acts| + 1 && D.Step(c, numeric[|acts| - 1], acts[|acts| - 1], numeric[|acts|])
  {
    hide D.Step;
    assert acts[|acts| - 1] in acts;
  }

  /** Every numeric run is the erasure of a run with contents. */
  lemma {:induction false} Lift(c: D.Config, numeric: seq<D.State>, acts: seq<D.Action>) returns (states: seq<State>)
    requires c.Valid() && D.Run(c, numeric, acts)
    ensures Run(c, states, acts) && EraseAll(states) == numeric
    decreases |acts|
  {
    if acts == [] {
      states := [Init(c)];
      EraseInit(c);
    } else {
      hide D.Step, Step, Erase, Run, D.Run;
      var m := |acts| - 1;
      NumericFront(c, numeric, acts);
      var front := Lift(c, numeric[..m + 1], acts[..m]);
      assert Erase(front[m]) == EraseAll(front)[m] == numeric[m];
      var next := LiftStep(c, front[m], acts[m], numeric[m + 1]);
      RunExtends(c, front, acts, next);
      states := front + [next];
      assert EraseAll(states) == numeric[..m + 1] + [numeric[m + 1]];
    }
  }

  /** Every run with contents erases to a numeric run. */
  lemma EraseRun(c: D.Config, states: seq<State>, acts: seq<D.Action>)
    requires Run(c, states, acts)
    ensures D.Run(c, EraseAll(states), acts)
  {
    EraseInit(c);
    forall k | 0 <= k < |acts|
      ensures D.Step(c, EraseAll(states)[k], acts[k], EraseAll(states)[k + 1])
    {
      EraseOneStep(c, states[k], acts[k], states[k + 1]);
    }
  }

  // ------------------------------------------------------------------- safety

  /** Alive logs are beginnings of the log of the current (or just crashed) primary. */
  ghost predicate Chain(c: D.Config, s: State)
    requires Shaped(c, s) && s.primary.Some?
  {
    forall i :: 0 <= i < c.n && s.alive[i] ==> s.logs[i] <= s.logs[s.primary.value]
  }

  ghost function Holders(c: D.Config, s: State, l: Log): set<nat>
    requires Shaped(c, s)
  {
    set i | 0 <= i < c.n && l <= s.logs[i]
  }

  ghost predicate AckHeld(c: D.Config, s: State)
    requires Shaped(c, s)
  {
    s.acked != [] ==> |Holders(c, s, s.acked)| >= c.Confirmers()
  }

  ghost predicate Sound(c: D.Config, s: State) {
    Shaped(c, s) && s.primary.Some? && s.acked <= s.logs[s.primary.value]
  }

  /** Logs only ever grow at the end, so holders stay holders. */
  lemma HoldersStay(c: D.Config, s: State, a: D.Action, s': State, l: Log)
    requires Step(c, s, a, s')
    ensures Shaped(c, s') && |Holders(c, s, l)| <= |Holders(c, s', l)|
    ensures forall i :: 0 <= i < c.n ==> s.logs[i] <= s'.logs[i]
  {
    SubsetSize(Holders(c, s, l), Holders(c, s', l));
  }

  lemma ChainStep(c: D.Config, s: State, a: D.Action, s': State)
    requires Sound(c, s) && Chain(c, s) && AckHeld(c, s)
    requires Step(c, s, a, s') && !a.Failover?
    ensures Sound(c, s') && Chain(c, s') && AckHeld(c, s')
  {
    HoldersStay(c, s, a, s', s.acked);
    var p := s.primary.value;
    match a
    case Write =>
    case Replicate(i) =>
      assert s.logs[i] + [s.logs[p][|s.logs[i]|]] <= s.logs[p];
    case Ack =>
      var confirmed := D.Alive(c.n, s.alive) * D.Holding(c.n, Erase(s).lsn, |s.logs[p]|);
      SubsetSize(confirmed, Holders(c, s', s'.acked));
      SubsetSize({p}, Holders(c, s', s'.acked));
    case Crash(_) =>
  }

  /** While alive logs form a chain, any electorate's best member holds the acknowledged entries. */
  lemma WinnerHolds(c: D.Config, s: State, w: nat, members: set<nat>)
    requires c.Valid() && c.Overlapping() && Sound(c, s) && Chain(c, s) && AckHeld(c, s)
    requires w < c.n && D.Electorate(c, s.alive, members) && D.BestOf(Erase(s).lsn, members, w)
    ensures s.acked <= s.logs[w]
  {
    if s.acked != [] {
      var x := Intersect(c.n, members, Holders(c, s, s.acked));
      assert D.Ranks(Erase(s).lsn, w, x);
      assert s.logs[x] <= s.logs[s.primary.value] && s.logs[w] <= s.logs[s.primary.value];
    }
  }

  /** After a crash of the primary, n <= 4 leaves no choice of electorate: it is all survivors. */
  lemma ElectorateIsEveryone(c: D.Config, s: State, members: set<nat>)
    requires c.Valid() && Shaped(c, s) && s.primary.Some? && !s.alive[s.primary.value]
    requires c.rule.AllAlive? || c.n <= 4
    requires D.Electorate(c, s.alive, members)
    ensures members == D.Alive(c.n, s.alive)
  {
    var alive := D.Alive(c.n, s.alive);
    SubsetSize(alive, Nodes(c.n) - {s.primary.value});
    if c.rule.AnyMajority? {
      FullSubset(members, alive);
    }
  }

  /** A winner over all survivors has the longest log of the chain, so the chain continues under it. */
  lemma FailoverKeepsChain(c: D.Config, s: State, w: nat, s': State)
    requires c.Valid() && c.Overlapping() && (c.rule.AllAlive? || c.n <= 4)
    requires Sound(c, s) && Chain(c, s) && AckHeld(c, s) && Step(c, s, D.Failover(w), s')
    ensures Sound(c, s') && Chain(c, s') && AckHeld(c, s')
  {
    var members :| D.Electorate(c, s.alive, members) && D.BestOf(Erase(s).lsn, members, w);
    WinnerHolds(c, s, w, members);
    ElectorateIsEveryone(c, s, members);
    forall i | 0 <= i < c.n && s.alive[i]
      ensures s.logs[i] <= s.logs[w]
    {
      assert D.Ranks(Erase(s).lsn, w, i);
      assert s.logs[i] <= s.logs[s.primary.value] && s.logs[w] <= s.logs[s.primary.value];
    }
    HoldersStay(c, s, D.Failover(w), s', s.acked);
  }

  ghost predicate ChainInv(c: D.Config, s: State) {
    Sound(c, s) && Chain(c, s) && AckHeld(c, s)
  }

  lemma {:induction false} ChainAlways(c: D.Config, states: seq<State>, acts: seq<D.Action>, k: nat)
    requires c.Valid() && c.Overlapping() && (c.rule.AllAlive? || c.n <= 4) && Run(c, states, acts) && k <= |acts|
    ensures ChainInv(c, states[k])
  {
    if k > 0 {
      var r, a, s := states[k - 1], acts[k - 1], states[k];
      ChainAlways(c, states, acts, k - 1);
      if a.Failover? {
        FailoverKeepsChain(c, r, a.winner, s);
      } else {
        ChainStep(c, r, a, s);
      }
    }
  }

  /** Up to the first failover the chain holds; after the only one, nobody replaces the primary. */
  ghost predicate OnceInv(c: D.Config, s: State) {
    Sound(c, s) && s.term <= c.maxTerm && (s.term == 0 ==> ChainInv(c, s))
  }

  lemma OnceStep(c: D.Config, s: State, a: D.Action, s': State)
    requires c.Valid() && (c.maxTerm == 0 || (c.maxTerm == 1 && c.Overlapping()))
    requires OnceInv(c, s) && Step(c, s, a, s')
    ensures OnceInv(c, s')
  {
    if a.Failover? {
      var members :| D.Electorate(c, s.alive, members) && D.BestOf(Erase(s).lsn, members, a.winner);
      WinnerHolds(c, s, a.winner, members);
    } else if s.term == 0 {
      ChainStep(c, s, a, s');
    } else {
      HoldersStay(c, s, a, s', s.acked);
    }
  }

  lemma {:induction false} OnceAlways(c: D.Config, states: seq<State>, acts: seq<D.Action>, k: nat)
    requires c.Valid() && (c.maxTerm == 0 || (c.maxTerm == 1 && c.Overlapping())) && Run(c, states, acts) && k <= |acts|
    ensures OnceInv(c, states[k])
  {
    if k > 0 {
      var r, a, s := states[k - 1], acts[k - 1], states[k];
      OnceAlways(c, states, acts, k - 1);
      OnceStep(c, r, a, s);
    }
  }

  /** With every node required to confirm, acknowledged entries are on every node, dead or alive. */
  ghost predicate EverywhereInv(c: D.Config, s: State) {
    && Sound(c, s)
    && (forall i :: 0 <= i < c.n ==> s.acked <= s.logs[i])
    && ((forall i :: 0 <= i < c.n ==> s.alive[i]) ==> Chain(c, s))
  }

  lemma EverywhereStep(c: D.Config, s: State, a: D.Action, s': State)
    requires c.Valid() && c.ackQuorum >= c.n && EverywhereInv(c, s) && Step(c, s, a, s')
    ensures EverywhereInv(c, s')
  {
    HoldersStay(c, s, a, s', s.acked);
    var p := s.primary.value;
    match a
    case Write =>
    case Replicate(i) =>
      if s.logs[i] <= s.logs[p] {
        assert s.logs[i] + [s.logs[p][|s.logs[i]|]] <= s.logs[p];
      }
    case Ack =>
      var confirmed := D.Alive(c.n, s.alive) * D.Holding(c.n, Erase(s).lsn, |s.logs[p]|);
      FullSubset(confirmed, Nodes(c.n));
      forall i: nat | i < c.n
        ensures s.alive[i] && |s.logs[i]| >= |s.logs[p]|
      {
        assert i in confirmed;
      }
      assert Chain(c, s);
    case Crash(i) =>
      assert !s'.alive[i];
    case Failover(_) =>
      assert !s.alive[p];
  }

  lemma {:induction false} EverywhereAlways(c: D.Config, states: seq<State>, acts: seq<D.Action>, k: nat)
    requires c.Valid() && c.ackQuorum >= c.n && Run(c, states, acts) && k <= |acts|
    ensures EverywhereInv(c, states[k])
  {
    if k > 0 {
      var r, a, s := states[k - 1], acts[k - 1], states[k];
      EverywhereAlways(c, states, acts, k - 1);
      EverywhereStep(c, r, a, s);
    }
  }

  // -------------------------------------------------------------- the fork run

  /** Two nodes hold the first primary's entry, nodes 2..copies-1 the second primary's. */
  ghost function Fork(c: D.Config, copies: nat): State {
    State(seq(c.n, i => if i <= 1 then [0] else if i < copies then [1] else []),
          seq(c.n, i => i >= 1), Some(2), [], 1)
  }

  lemma DoWrite(c: D.Config, s: State, p: nat) returns (s': State)
    requires Reachable(c, s) && Shaped(c, s) && s.primary == Some(p)
    requires s.alive[p] && |s.logs[p]| < c.maxLsn
    ensures Reachable(c, s') && s' == s.(logs := s.logs[p := s.logs[p] + [s.term]])
  {
    s' := Next(c, s, D.Write);
    Extend(c, s, D.Write, s');
  }

  lemma DoReplicate(c: D.Config, s: State, p: nat, i: nat) returns (s': State)
    requires Reachable(c, s) && Shaped(c, s) && s.primary == Some(p) && i < c.n && i != p
    requires s.alive[p] && s.alive[i] && |s.logs[i]| < |s.logs[p]|
    ensures Reachable(c, s') && s' == s.(logs := s.logs[i := s.logs[i] + [s.logs[p][|s.logs[i]|]]])
  {
    s' := Next(c, s, D.Replicate(i));
    Extend(c, s, D.Replicate(i), s');
  }

  lemma DoCrash(c: D.Config, s: State, i: nat) returns (s': State)
    requires Reachable(c, s) && Shaped(c, s) && i < c.n && s.alive[i]
    ensures Reachable(c, s') && s' == s.(alive := s.alive[i := false])
  {
    s' := Next(c, s, D.Crash(i));
    Extend(c, s, D.Crash(i), s');
  }

  lemma DoFailover(c: D.Config, s: State, members: set<nat>, w: nat) returns (s': State)
    requires Reachable(c, s) && Shaped(c, s) && s.primary.Some? && !s.alive[s.primary.value]
    requires s.term < c.maxTerm && D.Electorate(c, s.alive, members)
    requires w in members && forall x :: x in members ==>
               |s.logs[w]| > |s.logs[x]| || (|s.logs[w]| == |s.logs[x]| && w <= x)
    ensures Reachable(c, s') && s' == s.(primary := Some(w), term := s.term + 1)
  {
    assert D.BestOf(Erase(s).lsn, members, w);
    s' := Next(c, s, D.Failover(w));
    Extend(c, s, D.Failover(w), s');
  }

  lemma ForkStart(c: D.Config)
    requires c.n >= 5 && c.maxLsn >= 1 && c.maxTerm >= 2 && c.rule.AnyMajority?
    ensures Reachable(c, Fork(c, 2))
  {
    assert Run(c, [Init(c)], []);
    var s1 := DoWrite(c, Init(c), 0);
    assert s1.logs[0] == [0];
    var s2 := DoReplicate(c, s1, 0, 1);
    assert s2.logs[1] == [0];
    var s3 := DoCrash(c, s2, 0);
    var s4 := DoFailover(c, s3, Range(2, 2 + Majority(c.n)), 2);
    assert s4.logs == Fork(c, 2).logs && s4.alive == Fork(c, 2).alive;
  }

  lemma {:induction false} ForkGrows(c: D.Config, copies: nat)
    requires c.n >= 5 && c.maxLsn >= 1 && c.maxTerm >= 2 && c.rule.AnyMajority?
    requires 2 <= copies <= c.n
    ensures Reachable(c, Fork(c, copies))
  {
    if copies == 2 {
      ForkStart(c);
    } else {
      ForkGrows(c, copies - 1);
      var r := Fork(c, copies - 1);
      var s;
      if copies == 3 {
        s := DoWrite(c, r, 2);
      } else {
        s := DoReplicate(c, r, 2, copies - 1);
      }
      assert s.logs[copies - 1] == [1];
      assert s.logs == Fork(c, copies).logs;
    }
  }

  lemma ForkConfirmed(c: D.Config)
    requires c.n >= 5 && c.ackQuorum < c.n
    ensures |D.Alive(c.n, Fork(c, c.n).alive) * D.Holding(c.n, Erase(Fork(c, c.n)).lsn, 1)| >= c.ackQuorum
  {
    var f := Fork(c, c.n);
    SubsetSize(Range(1, c.n), D.Alive(c.n, f.alive) * D.Holding(c.n, Erase(f).lsn, 1));
  }

  lemma ForkAcked(c: D.Config) returns (s: State)
    requires c.n >= 5 && c.maxLsn >= 1 && c.maxTerm >= 2 && c.rule.AnyMajority? && c.ackQuorum < c.n
    ensures Reachable(c, s) && s == Fork(c, c.n).(acked := [1])
  {
    ForkGrows(c, c.n);
    ForkConfirmed(c);
    var f := Fork(c, c.n);
    assert Erase(f).lsn[2] == 1;
    s := Next(c, f, D.Ack);
    Extend(c, f, D.Ack, s);
  }

  /**
   Five nodes suffice: an entry written behind a stale survivor's back is acknowledged while that
   survivor is counted by its LSN, and the survivor then wins the next failover.
   */
  lemma ForkLoses(c: D.Config) returns (s: State)
    requires c.n >= 5 && c.maxLsn >= 1 && c.maxTerm >= 2 && c.rule.AnyMajority? && c.ackQuorum < c.n
    ensures Reachable(c, s) && Lost(c, s)
  {
    var s1 := ForkAcked(c);
    var s2 := DoCrash(c, s1, 2);
    s := DoFailover(c, s2, {1} + Range(3, 2 + Majority(c.n)), 1);
  }

  // --------------------------------------------------------------- main results

  /** The condition under which acknowledged contents can be lost, in terms of the configuration alone. */
  predicate Unsafe(c: D.Config) {
    && c.maxLsn >= 1
    && (|| (c.maxTerm >= 1 && !c.Overlapping())
        || (c.rule.AnyMajority? && c.maxTerm >= 2 && c.n >= 5 && c.ackQuorum < c.n))
  }

  /**
   Acknowledged entries can be lost exactly under Unsafe: besides quorums that miss each other, a
   failover that may ignore survivors loses entries from five nodes on, whatever the quorum below n.
   */
  lemma ContentLossExactly(c: D.Config)
    requires c.Valid()
    ensures (exists s :: Reachable(c, s) && Lost(c, s)) <==> Unsafe(c)
  {
    if Unsafe(c) {
      if c.Overlapping() {
        var s := ForkLoses(c);
      } else {
        var t := D.LosingRun(c);
        var numeric, acts :| D.Run(c, numeric, acts) && numeric[|acts|] == t;
        var states := Lift(c, numeric, acts);
        var s := states[|acts|];
        assert Erase(s) == EraseAll(states)[|acts|];
        assert Reachable(c, s) && Lost(c, s);
      }
    } else {
      forall s | Reachable(c, s)
        ensures !Lost(c, s)
      {
        var states, acts :| Run(c, states, acts) && states[|acts|] == s;
        SafeOtherwise(c, states, acts);
      }
    }
  }

  lemma SafeOtherwise(c: D.Config, states: seq<State>, acts: seq<D.Action>)
    requires c.Valid() && !Unsafe(c) && Run(c, states, acts)
    ensures !Lost(c, states[|acts|])
  {
    var k := |acts|;
    if c.maxLsn == 0 {
      EraseRun(c, states, acts);
      D.TrivialAlways(c, EraseAll(states), acts, k);
      assert D.Trivial(c, Erase(states[k]));
    } else if c.maxTerm == 0 || (c.maxTerm == 1 && c.Overlapping()) {
      OnceAlways(c, states, acts, k);
    } else if c.rule.AllAlive? || c.n <= 4 {
      ChainAlways(c, states, acts, k);
    } else {
      EverywhereAlways(c, states, acts, k);
    }
  }

  /**
   With failover over all survivors and overlapping quorums, every alive log stays a beginning of the
   primary's and everything acknowledged is in it, across any number of failovers.
   */
  lemma AllAliveKeepsContents(c: D.Config, s: State)
    requires c.Valid() && c.Overlapping() && c.rule.AllAlive? && Reachable(c, s)
    ensures Sound(c, s) && Chain(c, s)
  {
    var states, acts :| Run(c, states, acts) && states[|acts|] == s;
    ChainAlways(c, states, acts, |acts|);
  }

  /** Five nodes and a majority quorum: no LSN is ever lost, yet acknowledged contents can be. */
  lemma LsnSafetyIsNotContentSafety()
    ensures var c := D.Config(5, Majority(5), 1, 2, D.AnyMajority);
            && !(exists t :: D.Reachable(c, t) && D.Lost(c, t))
            && exists s :: Reachable(c, s) && Lost(c, s)
  {
    var c := D.Config(5, Majority(5), 1, 2, D.AnyMajority);
    D.LossExactly(c);
    ContentLossExactly(c);
  }
}
