/**
 The term-fenced leadership model: elections by exactly a majority, commits by a writable leader,
 crashes and recoveries, for every cluster size, term bound and run length.
 */
module Leadership {
  import opened Quorum

  datatype Config = Config(n: nat, maxTerm: nat, fencing: bool) {
    ghost predicate Valid() { n >= 1 }
  }

  datatype State = State(
    curTerm: seq<nat>,
    writable: seq<bool>,
    alive: seq<bool>,
    maxCommittedTerm: nat,
    committedLeader: Option<nat>,
    splitBrain: bool
  )

  datatype Action =
    | Elect(winner: nat, voters: set<nat>)
    | Commit(leader: nat)
    | Crash(node: nat)
    | Recover(node: nat)

  ghost predicate Shaped(c: Config, s: State) {
    |s.curTerm| == |s.writable| == |s.alive| == c.n
  }

  function MaxOf(ts: seq<nat>): (m: nat)
    requires ts != []
    ensures m in ts
    ensures forall i :: 0 <= i < |ts| ==> ts[i] <= m
  {
    if |ts| == 1 then ts[0]
    else
      var rest := MaxOf(ts[1..]);
      assert forall i :: 1 <= i < |ts| ==> ts[i] == ts[1..][i - 1];
      if ts[0] > rest then ts[0] else rest
  }

  function Init(c: Config): State {
    State(seq(c.n, i => 1), seq(c.n, i => i == 0), seq(c.n, i => true), 0, None, false)
  }

  ghost predicate Enabled(c: Config, s: State, a: Action)
    requires c.Valid() && Shaped(c, s)
  {
    match a
    case Elect(winner, voters) =>
      && MaxOf(s.curTerm) < c.maxTerm
      && voters <= Nodes(c.n) && |voters| == Majority(c.n)
      && (forall i :: i in voters ==> s.alive[i])
      && winner in voters
    case Commit(w) => w < c.n && s.alive[w] && s.writable[w]
    case Crash(i) => i < c.n && s.alive[i]
    case Recover(i) => i < c.n && !s.alive[i]
  }

  /** The alive nodes whose current term is t: the acceptors a commit at term t can count on. */
  ghost function AtTerm(c: Config, s: State, t: nat): set<nat>
    requires Shaped(c, s)
  {
    set i | 0 <= i < c.n && s.alive[i] && s.curTerm[i] == t
  }

  ghost predicate InRange(c: Config, a: Action) {
    match a
    case Elect(_, voters) => voters <= Nodes(c.n)
    case Commit(w) => w < c.n
    case Crash(i) => i < c.n
    case Recover(i) => i < c.n
  }

  /** What recording a commit by w at term t does to the committed history. */
  function Record(s: State, w: nat, t: nat): State {
    if t < s.maxCommittedTerm then s.(splitBrain := true)
    else if t == s.maxCommittedTerm then
      s.(splitBrain := s.splitBrain || (s.committedLeader.Some? && s.committedLeader.value != w),
         committedLeader := Some(w))
    else s.(maxCommittedTerm := t, committedLeader := Some(w))
  }

  ghost function Next(c: Config, s: State, a: Action): Option<State>
    requires c.Valid() && Shaped(c, s) && InRange(c, a)
  {
    match a
    case Elect(winner, voters) =>
      var t := MaxOf(s.curTerm) + 1;
      Some(s.(curTerm := seq(c.n, i requires 0 <= i < c.n => if i in voters then t else s.curTerm[i]),
              writable := seq(c.n, i requires 0 <= i < c.n => if i in voters then i == winner else s.writable[i])))
    case Commit(w) =>
      if c.fencing && |AtTerm(c, s, s.curTerm[w])| < Majority(c.n) then None
      else Some(Record(s, w, s.curTerm[w]))
    case Crash(i) => Some(s.(alive := s.alive[i := false]))
    case Recover(i) => Some(s.(alive := s.alive[i := true]))
  }

  /** Elections update a cloned state's vectors voter by voter. */
  method ElectState(c: Config, s: State, winner: nat, voters: set<nat>) returns (r: State)
    requires c.Valid() && Shaped(c, s) && voters <= Nodes(c.n)
    ensures Some(r) == Next(c, s, Elect(winner, voters))
  {
    var t := MaxOf(s.curTerm) + 1;
    var terms, writable := s.curTerm, s.writable;
    for i := 0 to c.n
      invariant |terms| == |writable| == c.n
      invariant forall j :: 0 <= j < c.n ==>
        terms[j] == if j < i && j in voters then t else s.curTerm[j]
      invariant forall j :: 0 <= j < c.n ==>
        writable[j] == if j < i && j in voters then j == winner else s.writable[j]
    {
      if i in voters {
        terms := terms[i := t];
        writable := writable[i := i == winner];
      }
    }
    r := s.(curTerm := terms, writable := writable);
    ghost var spec := Next(c, s, Elect(winner, voters)).value;
    assert terms == spec.curTerm && writable == spec.writable;
  }

  /** A commit counts the alive acceptors at the leader's term before it touches the history. */
  method CommitState(c: Config, s: State, w: nat) returns (r: Option<State>)
    requires c.Valid() && Shaped(c, s) && w < c.n
    ensures r == Next(c, s, Commit(w))
  {
    var t, quorum := s.curTerm[w], 0;
    ghost var seen: set<nat> := {};
    for i := 0 to c.n
      invariant quorum == |seen|
      invariant seen == set j | 0 <= j < i && s.alive[j] && s.curTerm[j] == t
    {
      if s.alive[i] && s.curTerm[i] == t {
        quorum := quorum + 1;
        seen := seen + {i};
      }
    }
    assert seen == AtTerm(c, s, t);
    if c.fencing && quorum < Majority(c.n) {
      return None;
    }
    var ns := s;
    if t < ns.maxCommittedTerm {
      ns := ns.(splitBrain := true);
    } else if t == ns.maxCommittedTerm {
      if ns.committedLeader.Some? && ns.committedLeader.value != w {
        ns := ns.(splitBrain := true);
      }
      ns := ns.(committedLeader := Some(w));
    } else {
      ns := ns.(maxCommittedTerm := t, committedLeader := Some(w));
    }
    r := Some(ns);
  }

  ghost predicate Step(c: Config, s: State, a: Action, s': State)
    requires c.Valid()
  {
    Shaped(c, s) && InRange(c, a) && Enabled(c, s, a) && Next(c, s, a) == Some(s')
  }

  /** A finite run: states[k] steps to states[k+1] by acts[k], starting from the initial state. */
  ghost predicate Run(c: Config, states: seq<State>, acts: seq<Action>)
    requires c.Valid()
  {
    && |states| == |acts| + 1
    && states[0] == Init(c)
    && forall k :: 0 <= k < |acts| ==> Step(c, states[k], acts[k], states[k + 1])
  }

  ghost predicate Reachable(c: Config, s: State)
    requires c.Valid()
  {
    exists states: seq<State>, acts: seq<Action> {:trigger Run(c, states, acts)} ::
      Run(c, states, acts) && states[|acts|] == s
  }

  // ---------------------------------------------------------------- invariants

  /** Leaders of one term are one node, and nobody is ahead of or behind the known history. */
  ghost predicate OneLeaderPerTerm(c: Config, s: State)
    requires Shaped(c, s)
  {
    && (forall i, j | 0 <= i < c.n && 0 <= j < c.n ::
          s.writable[i] && s.writable[j] && s.curTerm[i] == s.curTerm[j] ==> i == j)
    && (forall i :: 0 <= i < c.n ==> s.curTerm[i] >= 1)
  }

  /** The nodes that have reached term t; terms never fall, so this set only grows. */
  ghost function Reached(c: Config, s: State, t: nat): set<nat>
    requires Shaped(c, s)
  {
    set i | 0 <= i < c.n && s.curTerm[i] >= t
  }

  /** Whoever is writable in the newest committed term is that term's committer. */
  ghost predicate OnlyCommitter(c: Config, s: State)
    requires Shaped(c, s) && s.committedLeader.Some?
  {
    forall i | 0 <= i < c.n ::
      s.writable[i] && s.curTerm[i] == s.maxCommittedTerm ==> i == s.committedLeader.value
  }

  /** A committed term is held by a majority, and only its committer is still writable in it. */
  ghost predicate CommitHeld(c: Config, s: State)
    requires Shaped(c, s)
  {
    && (s.committedLeader.Some? ==>
          && |Reached(c, s, s.maxCommittedTerm)| >= Majority(c.n)
          && OnlyCommitter(c, s))
    && (s.committedLeader.None? ==> s.maxCommittedTerm == 0)
  }

  ghost predicate FencedInv(c: Config, s: State) {
    Shaped(c, s) && OneLeaderPerTerm(c, s) && CommitHeld(c, s) && !s.splitBrain
  }

  lemma TermsGrow(c: Config, s: State, a: Action, s': State, t: nat)
    requires c.Valid() && Step(c, s, a, s')
    ensures Shaped(c, s')
    ensures |Reached(c, s, t)| <= |Reached(c, s', t)|
  {
    SubsetSize(Reached(c, s, t), Reached(c, s', t));
  }

  /** A fenced commit is at least as new as every earlier one, and in a committed term it is the committer's. */
  lemma FencedCommit(c: Config, s: State, w: nat, s': State)
    requires c.Valid() && c.fencing && FencedInv(c, s)
    requires Step(c, s, Commit(w), s')
    ensures s.curTerm[w] >= s.maxCommittedTerm
    ensures s.committedLeader.Some? && s.curTerm[w] == s.maxCommittedTerm ==> w == s.committedLeader.value
    ensures |AtTerm(c, s, s.curTerm[w])| >= Majority(c.n)
  {
    if s.curTerm[w] < s.maxCommittedTerm {
      var x := Intersect(c.n, AtTerm(c, s, s.curTerm[w]), Reached(c, s, s.maxCommittedTerm));
    }
  }

  lemma FencedInvStep(c: Config, s: State, a: Action, s': State)
    requires c.Valid() && c.fencing && FencedInv(c, s)
    requires Step(c, s, a, s')
    ensures FencedInv(c, s')
    ensures s.maxCommittedTerm <= s'.maxCommittedTerm
  {
    TermsGrow(c, s, a, s', s.maxCommittedTerm);
    match a
    case Elect(winner, voters) =>
      if s.committedLeader.Some? {
        var x :| x in Reached(c, s, s.maxCommittedTerm);
      }
    case Commit(w) =>
      FencedCommit(c, s, w, s');
      var t := s.curTerm[w];
      SubsetSize(AtTerm(c, s, t), Reached(c, s', t));
    case Crash(_) =>
    case Recover(_) =>
  }

  lemma {:induction false} FencedRun(c: Config, states: seq<State>, acts: seq<Action>, k: nat)
    requires c.Valid() && c.fencing && Run(c, states, acts) && k <= |acts|
    ensures FencedInv(c, states[k])
  {
    if k > 0 {
      FencedRun(c, states, acts, k - 1);
      FencedInvStep(c, states[k - 1], acts[k - 1], states[k]);
    }
  }

  /** The term and the committer recorded between two points of a run only move forward. */
  lemma {:induction false} HistoryMonotone(c: Config, states: seq<State>, acts: seq<Action>, i: nat, j: nat)
    requires c.Valid() && c.fencing && Run(c, states, acts)
    requires i <= j <= |acts|
    ensures states[i].maxCommittedTerm <= states[j].maxCommittedTerm
    ensures states[i].committedLeader.Some? && states[i].maxCommittedTerm == states[j].maxCommittedTerm
            ==> states[j].committedLeader == states[i].committedLeader
    decreases j - i
  {
    if i < j {
      HistoryMonotone(c, states, acts, i, j - 1);
      FencedRun(c, states, acts, j - 1);
      FencedInvStep(c, states[j - 1], acts[j - 1], states[j]);
      if acts[j - 1].Commit? {
        FencedCommit(c, states[j - 1], acts[j - 1].leader, states[j]);
      }
    }
  }

  /**
   Commits along any fenced run: terms never go backwards, and each term has one committer,
   whatever stale writable leaders coexist.
   */
  lemma CommitsOrdered(c: Config, states: seq<State>, acts: seq<Action>, i: nat, j: nat)
    requires c.Valid() && c.fencing && Run(c, states, acts)
    requires i < j < |acts| && acts[i].Commit? && acts[j].Commit?
    ensures acts[i].leader < c.n && acts[j].leader < c.n
    ensures Shaped(c, states[i]) && Shaped(c, states[j])
    ensures states[i].curTerm[acts[i].leader] <= states[j].curTerm[acts[j].leader]
    ensures states[i].curTerm[acts[i].leader] == states[j].curTerm[acts[j].leader]
            ==> acts[i].leader == acts[j].leader
  {
    FencedRun(c, states, acts, i);
    FencedRun(c, states, acts, j);
    assert Step(c, states[i], acts[i], states[i + 1]);
    assert Step(c, states[j], acts[j], states[j + 1]);
    FencedCommit(c, states[i], acts[i].leader, states[i + 1]);
    FencedCommit(c, states[j], acts[j].leader, states[j + 1]);
    HistoryMonotone(c, states, acts, i + 1, j);
  }

  // ------------------------------------------------- clusters of at most two nodes

  /** With n <= 2 every electorate is every node, so all nodes share one term and one leader. */
  ghost predicate LockStep(c: Config, s: State) {
    && Shaped(c, s) && OneLeaderPerTerm(c, s) && !s.splitBrain
    && (forall i, j :: 0 <= i < c.n && 0 <= j < c.n ==> s.curTerm[i] == s.curTerm[j])
    && (forall i :: 0 <= i < c.n ==> s.maxCommittedTerm <= s.curTerm[i])
    && (s.committedLeader.None? ==> s.maxCommittedTerm == 0)
    && (s.committedLeader.Some? ==> OnlyCommitter(c, s))
  }

  lemma LockStepStep(c: Config, s: State, a: Action, s': State)
    requires c.Valid() && (c.n <= 2 || c.maxTerm <= 1) && LockStep(c, s)
    requires Step(c, s, a, s')
    ensures LockStep(c, s')
  {
    if a.Elect? {
      assert c.n <= 2 by { assert s.curTerm[0] >= 1; }
      FullSubset(a.voters, Nodes(c.n));
    }
  }

  lemma {:induction false} LockStepRun(c: Config, states: seq<State>, acts: seq<Action>, k: nat)
    requires c.Valid() && (c.n <= 2 || c.maxTerm <= 1) && Run(c, states, acts) && k <= |acts|
    ensures LockStep(c, states[k])
  {
    if k > 0 {
      LockStepRun(c, states, acts, k - 1);
      LockStepStep(c, states[k - 1], acts[k - 1], states[k]);
    }
  }

  // ------------------------------------------------------- counterexample runs

  /** The electorate that leaves node 0, the first leader, out. */
  ghost function WithoutZero(n: nat): (vs: set<nat>)
    requires n >= 3
    ensures vs <= Nodes(n) && |vs| == Majority(n) && 0 !in vs && 1 in vs
  {
    Range(1, Majority(n) + 1)
  }

  lemma InitMax(c: Config)
    requires c.Valid()
    ensures MaxOf(Init(c).curTerm) == 1
  {
    assert Init(c).curTerm[0] == 1;
  }

  /** Electing node 1 behind node 0's back leaves node 0 writable in a stale term. */
  lemma ElectBehind(c: Config) returns (s: State)
    requires c.n >= 3 && c.maxTerm >= 2
    ensures Step(c, Init(c), Elect(1, WithoutZero(c.n)), s)
    ensures Shaped(c, s) && s.alive[0] && s.writable[0] && s.writable[1] && s.alive[1]
    ensures s.curTerm[0] == 1 && s.curTerm[1] == 2
    ensures s.maxCommittedTerm == 0 && s.committedLeader == None
  {
    InitMax(c);
    s := Next(c, Init(c), Elect(1, WithoutZero(c.n))).value;
  }

  ghost predicate StaleLeader(c: Config, s: State) {
    && Shaped(c, s)
    && exists i, j | 0 <= i < c.n && 0 <= j < c.n ::
         s.alive[i] && s.writable[i] && s.curTerm[i] < s.curTerm[j]
  }

  lemma SplitBrainRun(c: Config) returns (s: State)
    requires c.n >= 3 && c.maxTerm >= 2 && !c.fencing
    ensures Reachable(c, s) && s.splitBrain
  {
    var s1 := ElectBehind(c);
    var s2 := Record(s1, 1, 2);
    s := Record(s2, 0, 1);
    var states := [Init(c), s1, s2, s];
    var acts := [Elect(1, WithoutZero(c.n)), Commit(1), Commit(0)];
    assert Step(c, s1, Commit(1), s2);
    assert Step(c, s2, Commit(0), s);
    forall k | 0 <= k < |acts|
      ensures Step(c, states[k], acts[k], states[k + 1])
    {
      if k == 0 {} else if k == 1 {} else {}
    }
    assert Run(c, states, acts);
  }

  // ---------------------------------------------------------------- main results

  /**
   Split-brain is reachable exactly without fencing, in clusters of three or more, once a second
   term is allowed.
   */
  lemma SplitBrainExactly(c: Config)
    requires c.Valid()
    ensures (exists s :: Reachable(c, s) && s.splitBrain) <==> !c.fencing && c.n >= 3 && c.maxTerm >= 2
  {
    if !c.fencing && c.n >= 3 && c.maxTerm >= 2 {
      var s := SplitBrainRun(c);
    } else {
      forall s | Reachable(c, s)
        ensures !s.splitBrain
      {
        var states, acts :| Run(c, states, acts) && states[|acts|] == s;
        if c.fencing {
          FencedRun(c, states, acts, |acts|);
        } else {
          LockStepRun(c, states, acts, |acts|);
        }
      }
    }
  }

  /** The non-vacuity check: a stale writable leader occurs exactly when n >= 3 and two terms are allowed. */
  lemma StaleLeaderExactly(c: Config)
    requires c.Valid()
    ensures (exists s :: Reachable(c, s) && StaleLeader(c, s)) <==> c.n >= 3 && c.maxTerm >= 2
  {
    if c.n >= 3 && c.maxTerm >= 2 {
      var s := ElectBehind(c);
      assert Run(c, [Init(c), s], [Elect(1, WithoutZero(c.n))]);
      assert StaleLeader(c, s);
    } else {
      forall s | Reachable(c, s)
        ensures !StaleLeader(c, s)
      {
        var states, acts :| Run(c, states, acts) && states[|acts|] == s;
        LockStepRun(c, states, acts, |acts|);
      }
    }
  }

  /**
   An election moves exactly a bare majority, all of them alive, to one term above every term there was,
   and leaves exactly one of them writable.
   */
  lemma ElectionMovesMajority(c: Config, s: State, winner: nat, voters: set<nat>, s': State)
    requires c.Valid() && Step(c, s, Elect(winner, voters), s')
    ensures Shaped(c, s') && |voters| == Majority(c.n) && winner in voters
    ensures forall i :: 0 <= i < c.n ==> (i in voters <==> s'.curTerm[i] != s.curTerm[i])
    ensures forall i :: i in voters ==> i < c.n && s.alive[i] && (s'.writable[i] <==> i == winner)
    ensures forall i, j :: i in voters && 0 <= j < c.n ==> s'.curTerm[i] > s.curTerm[j]
    ensures forall i :: 0 <= i < c.n && i !in voters ==> s'.writable[i] == s.writable[i]
    ensures s'.alive == s.alive && s'.maxCommittedTerm == s.maxCommittedTerm && s'.splitBrain == s.splitBrain
  {
  }

  // -------------------------------------------------------------- crashed and recovered leaders

  /** Node i has crashed in step j of the run and recovered in step k, and not in between. */
  ghost predicate DownBetween(acts: seq<Action>, i: nat, j: nat, k: nat) {
    j < k < |acts| && acts[j] == Crash(i) && acts[k] == Recover(i) && forall m :: j < m < k ==> acts[m] != Recover(i)
  }

  /** While it is down a node takes part in nothing. */
  lemma {:induction false} DownKeepsRole(c: Config, states: seq<State>, acts: seq<Action>, i: nat, j: nat, m: nat)
    requires c.Valid() && Run(c, states, acts) && j < m <= |acts| && acts[j] == Crash(i)
    requires forall n :: j < n < m ==> acts[n] != Recover(i)
    ensures i < c.n && Shaped(c, states[j]) && Shaped(c, states[m]) && !states[m].alive[i]
    ensures states[m].curTerm[i] == states[j].curTerm[i] && states[m].writable[i] == states[j].writable[i]
    decreases m
  {
    assert Step(c, states[m - 1], acts[m - 1], states[m]);
    if m - 1 > j {
      DownKeepsRole(c, states, acts, i, j, m - 1);
    }
  }

  /** A node comes back alive, in the term and with the writability it crashed with. */
  lemma RecoversAsItWas(c: Config, states: seq<State>, acts: seq<Action>, i: nat, j: nat, k: nat)
    requires c.Valid() && Run(c, states, acts) && DownBetween(acts, i, j, k)
    ensures i < c.n && Shaped(c, states[j]) && Shaped(c, states[k + 1]) && states[k + 1].alive[i]
    ensures states[k + 1].curTerm[i] == states[j].curTerm[i]
    ensures states[k + 1].writable[i] == states[j].writable[i]
  {
    DownKeepsRole(c, states, acts, i, j, k);
    assert Step(c, states[k], acts[k], states[k + 1]);
  }

  /** Node i, back from a crash, is alive and writable in a term others have left behind. */
  ghost predicate StaleAfterRecovery(c: Config, states: seq<State>, acts: seq<Action>, i: nat, j: nat)
    requires c.Valid()
  {
    && Run(c, states, acts) && acts != [] && DownBetween(acts, i, j, |acts| - 1)
    && var s := states[|acts|];
       && Shaped(c, s) && i < c.n && s.alive[i] && s.writable[i]
       && exists x | 0 <= x < c.n :: s.curTerm[i] < s.curTerm[x]
  }

  lemma StaleRecoveryRun(c: Config) returns (states: seq<State>, acts: seq<Action>)
    requires c.n >= 3 && c.maxTerm >= 2
    ensures StaleAfterRecovery(c, states, acts, 0, 0)
  {
    InitMax(c);
    var s0 := Init(c);
    var s1 := s0.(alive := s0.alive[0 := false]);
    var voters := WithoutZero(c.n);
    var s2 := Next(c, s1, Elect(1, voters)).value;
    var s3 := s2.(alive := s2.alive[0 := true]);
    states, acts := [s0, s1, s2, s3], [Crash(0), Elect(1, voters), Recover(0)];
    assert Step(c, s0, Crash(0), s1) && Step(c, s1, Elect(1, voters), s2) && Step(c, s2, Recover(0), s3);
    forall k | 0 <= k < |acts|
      ensures Step(c, states[k], acts[k], states[k + 1])
    {
      if k == 0 {} else if k == 1 {} else {}
    }
    assert s3.curTerm[0] == 1 && s3.curTerm[1] == 2;
  }

  /** A leader can come back stale and still writable exactly when n >= 3 and two terms are allowed. */
  lemma StaleAfterRecoveryExactly(c: Config)
    requires c.Valid()
    ensures (exists states: seq<State>, acts: seq<Action>, i: nat, j: nat :: StaleAfterRecovery(c, states, acts, i, j))
            <==> c.n >= 3 && c.maxTerm >= 2
  {
    if c.n >= 3 && c.maxTerm >= 2 {
      var states, acts := StaleRecoveryRun(c);
    } else {
      forall states: seq<State>, acts: seq<Action>, i: nat, j: nat | StaleAfterRecovery(c, states, acts, i, j)
        ensures false
      {
        LockStepRun(c, states, acts, |acts|);
      }
    }
  }

  // ------------------------------------------------------------- what the verdict means

  /** The term in which the leader of the k-th step, a commit, commits. */
  ghost function CommitTerm(c: Config, states: seq<State>, acts: seq<Action>, k: nat): nat
    requires c.Valid() && Run(c, states, acts) && k < |acts| && acts[k].Commit?
  {
    assert Step(c, states[k], acts[k], states[k + 1]);
    states[k].curTerm[acts[k].leader]
  }

  /** A later commit in an older term, or by another leader in the same one. */
  ghost predicate Conflict(c: Config, states: seq<State>, acts: seq<Action>, i: nat, j: nat)
    requires c.Valid() && Run(c, states, acts)
  {
    && i < j < |acts| && acts[i].Commit? && acts[j].Commit?
    && var t, u := CommitTerm(c, states, acts, i), CommitTerm(c, states, acts, j);
       u < t || (u == t && acts[i].leader != acts[j].leader)
  }

  ghost predicate ConflictBy(c: Config, states: seq<State>, acts: seq<Action>, k: nat)
    requires c.Valid() && Run(c, states, acts)
  {
    exists i: nat, j: nat :: j < k && Conflict(c, states, acts, i, j)
  }

  /** The record is of the newest commit: no earlier one was in a newer term, and one was its own. */
  ghost predicate Recorded(c: Config, states: seq<State>, acts: seq<Action>, k: nat)
    requires c.Valid() && Run(c, states, acts) && k <= |acts|
  {
    var s := states[k];
    && (s.committedLeader.None? ==> s.maxCommittedTerm == 0 && forall i :: 0 <= i < k ==> !acts[i].Commit?)
    && (forall i: nat :: i < k && acts[i].Commit? ==> CommitTerm(c, states, acts, i) <= s.maxCommittedTerm)
    && (s.committedLeader.Some? ==>
          exists i: nat :: i < k && acts[i].Commit? && acts[i].leader == s.committedLeader.value
                           && CommitTerm(c, states, acts, i) == s.maxCommittedTerm)
    && (s.committedLeader.Some? && !s.splitBrain ==>
          forall i: nat :: i < k && acts[i].Commit? && CommitTerm(c, states, acts, i) == s.maxCommittedTerm ==>
            acts[i].leader == s.committedLeader.value)
    && (s.splitBrain <==> ConflictBy(c, states, acts, k))
  }

  lemma ConflictGrows(c: Config, states: seq<State>, acts: seq<Action>, k: nat)
    requires c.Valid() && Run(c, states, acts) && k < |acts|
    ensures ConflictBy(c, states, acts, k + 1)
            <==> ConflictBy(c, states, acts, k) || exists i: nat :: Conflict(c, states, acts, i, k)
  {
    hide Conflict;
    var n := k + 1;
    if i: nat, j: nat :| j < n && Conflict(c, states, acts, i, j) {
      assert j < k || j == k;
    }
    if i: nat :| Conflict(c, states, acts, i, k) {
      assert k < n;
    }
  }

  /** A step that is no commit leaves the record, and the list of commits, as they were. */
  lemma RecordedOtherwise(c: Config, states: seq<State>, acts: seq<Action>, k: nat)
    requires c.Valid() && Run(c, states, acts) && k < |acts| && Recorded(c, states, acts, k) && !acts[k].Commit?
    ensures Recorded(c, states, acts, k + 1)
  {
    ConflictGrows(c, states, acts, k);
    assert Step(c, states[k], acts[k], states[k + 1]);
    hide ConflictBy;
  }

  /** A commit conflicts with an earlier one exactly if the record says so. */
  lemma ConflictIsRecorded(c: Config, states: seq<State>, acts: seq<Action>, k: nat)
    requires c.Valid() && Run(c, states, acts) && k < |acts| && Recorded(c, states, acts, k) && acts[k].Commit?
    requires !states[k].splitBrain
    ensures (exists i: nat :: Conflict(c, states, acts, i, k))
            <==> var s, t := states[k], CommitTerm(c, states, acts, k);
                 s.committedLeader.Some?
                 && (t < s.maxCommittedTerm || (t == s.maxCommittedTerm && acts[k].leader != s.committedLeader.value))
  {
    hide ConflictBy, Step;
    var s, t := states[k], CommitTerm(c, states, acts, k);
    if s.committedLeader.Some? {
      var i: nat :| i < k && acts[i].Commit? && acts[i].leader == s.committedLeader.value
                    && CommitTerm(c, states, acts, i) == s.maxCommittedTerm;
      assert Conflict(c, states, acts, i, k)
             <==> t < s.maxCommittedTerm || (t == s.maxCommittedTerm && acts[k].leader != s.committedLeader.value);
    }
  }

  lemma RecordedCommit(c: Config, states: seq<State>, acts: seq<Action>, k: nat)
    requires c.Valid() && Run(c, states, acts) && k < |acts| && Recorded(c, states, acts, k) && acts[k].Commit?
    ensures Recorded(c, states, acts, k + 1)
  {
    var s, s', t := states[k], states[k + 1], CommitTerm(c, states, acts, k);
    assert s' == Record(s, acts[k].leader, t) by {
      assert Step(c, s, acts[k], s');
    }
    ConflictGrows(c, states, acts, k);
    if !s.splitBrain {
      ConflictIsRecorded(c, states, acts, k);
    }
    hide ConflictBy, Conflict, Step, Next;
    assert s'.maxCommittedTerm >= s.maxCommittedTerm;
  }

  lemma RecordedStep(c: Config, states: seq<State>, acts: seq<Action>, k: nat)
    requires c.Valid() && Run(c, states, acts) && k < |acts| && Recorded(c, states, acts, k)
    ensures Recorded(c, states, acts, k + 1)
  {
    hide Recorded;
    if acts[k].Commit? {
      RecordedCommit(c, states, acts, k);
    } else {
      RecordedOtherwise(c, states, acts, k);
    }
  }

  lemma {:induction false} RecordedAlways(c: Config, states: seq<State>, acts: seq<Action>, k: nat)
    requires c.Valid() && Run(c, states, acts) && k <= |acts|
    ensures Recorded(c, states, acts, k)
  {
    hide Recorded;
    if k == 0 {
      assert Recorded(c, states, acts, 0) by { RecordedAtStart(c, states, acts); }
    } else {
      RecordedAlways(c, states, acts, k - 1);
      RecordedStep(c, states, acts, k - 1);
    }
  }

  lemma RecordedAtStart(c: Config, states: seq<State>, acts: seq<Action>)
    requires c.Valid() && Run(c, states, acts)
    ensures Recorded(c, states, acts, 0)
  {
  }

  /**
   What the split-brain verdict means, fenced or not: at any point of any run it stands exactly if some
   commit so far was in an older term than an earlier one, or in the same term by another leader.
   */
  lemma SplitBrainMeans(c: Config, states: seq<State>, acts: seq<Action>, k: nat)
    requires c.Valid() && Run(c, states, acts) && k <= |acts|
    ensures states[k].splitBrain <==> ConflictBy(c, states, acts, k)
  {
    RecordedAlways(c, states, acts, k);
  }
}
