/**
 Choosing the next primary: the production comparator, and its relation to the failover step of the
 durability model, whose electorates are enumerated as bit masks.
 */
module Selection {
  import opened Quorum
  import D = Durability

  datatype Candidate = Candidate(id: nat, lsn: nat, inRecovery: bool)

  /** a compares greater than or equal to b: by LSN, then not in recovery, then the lower id. */
  predicate AtLeast(a: Candidate, b: Candidate) {
    || a.lsn > b.lsn
    || (a.lsn == b.lsn && !a.inRecovery && b.inRecovery)
    || (a.lsn == b.lsn && a.inRecovery == b.inRecovery && a.id <= b.id)
  }

  /** The last maximal element, as an iterator's max_by returns it. */
  function Best(cs: seq<Candidate>): (r: Candidate)
    requires cs != []
    ensures r in cs && forall c :: c in cs ==> AtLeast(r, c)
  {
    var last := cs[|cs| - 1];
    if |cs| == 1 then last
    else
      var front := cs[..|cs| - 1];
      var r := Best(front);
      assert forall c :: c in cs ==> c in front || c == last;
      if AtLeast(last, r) then last else r
  }

  function ChoosePrimary(cs: seq<Candidate>): Option<nat> {
    if cs == [] then None else Some(Best(cs).id)
  }

  /** The choice depends only on which candidates there are, not on the order or repetition. */
  lemma ChoiceIsOrderFree(a: seq<Candidate>, b: seq<Candidate>)
    requires forall c :: c in a <==> c in b
    ensures ChoosePrimary(a) == ChoosePrimary(b)
  {
    assert |b| == 0 || b[0] in b;
    if a != [] {
      assert a[0] in b;
      assert Best(a) in b && Best(b) in a;
    }
  }

  // ----------------------------------------------------- the set of possible winners

  /** The alive nodes that w is preferred to, itself included. */
  ghost function Outranked(lsn: seq<nat>, alive: seq<bool>, w: nat): set<nat>
    requires |lsn| == |alive| && w < |lsn|
  {
    set x | 0 <= x < |lsn| && alive[x] && D.Ranks(lsn, w, x)
  }

  lemma {:induction false} SubsetOfSize<T>(s: set<T>, k: nat, x: T) returns (r: set<T>)
    requires x in s && 1 <= k <= |s|
    ensures r <= s && |r| == k && x in r
  {
    if k == 1 {
      r := {x};
    } else {
      r := SubsetOfSize(s, k - 1, x);
      if s <= r {
        SubsetSize(s, r);
      }
      var y :| y in s && y !in r;
      r := r + {y};
    }
  }

  /** A node can win some majority exactly when it is alive and outranks at least a majority of alive nodes. */
  lemma CanWinExactly(c: D.Config, lsn: seq<nat>, alive: seq<bool>, w: nat)
    requires c.rule.AnyMajority? && |lsn| == |alive| == c.n && w < c.n
    ensures D.CanWin(c, lsn, alive, w) <==> alive[w] && |Outranked(lsn, alive, w)| >= Majority(c.n)
  {
    if D.CanWin(c, lsn, alive, w) {
      var members :| D.Electorate(c, alive, members) && D.BestOf(lsn, members, w);
      SubsetSize(members, Outranked(lsn, alive, w));
    }
    if alive[w] && |Outranked(lsn, alive, w)| >= Majority(c.n) {
      var members := SubsetOfSize(Outranked(lsn, alive, w), Majority(c.n), w);
      assert D.Electorate(c, alive, members) && D.BestOf(lsn, members, w);
    }
  }

  /** Voter masks: bit i of the mask, shifted down one place at a time. */
  predicate Bit(mask: nat, i: nat) {
    if i == 0 then mask % 2 == 1 else Bit(mask / 2, i - 1)
  }

  function Pow2(k: nat): (r: nat)
    ensures r >= 1
  {
    if k == 0 then 1 else 2 * Pow2(k - 1)
  }

  ghost function Members(mask: nat, n: nat): set<nat> {
    set i | 0 <= i < n && Bit(mask, i)
  }

  /** Every set of nodes is the member set of a mask below 2^n. */
  lemma {:induction false} MaskOf(n: nat, s: set<nat>) returns (mask: nat)
    requires s <= Nodes(n)
    ensures mask < Pow2(n) && Members(mask, n) == s
  {
    if n == 0 {
      mask := 0;
      assert s == {};
    } else {
      var shifted := set i | i in s && i > 0 :: i - 1;
      var high := MaskOf(n - 1, shifted);
      mask := 2 * high + if 0 in s then 1 else 0;
      forall i | 0 <= i < n
        ensures Bit(mask, i) <==> i in s
      {
        if i > 0 {
          assert Bit(mask, i) == Bit(high, i - 1);
          assert i - 1 in Members(high, n - 1) <==> i in s;
        }
      }
    }
  }

  /** Some mask below m elects w. */
  ghost predicate ElectedBelow(c: D.Config, lsn: seq<nat>, alive: seq<bool>, m: nat, w: nat)
    requires |lsn| == |alive| == c.n
  {
    exists k :: 1 <= k < m && Elects(c, lsn, alive, k, w)
  }

  ghost predicate Elects(c: D.Config, lsn: seq<nat>, alive: seq<bool>, mask: nat, w: nat)
    requires |lsn| == |alive| == c.n
  {
    D.Electorate(c, alive, Members(mask, c.n)) && D.BestOf(lsn, Members(mask, c.n), w)
  }

  lemma EveryElectorateHasAMask(c: D.Config, lsn: seq<nat>, alive: seq<bool>, w: nat)
    requires c.rule.AnyMajority? && |lsn| == |alive| == c.n
    ensures ElectedBelow(c, lsn, alive, Pow2(c.n), w) <==> D.CanWin(c, lsn, alive, w)
  {
    if D.CanWin(c, lsn, alive, w) {
      var members :| D.Electorate(c, alive, members) && D.BestOf(lsn, members, w);
      var mask := MaskOf(c.n, members);
      if mask == 0 {
        ZeroIsEmpty(c.n);
      }
      assert Elects(c, lsn, alive, mask, w);
    }
  }

  lemma {:induction false} ZeroBits(i: nat)
    ensures !Bit(0, i)
  {
    if i > 0 {
      ZeroBits(i - 1);
    }
  }

  lemma ZeroIsEmpty(n: nat)
    ensures Members(0, n) == {}
  {
    forall i: nat {
      ZeroBits(i);
    }
  }

  /** Folding one more member into the best so far. */
  lemma BestExtends(lsn: seq<nat>, members: set<nat>, best: nat, i: nat)
    requires i < |lsn| && members <= Nodes(|lsn|) && D.BestOf(lsn, members, best)
    ensures D.BestOf(lsn, members + {i}, if D.Ranks(lsn, i, best) then i else best)
  {
  }

  /** The mask's members in increasing order. */
  method MembersOf(mask: nat, n: nat) returns (members: seq<nat>)
    ensures forall x: nat :: x in members <==> x in Members(mask, n)
    ensures |members| == |Members(mask, n)|
  {
    members := [];
    for i := 0 to n
      invariant forall x: nat :: x in members <==> x in Members(mask, i)
      invariant |members| == |Members(mask, i)|
    {
      if Bit(mask, i) {
        members := members + [i];
        assert Members(mask, i + 1) == Members(mask, i) + {i};
      } else {
        assert Members(mask, i + 1) == Members(mask, i);
      }
    }
  }

  /** One electorate: reject it on size or a dead member, keep the best. */
  method WinnerOf(c: D.Config, lsn: seq<nat>, alive: seq<bool>, mask: nat) returns (w: Option<nat>)
    requires c.rule.AnyMajority? && |lsn| == |alive| == c.n
    ensures w.Some? ==> w.value < c.n && Elects(c, lsn, alive, mask, w.value)
    ensures w.None? ==> forall x :: !Elects(c, lsn, alive, mask, x)
  {
    var members := MembersOf(mask, c.n);
    ghost var all := Members(mask, c.n);
    if |members| != Majority(c.n) {
      return None;
    }
    assert forall j :: 0 <= j < |members| ==> members[j] in all;
    for i := 0 to |members|
      invariant forall j :: 0 <= j < i ==> alive[members[j]]
    {
      if !alive[members[i]] {
        return None;
      }
    }
    var best: nat := members[0];
    ghost var seen := {best};
    for i := 1 to |members|
      invariant best < c.n && seen <= all && D.BestOf(lsn, seen, best)
      invariant forall j :: 0 <= j < i ==> members[j] in seen
    {
      BestExtends(lsn, seen, best, members[i]);
      if D.Ranks(lsn, members[i], best) {
        best := members[i];
      }
      seen := seen + {members[i]};
    }
    assert seen == all;
    w := Some(best);
  }

  /** How many nodes are alive. */
  method CountAlive(n: nat, alive: seq<bool>) returns (count: nat)
    requires |alive| == n
    ensures count == |D.Alive(n, alive)|
  {
    count := 0;
    ghost var seen: set<nat> := {};
    for i := 0 to n
      invariant seen == set j | 0 <= j < i && alive[j]
      invariant count == |seen|
    {
      if alive[i] {
        count := count + 1;
        seen := seen + {i};
      }
    }
    assert seen == D.Alive(n, alive);
  }

  /** A dead majority elects nobody. */
  lemma TooFewAlive(c: D.Config, lsn: seq<nat>, alive: seq<bool>, w: nat)
    requires |lsn| == |alive| == c.n && |D.Alive(c.n, alive)| < Majority(c.n)
    ensures !D.CanWin(c, lsn, alive, w)
  {
    if D.CanWin(c, lsn, alive, w) {
      var members :| D.Electorate(c, alive, members) && D.BestOf(lsn, members, w);
      SubsetSize(members, D.Alive(c.n, alive));
    }
  }

  /** The model's loop over all masks finds exactly the nodes that can win. Masks are 32 bits wide. */
  method PossibleNewPrimaries(c: D.Config, lsn: seq<nat>, alive: seq<bool>) returns (winners: set<nat>)
    requires c.rule.AnyMajority? && |lsn| == |alive| == c.n && c.n < 32
    ensures forall w: nat :: w in winners <==> w < c.n && D.CanWin(c, lsn, alive, w)
  {
    winners := {};
    var count := CountAlive(c.n, alive);
    if count < Majority(c.n) {
      forall w: nat {
        TooFewAlive(c, lsn, alive, w);
      }
      return;
    }
    for mask := 1 to Pow2(c.n)
      invariant forall w: nat :: w in winners <==> w < c.n && ElectedBelow(c, lsn, alive, mask, w)
    {
      var w := WinnerOf(c, lsn, alive, mask);
      ghost var before := winners;
      if w.Some? {
        winners := winners + {w.value};
      }
      forall x: nat | x < c.n
        ensures ElectedBelow(c, lsn, alive, mask + 1, x) <==> x in winners
      {
        if Elects(c, lsn, alive, mask, x) {
          assert D.Ranks(lsn, x, w.value) && D.Ranks(lsn, w.value, x);
        }
      }
    }
    forall w: nat {
      EveryElectorateHasAMask(c, lsn, alive, w);
    }
  }

  // ------------------------------------------------------------------- refinement

  ghost function Ids(cs: seq<Candidate>): set<nat> {
    set c | c in cs :: c.id
  }

  /** Each candidate reports an alive node's true LSN. */
  ghost predicate Accurate(lsn: seq<nat>, alive: seq<bool>, cs: seq<Candidate>)
    requires |lsn| == |alive|
  {
    forall c :: c in cs ==> c.id < |lsn| && alive[c.id] && c.lsn == lsn[c.id]
  }

  /** The highest LSN any candidate reports. */
  ghost predicate IsTop(cs: seq<Candidate>, level: nat) {
    && (exists c :: c in cs && c.lsn == level)
    && (forall c :: c in cs ==> c.lsn <= level)
  }

  /** A candidate at the top with this recovery flag. */
  ghost predicate AtTop(cs: seq<Candidate>, level: nat, recovering: bool, id: nat) {
    Candidate(id, level, recovering) in cs
  }

  /** The least id out of recovery at the top, or the least one in recovery when there is none. */
  ghost predicate IsFront(cs: seq<Candidate>, level: nat, w: nat) {
    if exists id :: AtTop(cs, level, false, id)
    then AtTop(cs, level, false, w) && forall id :: AtTop(cs, level, false, id) ==> w <= id
    else AtTop(cs, level, true, w) && forall id :: AtTop(cs, level, true, id) ==> w <= id
  }

  /** The alive nodes the model ranks above a node with this LSN and id. */
  ghost function Ahead(lsn: seq<nat>, alive: seq<bool>, level: nat, w: nat): set<nat>
    requires |lsn| == |alive|
  {
    set x | 0 <= x < |lsn| && alive[x] && (lsn[x] > level || (lsn[x] == level && x < w))
  }

  /** What the comparator selects, read off the candidate list. */
  lemma ChoiceIsFront(cs: seq<Candidate>, level: nat, w: nat)
    requires IsTop(cs, level) && IsFront(cs, level, w)
    ensures ChoosePrimary(cs) == Some(w)
  {
    var top :| top in cs && top.lsn == level;
    var best := Best(cs);
    assert AtLeast(best, top);
    assert AtTop(cs, level, best.inRecovery, best.id);
    assert forall id :: AtTop(cs, level, false, id) ==> AtLeast(best, Candidate(id, level, false));
    assert forall id :: AtTop(cs, level, true, id) ==> AtLeast(best, Candidate(id, level, true));
  }

  lemma FrontExists(cs: seq<Candidate>) returns (level: nat, w: nat)
    requires cs != []
    ensures IsTop(cs, level) && IsFront(cs, level, w)
  {
    var best := Best(cs);
    level, w := best.lsn, best.id;
    assert AtTop(cs, level, best.inRecovery, w);
    forall id, recovering | AtTop(cs, level, recovering, id)
      ensures best.inRecovery ==> recovering
      ensures recovering == best.inRecovery ==> w <= id
    {
      assert AtLeast(best, Candidate(id, level, recovering));
    }
  }

  /** Those a node outranks are the alive ones not ahead of it. */
  lemma OutrankedAndAhead(lsn: seq<nat>, alive: seq<bool>, w: nat)
    requires |lsn| == |alive| && w < |lsn|
    ensures |Outranked(lsn, alive, w)| + |Ahead(lsn, alive, lsn[w], w)| == |D.Alive(|lsn|, alive)|
  {
    assert Outranked(lsn, alive, w) + Ahead(lsn, alive, lsn[w], w) == D.Alive(|lsn|, alive);
    assert Outranked(lsn, alive, w) !! Ahead(lsn, alive, lsn[w], w);
  }

  /**
   Over any candidates with accurate LSNs, whatever their recovery flags, the production choice is one of
   the model's possible new primaries exactly when the alive nodes above the front candidate, by LSN and
   then by id, leave at least a majority of alive nodes.
   */
  lemma ChooserFollowsModelExactly(c: D.Config, lsn: seq<nat>, alive: seq<bool>, cs: seq<Candidate>)
    returns (level: nat, w: nat)
    requires c.rule.AnyMajority? && |lsn| == |alive| == c.n && Accurate(lsn, alive, cs) && cs != []
    ensures IsTop(cs, level) && IsFront(cs, level, w)
    ensures ChoosePrimary(cs) == Some(w) && w < c.n
    ensures D.CanWin(c, lsn, alive, w)
            <==> |D.Alive(c.n, alive)| - |Ahead(lsn, alive, level, w)| >= Majority(c.n)
  {
    level, w := FrontExists(cs);
    ChoiceIsFront(cs, level, w);
    assert exists recovering :: AtTop(cs, level, recovering, w);
    CanWinExactly(c, lsn, alive, w);
    OutrankedAndAhead(lsn, alive, w);
  }

  /**
   In particular, with equal recovery flags and a majority of candidates, the choice is always one of
   the model's possible new primaries.
   */
  lemma ChooserRefinesModel(c: D.Config, lsn: seq<nat>, alive: seq<bool>, cs: seq<Candidate>)
    requires c.rule.AnyMajority? && |lsn| == |alive| == c.n && Accurate(lsn, alive, cs)
    requires |Ids(cs)| >= Majority(c.n)
    requires forall a, b :: a in cs && b in cs ==> a.inRecovery == b.inRecovery
    ensures ChoosePrimary(cs).Some? && ChoosePrimary(cs).value < c.n
    ensures D.CanWin(c, lsn, alive, ChoosePrimary(cs).value)
  {
    assert cs == [] ==> Ids(cs) == {};
    var w := Best(cs);
    SubsetSize(Ids(cs), Outranked(lsn, alive, w.id));
    CanWinExactly(c, lsn, alive, w.id);
  }

  /** With overlapping quorums, a node that no member of some majority is ahead of holds what is acknowledged. */
  lemma NobodyAheadHoldsAcked(c: D.Config, s: D.State, members: set<nat>, w: nat)
    requires c.Valid() && c.Overlapping() && D.Reachable(c, s) && D.Shaped(c, s) && w < c.n
    requires members <= Nodes(c.n) && |members| >= Majority(c.n)
    requires forall x :: x in members ==> s.lsn[x] <= s.lsn[w]
    ensures s.lsn[w] >= s.acked
  {
    var states, acts :| D.Run(c, states, acts) && states[|acts|] == s;
    D.AckHeldAlways(c, states, acts, |acts|);
    if s.acked > 0 {
      var x := Intersect(c.n, members, D.Holding(c.n, s.lsn, s.acked));
    }
  }

  /**
   Whatever the recovery flags, and so even where it leaves the model: with overlapping quorums the
   chosen node holds every acknowledged position.
   */
  lemma ChosenHoldsAcked(c: D.Config, s: D.State, cs: seq<Candidate>)
    requires c.Valid() && c.Overlapping() && D.Reachable(c, s)
    requires D.Shaped(c, s) && Accurate(s.lsn, s.alive, cs) && |Ids(cs)| >= Majority(c.n)
    ensures ChoosePrimary(cs).Some? && ChoosePrimary(cs).value < c.n
    ensures s.lsn[ChoosePrimary(cs).value] >= s.acked
  {
    assert cs == [] ==> Ids(cs) == {};
    var best := Best(cs);
    forall x | x in Ids(cs)
      ensures s.lsn[x] <= s.lsn[best.id]
    {
      var member :| member in cs && member.id == x;
      assert AtLeast(best, member);
    }
    NobodyAheadHoldsAcked(c, s, Ids(cs), best.id);
  }

  /** Mixed flags can go either way: the same flags, once against the model and once with it. */
  lemma MixedFlagsGoEitherWay()
    ensures var c := D.Config(3, 2, 2, 1, D.AnyMajority); var alive := [true, true, false];
            && ChoosePrimary([Candidate(0, 1, true), Candidate(1, 1, false)]) == Some(1)
            && !D.CanWin(c, [1, 1, 1], alive, 1)
            && ChoosePrimary([Candidate(0, 2, true), Candidate(1, 1, false)]) == Some(0)
            && D.CanWin(c, [2, 1, 1], alive, 0)
  {
    var c := D.Config(3, 2, 2, 1, D.AnyMajority);
    var alive := [true, true, false];
    CanWinExactly(c, [1, 1, 1], alive, 1);
    assert Outranked([1, 1, 1], alive, 1) == {1};
    CanWinExactly(c, [2, 1, 1], alive, 0);
    assert Outranked([2, 1, 1], alive, 0) == {0, 1};
  }
}
