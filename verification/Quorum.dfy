/** Majorities over the node set 0..n-1, and the counting facts every quorum argument rests on. */
module Quorum {

  datatype Option<+T> = None | Some(value: T) {
    function GetOr(default: T): T {
      if Some? then value else default
    }
  }

  /** A strict majority of n voters. */
  function Majority(n: nat): (m: nat)
    ensures n < 2 * m <= n + 2
  {
    n / 2 + 1
  }

  /** The nodes lo..hi-1, of which there are hi - lo. */
  ghost function Range(lo: nat, hi: nat): (r: set<nat>)
    requires lo <= hi
    ensures forall i: nat :: i in r <==> lo <= i < hi
    ensures |r| == hi - lo
    decreases hi
  {
    if lo == hi then {} else Range(lo, hi - 1) + {hi - 1}
  }

  ghost function Nodes(n: nat): (r: set<nat>)
    ensures forall i: nat :: i in r <==> i < n
    ensures |r| == n
  {
    Range(0, n)
  }

  lemma {:induction false} SubsetSize<T>(a: set<T>, b: set<T>)
    requires a <= b
    ensures |a| <= |b|
  {
    if a != {} {
      var x :| x in a;
      SubsetSize(a - {x}, b - {x});
    }
  }

  /** A subset as large as the whole is the whole. */
  lemma FullSubset<T>(a: set<T>, b: set<T>)
    requires a <= b && |a| >= |b|
    ensures a == b
  {
    if x :| x in b && x !in a {
      SubsetSize(a, b - {x});
    }
  }

  /** Two node sets whose sizes add up to more than n share a node. */
  lemma Intersect(n: nat, a: set<nat>, b: set<nat>) returns (x: nat)
    requires a <= Nodes(n) && b <= Nodes(n)
    requires |a| + |b| > n
    ensures x in a && x in b
  {
    if a * b == {} {
      SubsetSize(a + b, Nodes(n));
      assert false;
    }
    x :| x in a * b;
  }
}
