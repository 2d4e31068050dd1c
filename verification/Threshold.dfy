/**
 The exact timing condition for non-overlap: what is certain of every pair of runs below it fails above
 it, for runs that both sides have been led up to from their processes' starts.
 */
module Threshold {
  import opened Quorum
  import opened Supervisor
  import opened SupervisorRuns
  import opened Effects
  import opened NonOverlap
  import Old = OldSide
  import New = NewSide

  /** From some pass on the old primary is fenced, and the first of these fences lands before the new one opens. */
  ghost predicate Separated(nodes: seq<Node>, inputs: seq<Input>, outs: seq<Output>, landing: Time, last: nat,
                            e: PassOf)
    requires last < |inputs| == |outs| && |nodes| == |inputs| + 1
  {
    exists f ::
      && 0 <= f <= last && (forall j :: f <= j <= last ==> Fenced(nodes, outs, j))
      && inputs[f].contactAt + landing < LastLook(e.i)
  }

  /** Both sides are as their processes' starts led up to them. */
  ghost predicate Led(c: Config, nodes: seq<Node>, inputs: seq<Input>, cs: map<NodeId, Config>, ws: seq<Cluster>) {
    && c.Valid() && nodes != [] && inputs != [] && ws != []
    && nodes[0] == Start(inputs[0].current, inputs[0].loopAt, nodes[0].server) && LedUpTo(cs, ws[0])
  }

  /** No timing of this kind lets the old primary's fence land after a new one has opened. */
  ghost predicate AlwaysSeparated(delay: Time, pace: Time, landing: Time, fenced: bool) {
    forall c: Config, near: set<NodeId>, nodes: seq<Node>, inputs: seq<Input>, outs: seq<Output>, cut: Time,
           m: nat, b: nat, last: nat, cs: map<NodeId, Config>, ws: seq<Cluster>, es: seq<PassOf>, k: nat
      {:trigger Scenario(c, near, nodes, inputs, outs, Timing(cut, delay, pace, landing), m, b, last, cs, ws, es, k)} ::
      Scenario(c, near, nodes, inputs, outs, Timing(cut, delay, pace, landing), m, b, last, cs, ws, es, k)
      && Led(c, nodes, inputs, cs, ws) && (fenced ==> PromotionsFenced(es))
      ==> Separated(nodes, inputs, outs, landing, last, es[k])
  }

  function Bound(fenced: bool): Time {
    if fenced then 2802 else 1302
  }

  /** At a pace of zero no time passes, and there is no such scenario. */
  lemma NoStandstill(c: Config, near: set<NodeId>, nodes: seq<Node>, inputs: seq<Input>, outs: seq<Output>, t: Timing,
                     m: nat, b: nat, last: nat, cs: map<NodeId, Config>, ws: seq<Cluster>, es: seq<PassOf>, k: nat)
    requires Scenario(c, near, nodes, inputs, outs, t, m, b, last, cs, ws, es, k)
    ensures t.pace > 0
  {
    var f := FirstContact(inputs, t.pace, t.cut + t.delay + t.pace + QUORUM_LEASE, last);
  }

  lemma BelowBound(delay: Time, pace: Time, landing: Time, fenced: bool)
    requires pace == 0 || delay + 7 * pace + landing < Bound(fenced)
    ensures AlwaysSeparated(delay, pace, landing, fenced)
  {
    hide Scenario, Fenced, LastLook, PromotionsFenced, Led;
    forall c: Config, near: set<NodeId>, nodes: seq<Node>, inputs: seq<Input>, outs: seq<Output>, cut: Time,
           m: nat, b: nat, last: nat, cs: map<NodeId, Config>, ws: seq<Cluster>, es: seq<PassOf>, k: nat |
      Scenario(c, near, nodes, inputs, outs, Timing(cut, delay, pace, landing), m, b, last, cs, ws, es, k)
      && (fenced ==> PromotionsFenced(es))
      ensures last < |inputs| == |outs| && |nodes| == |inputs| + 1 && k < |es|
      ensures Separated(nodes, inputs, outs, landing, last, es[k])
    {
      var t := Timing(cut, delay, pace, landing);
      NoStandstill(c, near, nodes, inputs, outs, t, m, b, last, cs, ws, es, k);
      var f := TimedNonOverlap(c, near, nodes, inputs, outs, t, m, b, last, cs, ws, es, k);
    }
  }

  /** A pace both sides can keep that is within the given one and just as much too slow. */
  function Kept(pace: Time): Old.Pace
    requires pace >= 1
  {
    if pace <= 401 then pace else 401
  }

  /** The majority side opens as early as it can. */
  lemma OpensEarly(s: Time, fenced: bool) returns (ws: seq<Cluster>, es: seq<PassOf>)
    ensures es != [] && ClusterRun(New.ONE, 3, ws, es) && StartsFollowing(ws[0], 3, s) && LedUpTo(New.ONE, ws[0])
    ensures OpenDuring(ws[|es| - 1], es[|es| - 1]) && LastLook(es[|es| - 1].i) == s + Quiet(fenced)
    ensures fenced ==> PromotionsFenced(es)
  {
    hide ClusterRun, StartsFollowing, OpenDuring, LastLook, LedUpTo, PromotionsFenced;
    if fenced {
      ws, es := New.WaitIsTight(s);
    } else {
      ws, es := New.FailedFenceIsTight(s);
    }
  }

  /** The number of passes after which the old primary's lease has certainly run out. */
  function Passes(p: Old.Pace, delay: Time, pace: Time): nat {
    Old.Cut(p) + delay + pace + QUORUM_LEASE + 2
  }

  lemma OldScenario(p: Old.Pace, delay: Time, pace: Time, landing: Time, ws: seq<Cluster>, es: seq<PassOf>)
    requires p <= pace && es != []
    requires ClusterRun(New.ONE, 3, ws, es) && StartsFollowing(ws[0], 3, 1504 * p)
    requires OpenDuring(ws[|es| - 1], es[|es| - 1])
    ensures var n := Passes(p, delay, pace);
            Scenario(Old.OLD, {}, Old.Nodes(p, delay, n), Old.Inputs(p, delay, n), Old.Outs(p, delay, n),
                     Timing(Old.Cut(p), delay, pace, landing), Old.LAST_CAST + 4, Old.LAST_CAST, n - 1,
                     New.ONE, ws, es, |es| - 1)
  {
    hide ClusterRun, StartsFollowing, OpenDuring, Run, Paced, CutOff, LastBroadcast, Cached;
    hide Old.Nodes, Old.Inputs, Old.Outs;
    var n := Passes(p, delay, pace);
    var t := Timing(Old.Cut(p), delay, pace, landing);
    Old.OldRuns(p, delay, n);
    Old.OldPaced(p, delay, n, pace);
    Old.OldCutOff(p, delay, n, t);
    Old.OldCasts(p, delay, n);
    OldStarts(p, delay, n);
    OldEnds(p, delay, n);
  }

  lemma OldStarts(p: Old.Pace, delay: Time, n: nat)
    requires n > 0
    ensures var nodes, inputs := Old.Nodes(p, delay, n), Old.Inputs(p, delay, n);
            && nodes[0] == Start(inputs[0].current, inputs[0].loopAt, nodes[0].server)
            && Cached(nodes[0].auth, nodes[0].server)
  {
    Old.OldTimes(p, delay, 0);
  }

  lemma OldEnds(p: Old.Pace, delay: Time, n: nat)
    requires n > 0
    ensures var inputs := Old.Inputs(p, delay, n);
            && inputs[n - 1].contactAt + 2 >= n
            && forall k :: 0 <= k < n ==> !inputs[k].inRecovery && inputs[k].fenceOk
  {
    hide Old.OldInput, Old.Begins, Old.Looks;
    var inputs := Old.Inputs(p, delay, n);
    forall k | 0 <= k < n
      ensures !inputs[k].inRecovery && inputs[k].fenceOk && inputs[k].contactAt == Old.Looks(p, delay, k)
    {
      Old.OldTimes(p, delay, k);
    }
    Old.TimePasses(p, delay, n - 1);
    Old.NextBegins(p, delay, n - 1);
  }

  /** The old primary is open until its lease lapses, so its first lasting fence is a pace later. */
  lemma OldFencesLate(p: Old.Pace, delay: Time, n: nat, f: nat)
    requires n > Old.Lapses(p, delay) + 1 && f < n
    requires forall j :: f <= j < n ==> Fenced(Old.Nodes(p, delay, n), Old.Outs(p, delay, n), j)
    ensures Old.Inputs(p, delay, n)[f].contactAt >= Old.Lapses(p, delay) + p
  {
    hide Tick, Old.OldInput, Old.Begins, Old.Looks, Old.OldNode;
    Old.CutTimes(p, delay);
    var g := Old.ReachesLapse(p, delay, Old.LAST_CAST + 5);
    Old.TimePasses(p, delay, g);
    Old.OldOpenAt(p, delay, g);
    assert !Fenced(Old.Nodes(p, delay, n), Old.Outs(p, delay, n), g);
    Old.LooksInOrder(p, delay, g + 1, f);
    Old.NextBegins(p, delay, g + 1);
    Old.OldTimes(p, delay, f);
  }

  lemma AtBound(delay: Time, pace: Time, landing: Time, fenced: bool)
    requires pace >= 1 && delay + 7 * pace + landing >= Bound(fenced)
    ensures !AlwaysSeparated(delay, pace, landing, fenced)
  {
    hide Scenario, Fenced, LastLook, PromotionsFenced, ClusterRun, StartsFollowing, OpenDuring, LedUpTo;
    hide Old.Nodes, Old.Inputs, Old.Outs;
    var p := Kept(pace);
    var n := Passes(p, delay, pace);
    var kept: Time := p;
    var ws, es := OpensEarly(1504 * kept, fenced);
    OldScenario(p, delay, pace, landing, ws, es);
    OldStarts(p, delay, n);
    var nodes, inputs, outs := Old.Nodes(p, delay, n), Old.Inputs(p, delay, n), Old.Outs(p, delay, n);
    assert Led(Old.OLD, nodes, inputs, New.ONE, ws) by { RunNotEmpty(ws, es); }
    if Separated(nodes, inputs, outs, landing, n - 1, es[|es| - 1]) {
      var f :| 0 <= f <= n - 1 && (forall j :: f <= j <= n - 1 ==> Fenced(nodes, outs, j))
               && inputs[f].contactAt + landing < LastLook(es[|es| - 1].i);
      OldFencesLate(p, delay, n, f);
      assert false;
    }
  }

  lemma RunNotEmpty(ws: seq<Cluster>, es: seq<PassOf>)
    requires ClusterRun(New.ONE, 3, ws, es)
    ensures |ws| == |es| + 1
  {
  }

  /**
   The fence of a cut-off primary always lands before a server of the majority side takes writes exactly
   when delay + 7 paces + landing is under 2802 ms, or under 1302 ms where promotions' fences may fail.
   */
  lemma NonOverlapExactly(delay: Time, pace: Time, landing: Time, fenced: bool)
    ensures AlwaysSeparated(delay, pace, landing, fenced)
            <==> pace == 0 || delay + 7 * pace + landing < Bound(fenced)
  {
    if pace == 0 || delay + 7 * pace + landing < Bound(fenced) {
      BelowBound(delay, pace, landing, fenced);
    } else {
      AtBound(delay, pace, landing, fenced);
    }
  }
}
