/**
 The old primary at its latest: node 3, open since a confirm window after its process's start, broadcasts
 for the last time five paces before it is cut off, drains what arrived last a pace later, and looks at
 its quorum a pace after its lease was last good. `p` is the pace it keeps, `d` the delay of messages.
 */
module OldSide {
  import opened Quorum
  import opened Supervisor
  import opened SupervisorRuns
  import opened Effects
  import opened Scenarios
  import opened NonOverlap

  const OLD: Config := Config(3, [1, 2, 3], true, false, {1, 2, 3})
  const HELD: Option<Decision> := Some(Decision(1, 3))

  /** The pass of the last broadcast, long enough after the start for every pace. */
  const LAST_CAST: nat := 1504

  type Pace = p: Time | 1 <= p <= 401 witness 1

  // -------------------------------------------------------------------------- the times

  /** The cut, one millisecond before the broadcast that would have been next. */
  function Cut(p: Pace): Time { 1509 * p - 1 }

  /** When the last message in flight arrives, when it is drained, and when the lease last holds. */
  function Arrives(p: Pace, d: Time): Time { Cut(p) + d }
  function Drains(p: Pace, d: Time): Time { Arrives(p, d) + p }
  function Lapses(p: Pace, d: Time): Time { Drains(p, d) + QUORUM_LEASE - 1 }

  function Sooner(a: Time, b: Time): Time { if a <= b then a else b }

  /** A pace on, but stopping at the last arrival and at the last moment of the lease. */
  function Onward(p: Pace, d: Time, a: Time): Time {
    if a < Arrives(p, d) then Sooner(a + p, Arrives(p, d))
    else if a < Lapses(p, d) then Sooner(a + p, Lapses(p, d))
    else a + p
  }

  /** When pass k starts, drains and adopts; the pass at the cut does so a millisecond early. */
  function Begins(p: Pace, d: Time, k: nat): Time {
    if k == 0 then 0
    else if k <= LAST_CAST + 4 then Begins(p, d, k - 1) + p
    else if k == LAST_CAST + 5 then Begins(p, d, k - 1) + p - 1
    else Onward(p, d, Begins(p, d, k - 1))
  }

  /** When pass k gossips and looks at its quorum. */
  function Looks(p: Pace, d: Time, k: nat): Time {
    if k == LAST_CAST + 5 then Begins(p, d, k) + 1 else Begins(p, d, k)
  }

  lemma {:induction false} EarlyTimes(p: Pace, d: Time, k: nat)
    requires k <= LAST_CAST + 4
    ensures Begins(p, d, k) == k * p
  {
    if k > 0 {
      EarlyTimes(p, d, k - 1);
      assert k * p == (k - 1) * p + p;
    }
  }

  lemma CutTimes(p: Pace, d: Time)
    ensures Begins(p, d, LAST_CAST) == 1504 * p && Begins(p, d, LAST_CAST + 4) == 1508 * p
    ensures Begins(p, d, LAST_CAST + 5) == Cut(p) && Looks(p, d, LAST_CAST + 5) == 1509 * p
  {
    EarlyTimes(p, d, LAST_CAST);
    EarlyTimes(p, d, LAST_CAST + 4);
    hide Onward;
    assert Begins(p, d, LAST_CAST + 5) == Begins(p, d, LAST_CAST + 4) + p - 1;
  }

  /** Successive passes are in order and at most a pace apart. */
  lemma NextBegins(p: Pace, d: Time, k: nat)
    ensures Begins(p, d, k) <= Begins(p, d, k + 1) <= Begins(p, d, k) + p
    ensures k != LAST_CAST + 4 ==> Begins(p, d, k) < Begins(p, d, k + 1)
    ensures Looks(p, d, k) <= Looks(p, d, k + 1) <= Looks(p, d, k) + p
    ensures Begins(p, d, k) <= Looks(p, d, k) <= Begins(p, d, k) + 1
  {
  }

  lemma {:induction false} LooksInOrder(p: Pace, d: Time, j: nat, k: nat)
    requires j <= k
    ensures Looks(p, d, j) <= Looks(p, d, k) && Begins(p, d, j) <= Begins(p, d, k)
    decreases k
  {
    hide Begins, Looks;
    if j < k {
      LooksInOrder(p, d, j, k - 1);
      NextBegins(p, d, k - 1);
    }
  }

  lemma {:induction false} TimePasses(p: Pace, d: Time, k: nat)
    ensures Begins(p, d, k) + 1 >= k && (k <= LAST_CAST + 4 ==> Begins(p, d, k) >= k)
  {
    if k > 0 {
      TimePasses(p, d, k - 1);
      NextBegins(p, d, k - 1);
    }
  }

  /** No pass begins strictly between the last arrival and its draining. */
  lemma {:induction false} DrainedAtOnce(p: Pace, d: Time, k: nat)
    ensures Begins(p, d, k) <= Arrives(p, d) || Begins(p, d, k) >= Drains(p, d)
  {
    if k <= LAST_CAST + 5 {
      CutTimes(p, d);
      LooksInOrder(p, d, k, LAST_CAST + 5);
    } else {
      DrainedAtOnce(p, d, k - 1);
    }
  }

  /** The pass that drains the last arrival follows one that began no later than it arrived. */
  lemma BeforeDraining(p: Pace, d: Time, k: nat)
    requires k > 0 && Begins(p, d, k) <= Drains(p, d)
    ensures Begins(p, d, k - 1) <= Arrives(p, d)
  {
    NextBegins(p, d, k - 1);
    DrainedAtOnce(p, d, k - 1);
    if k - 1 == LAST_CAST + 4 {
      CutTimes(p, d);
    }
  }

  /** Some pass begins at the last moment of the lease; the next is a pace later. */
  lemma {:induction false} ReachesLapse(p: Pace, d: Time, k: nat) returns (g: nat)
    requires k >= LAST_CAST + 5 && Begins(p, d, k) <= Lapses(p, d)
    ensures g >= k && Begins(p, d, g) == Lapses(p, d) && Begins(p, d, g + 1) == Lapses(p, d) + p
    decreases Lapses(p, d) - Begins(p, d, k)
  {
    if Begins(p, d, k) == Lapses(p, d) {
      g := k;
    } else {
      assert Begins(p, d, k + 1) == Onward(p, d, Begins(p, d, k));
      g := ReachesLapse(p, d, k + 1);
    }
  }

  // ------------------------------------------------------------------------- the passes

  /** What node 1, a standby, gossips. */
  const GOSSIP: Gossip := Gossip(0, true, false, 1)

  /** Node 1 is heard in every pass up to the one that drains what arrived last. */
  function OldInput(p: Pace, d: Time, k: nat): Input {
    var inbox := if Begins(p, d, k) <= Drains(p, d) then [Message(1, Some(GOSSIP), Begins(p, d, k))] else [];
    QuietInput(Looks(p, d, k), inbox, HELD, false).(loopAt := Begins(p, d, k), adoptAt := Begins(p, d, k))
  }

  function OldNode(p: Pace, d: Time, k: nat): Node {
    if k == 0 then Start(HELD, 0, Server(true, Off))
    else Tick(OLD, OldNode(p, d, k - 1), OldInput(p, d, k - 1)).0
  }

  /** The confirm window has passed since the start. */
  predicate Opened(p: Pace, d: Time, k: nat) {
    k > 0 && Begins(p, d, k - 1) >= CONFIRM_WINDOW
  }

  /** When node 1 was last heard before pass k. */
  function HeardAt(p: Pace, d: Time, k: nat): Time
    requires k > 0
  {
    Sooner(Begins(p, d, k - 1), Drains(p, d))
  }

  ghost predicate OldInv(p: Pace, d: Time, x: Node, k: nat) {
    && x.auth.decided == HELD && !x.auth.reconfirmPending
    && x.auth.lastLoop == (if k == 0 then 0 else Begins(p, d, k - 1)) && Cached(x.auth, x.server)
    && (Opened(p, d, k) ==> x.auth.appliedReadOnly == Some(false))
    && (!Opened(p, d, k) ==> x.auth.appliedReadOnly != Some(false)
                             && x.auth.authorizedSince == if k == 0 then None else Some(0))
    && (k > 0 ==> 1 in x.peers.heard && x.peers.heard[1] == HeardAt(p, d, k))
  }

  /** Up to the last moment of the lease every pass is in touch with node 1. */
  lemma OldInTouch(p: Pace, d: Time, x: Node, k: nat)
    requires OldInv(p, d, x, k) && Begins(p, d, k) <= Lapses(p, d)
    ensures InTouch(OLD, x, OldInput(p, d, k), 1)
    ensures Drain(x.peers, OldInput(p, d, k).inbox).heard[1] == HeardAt(p, d, k + 1)
  {
    hide Begins;
    NextBegins(p, d, k);
    CutTimes(p, d);
    if Begins(p, d, k) <= Drains(p, d) {
      DrainOne(x.peers, OldInput(p, d, k).inbox[0]);
    } else {
      EmptyDrain(x.peers);
      OldHeardLast(p, d, k);
    }
  }

  /** After the draining pass node 1 stays heard at that instant. */
  lemma OldHeardLast(p: Pace, d: Time, k: nat)
    requires Begins(p, d, k) > Drains(p, d)
    ensures k > 0 && HeardAt(p, d, k) == Drains(p, d) && Looks(p, d, k) == Begins(p, d, k)
  {
    CutTimes(p, d);
    if k <= LAST_CAST + 5 {
      LooksInOrder(p, d, k, LAST_CAST + 5) by { hide Begins; }
      assert false;
    }
    assert Begins(p, d, k) == Onward(p, d, Begins(p, d, k - 1));
    hide Begins;
    DrainedAtOnce(p, d, k - 1);
  }

  lemma OldTimes(p: Pace, d: Time, k: nat)
    ensures var i := OldInput(p, d, k);
            && i.Ordered() && i.loopAt == i.adoptAt == Begins(p, d, k)
            && i.gossipAt == i.contactAt == i.authAt == i.checkAt == Looks(p, d, k)
            && i.current == HELD && !i.inRecovery && i.fenceOk && i.unfenceOk
  {
    NextBegins(p, d, k);
  }

  /** While the lease holds the primary opens when its window has passed, and stays open. */
  lemma OldPass(p: Pace, d: Time, x: Node, k: nat)
    requires OldInv(p, d, x, k) && Begins(p, d, k) <= Lapses(p, d)
    ensures var (x', o) := Tick(OLD, x, OldInput(p, d, k));
            OldInv(p, d, x', k + 1) && (Opened(p, d, k + 1) ==> o.authorized && !x'.server.readOnly)
  {
    hide Tick, Begins, Looks, OldInput, Drain, Onward;
    var i := OldInput(p, d, k);
    OldTimes(p, d, k);
    OldInTouch(p, d, x, k);
    TickSettings(OLD, x, i);
    OldUnstalled(p, d, k);
    if Opened(p, d, k) {
      NextBegins(p, d, k - 1);
      var _ := OpenPass(OLD, x, i, 1);
    } else {
      OldEarly(p, d, k);
      var _ := ServingPass(OLD, x, i, 1);
    }
  }

  lemma OldUnstalled(p: Pace, d: Time, k: nat)
    ensures Begins(p, d, k) <= (if k == 0 then 0 else Begins(p, d, k - 1)) + STALL_THRESHOLD
  {
    hide Begins;
    if k > 0 {
      NextBegins(p, d, k - 1);
    } else {
      EarlyTimes(p, d, 0);
    }
  }

  /** The window passes well before the cut. */
  lemma OldEarly(p: Pace, d: Time, k: nat)
    requires !Opened(p, d, k)
    ensures Looks(p, d, k) == Begins(p, d, k) && (k == 0 ==> Looks(p, d, k) == 0)
  {
    hide Onward;
    if k > 0 {
      TimePasses(p, d, k - 1);
    }
  }

  lemma {:induction false} OldInvAt(p: Pace, d: Time, k: nat)
    requires k > 0 ==> Begins(p, d, k - 1) <= Lapses(p, d)
    ensures OldInv(p, d, OldNode(p, d, k), k)
  {
    hide Tick, OldInput, Begins, Lapses, Drains;
    if k > 0 {
      if k > 1 {
        NextBegins(p, d, k - 2);
      }
      OldInvAt(p, d, k - 1);
      OldPass(p, d, OldNode(p, d, k - 1), k - 1);
    }
  }

  // --------------------------------------------------------------------------- the run

  function Nodes(p: Pace, d: Time, n: nat): (r: seq<Node>)
    ensures |r| == n + 1
  {
    seq(n + 1, k requires 0 <= k < n + 1 => OldNode(p, d, k))
  }

  function Inputs(p: Pace, d: Time, n: nat): (r: seq<Input>)
    ensures |r| == n
  {
    seq(n, k requires 0 <= k < n => OldInput(p, d, k))
  }

  function Outs(p: Pace, d: Time, n: nat): (r: seq<Output>)
    ensures |r| == n
  {
    seq(n, k requires 0 <= k < n => Tick(OLD, OldNode(p, d, k), OldInput(p, d, k)).1)
  }

  lemma LastLoopIs(p: Pace, d: Time, k: nat)
    ensures OldNode(p, d, k).auth.lastLoop <= OldInput(p, d, k).loopAt
  {
    hide Tick, OldInput, Begins;
    OldTimes(p, d, k);
    if k > 0 {
      var x, i := OldNode(p, d, k - 1), OldInput(p, d, k - 1);
      OldTimes(p, d, k - 1);
      NextBegins(p, d, k - 1);
      TickFrame(OLD, x, i);
      PrepareFrame(OLD, x, i);
    }
  }

  lemma OldRuns(p: Pace, d: Time, n: nat)
    ensures Run(OLD, Nodes(p, d, n), Inputs(p, d, n), Outs(p, d, n))
  {
    hide Tick, OldInput;
    var nodes, inputs, outs := Nodes(p, d, n), Inputs(p, d, n), Outs(p, d, n);
    forall k | 0 <= k < n
      ensures PassAt(OLD, nodes, inputs, outs, k)
    {
      LastLoopIs(p, d, k);
      OldTimes(p, d, k);
      assert OldNode(p, d, k + 1) == Tick(OLD, OldNode(p, d, k), OldInput(p, d, k)).0;
    }
  }

  lemma OldPaced(p: Pace, d: Time, n: nat, pace: Time)
    requires pace >= p
    ensures Paced(Inputs(p, d, n), pace)
  {
    hide OldInput, Begins, Looks;
    var inputs := Inputs(p, d, n);
    forall k | 0 < k < n
      ensures InStep(inputs, pace, k)
    {
      OldTimes(p, d, k);
      OldTimes(p, d, k - 1);
      NextBegins(p, d, k - 1);
    }
  }

  lemma OldMessage(p: Pace, d: Time, k: nat, j: nat)
    requires j < |OldInput(p, d, k).inbox|
    ensures Begins(p, d, k) <= Drains(p, d) && OldInput(p, d, k).inbox[j].at == Begins(p, d, k)
  {
  }

  /** Whatever node 1 sent arrives by the cut plus the delay. */
  lemma OldCutOff(p: Pace, d: Time, n: nat, t: Timing)
    requires n > 0 && t.cut == Cut(p) && t.delay == d
    ensures CutOff(OLD, {}, Nodes(p, d, n), Inputs(p, d, n), t)
  {
    hide OldInput, Begins, Looks;
    var inputs := Inputs(p, d, n);
    forall k, j | 0 <= k < n && 0 <= j < |inputs[k].inbox|
      ensures ArrivedBy(inputs, k, inputs[k].inbox[j], t.cut + t.delay)
    {
      OldMessage(p, d, k, j);
      if k > 0 {
        BeforeDraining(p, d, k);
        NextBegins(p, d, k - 1);
        OldTimes(p, d, k - 1);
      }
      assert Queued(inputs, k, inputs[k].inbox[j], Sooner(Begins(p, d, k), Arrives(p, d)));
    }
    OldTimes(p, d, 0);
    CutTimes(p, d);
    LooksInOrder(p, d, 0, LAST_CAST);
    assert Looks(p, d, LAST_CAST) == Begins(p, d, LAST_CAST) by { LooksAtBegin(p, d, LAST_CAST); }
    assert Nodes(p, d, n)[0] == Start(HELD, 0, Server(true, Off));
  }

  lemma LooksAtBegin(p: Pace, d: Time, k: nat)
    requires k != LAST_CAST + 5
    ensures Looks(p, d, k) == Begins(p, d, k)
  {
  }

  /** The last broadcast before the cut is five paces and a millisecond short of the next. */
  lemma OldCasts(p: Pace, d: Time, n: nat)
    requires n > LAST_CAST + 5
    ensures var inputs := Inputs(p, d, n);
            && LastBroadcast(inputs, Outs(p, d, n), Cut(p), LAST_CAST)
            && inputs[LAST_CAST].gossipAt == 1504 * p
            && inputs[LAST_CAST + 4].gossipAt <= Cut(p) < inputs[LAST_CAST + 5].gossipAt
  {
    hide Tick, OldInput, Begins, Looks;
    var nodes, inputs, outs := Nodes(p, d, n), Inputs(p, d, n), Outs(p, d, n);
    CutTimes(p, d);
    LooksAtBegin(p, d, LAST_CAST);
    LooksAtBegin(p, d, LAST_CAST + 4);
    OldTimes(p, d, LAST_CAST);
    OldTimes(p, d, LAST_CAST + 4);
    OldTimes(p, d, LAST_CAST + 5);
    OldRuns(p, d, n);
    forall k | 0 <= k < n
      ensures outs[k].gossip.Some? <==> (k + 1) % 5 == 0
    {
      TicksAt(OLD, nodes, inputs, outs, 0, k);
      TickCounts(OLD, nodes[k], inputs[k]);
      assert nodes[0] == Start(HELD, 0, Server(true, Off));
    }
    forall k | LAST_CAST < k < n && outs[k].gossip.Some?
      ensures inputs[k].gossipAt > Cut(p)
    {
      OldTimes(p, d, k);
      LooksInOrder(p, d, LAST_CAST + 5, k);
    }
  }

  /** The primary is open in the pass at the last moment of its lease. */
  lemma OldOpenAt(p: Pace, d: Time, g: nat)
    requires Begins(p, d, g) == Lapses(p, d) && g > LAST_CAST
    ensures Tick(OLD, OldNode(p, d, g), OldInput(p, d, g)).1.authorized
    ensures !Tick(OLD, OldNode(p, d, g), OldInput(p, d, g)).0.server.readOnly
  {
    hide Tick, OldInput, Begins;
    NextBegins(p, d, g - 1);
    OldInvAt(p, d, g);
    CutTimes(p, d);
    OldPass(p, d, OldNode(p, d, g), g);
  }
}
