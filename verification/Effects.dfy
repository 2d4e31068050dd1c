/**
 The effects of a pass replayed on the server one after the other: what holds between any two of them,
 and when a server is left, or passes through being, writable without its synchronous standbys.
 */
module Effects {
  import opened Quorum
  import opened Supervisor
  import opened SupervisorRuns
  import opened Scenarios

  function AfterEffect(v: Server, e: Effect): Server {
    match e
    case ClearSync(ok) => if ok then v.(sync := Off) else v
    case PromoteFence(ok) => if ok then v.(readOnly := true) else v
    case Fence(ok) => if ok then v.(readOnly := true) else v
    case SetSync(names, ok) => if ok then v.(sync := names) else v
    case Unfence(ok) => if ok then v.(readOnly := false) else v
    case Promote(_) => v
    case Repoint(_, _) => v
    case Rejoin(_) => v
  }

  function Replay(v: Server, effects: seq<Effect>): Server
    decreases |effects|
  {
    if effects == [] then v else AfterEffect(Replay(v, effects[..|effects| - 1]), effects[|effects| - 1])
  }

  lemma {:induction false} ReplayConcat(v: Server, a: seq<Effect>, b: seq<Effect>)
    ensures Replay(v, a + b) == Replay(Replay(v, a), b)
    decreases |b|
  {
    if b == [] {
      assert a + b == a;
    } else {
      ReplayConcat(v, a, b[..|b| - 1]);
      assert (a + b)[..|a + b| - 1] == a + b[..|b| - 1];
    }
  }

  /** A step of at most one effect. */
  lemma ReplayShort(v: Server, effects: seq<Effect>)
    requires |effects| <= 1
    ensures Replay(v, effects) == if effects == [] then v else AfterEffect(v, effects[0])
  {
    if effects != [] {
      assert effects[..0] == [];
    }
  }

  // ------------------------------------------------------------------ within one pass

  /** The server before, between and after the three settings steps of a pass out of recovery. */
  datatype Stages = Stages(fenced: Local, e1: seq<Effect>, synced: Local, e2: seq<Effect>,
                           unfenced: Local, e3: seq<Effect>)

  function StagesOf(c: Config, l: Local, authorized: bool, i: Input): Stages {
    var (l1, e1) := FenceStep(l, authorized, i.fenceOk);
    var (l2, e2) := SyncStep(l1, WantSync(c, l1.a, authorized), i.syncOk);
    var (l3, e3) := UnfenceStep(l2, authorized, i.unfenceOk);
    Stages(l1, e1, l2, e2, l3, e3)
  }

  /** The settings a pass out of recovery starts enforcing from, and with what authority. */
  function Authorized(c: Config, x: Node, i: Input): (Local, bool) {
    var y := Entering(c, x, i);
    var (a, authorized) := Authorize(y.auth, RawAuth(c, y.peers, y.auth, i.contactAt), i.authAt, i.checkAt);
    (Local(a, x.server), authorized)
  }

  /** Each settings step has at most one effect, which accounts for its change of the server. */
  lemma StagesReplay(c: Config, l: Local, authorized: bool, i: Input)
    ensures var t := StagesOf(c, l, authorized, i);
            && |t.e1| <= 1 && |t.e2| <= 1 && |t.e3| <= 1
            && Replay(l.v, t.e1) == t.fenced.v && Replay(t.fenced.v, t.e2) == t.synced.v
            && Replay(t.synced.v, t.e3) == t.unfenced.v
  {
    var t := StagesOf(c, l, authorized, i);
    ReplayShort(l.v, t.e1);
    ReplayShort(t.fenced.v, t.e2);
    ReplayShort(t.synced.v, t.e3);
  }

  /** Every pass out of recovery is its three settings steps, then possibly a rejoin. */
  lemma ServingEffects(c: Config, x: Node, i: Input) returns (t: Stages, rest: seq<Effect>)
    requires !i.inRecovery
    ensures var (x', o) := Tick(c, x, i); var (l, authorized) := Authorized(c, x, i);
            && authorized == o.authorized && l.v == x.server && l.a.decided == x'.auth.decided
            && t == StagesOf(c, l, authorized, i)
            && o.effects == t.e1 + t.e2 + t.e3 + rest && x'.server == t.unfenced.v
            && (forall e :: e in rest ==> e.Rejoin?) && |rest| <= 1
  {
    hide Tick, Entering, Prepare, Proposal, RawAuth, SlotChores, RejoinChores, Rejoins, Recover, FenceStep, SyncStep,
         UnfenceStep, WantSync;
    var y := Entering(c, x, i);
    var (l, authorized) := Authorized(c, x, i);
    t := StagesOf(c, l, authorized, i);
    var h := SlotChores(c, y.auth, y.chores);
    rest := if Rejoins(c, l.a, h, authorized, i) then [Rejoin(DecidedPrimary(l.a))] else [];
    TickSplits(c, x, i);
    ServeFrame(c, y, i);
  }

  /** The server before the m-th effect of a pass. */
  function Before(x: Node, o: Output, m: nat): Server
    requires m <= |o.effects|
  {
    Replay(x.server, o.effects[..m])
  }

  /** Four steps of at most one effect: every cut of them falls between two steps. */
  lemma CutSteps(v: Server, e1: seq<Effect>, e2: seq<Effect>, e3: seq<Effect>, e4: seq<Effect>, m: nat)
    requires |e1| <= 1 && |e2| <= 1 && |e3| <= 1 && |e4| <= 1 && m <= |e1 + e2 + e3 + e4|
    ensures var v1 := Replay(v, e1); var v2 := Replay(v1, e2); var v3 := Replay(v2, e3); var v4 := Replay(v3, e4);
            && Replay(v, (e1 + e2 + e3 + e4)[..m]) in {v, v1, v2, v3, v4}
            && (m == |e1 + e2| ==> Replay(v, (e1 + e2 + e3 + e4)[..m]) == v2)
            && (m == |e1 + e2 + e3 + e4| ==> Replay(v, (e1 + e2 + e3 + e4)[..m]) == v4)
  {
    hide Replay;
    var all := e1 + e2 + e3 + e4;
    ReplayShort(v, []);
    ReplayConcat(v, e1, e2);
    ReplayConcat(v, e1 + e2, e3);
    ReplayConcat(v, e1 + e2 + e3, e4);
    assert all[..0] == [] && all[..|all|] == all && all[..|e1|] == e1;
    assert all[..|e1 + e2|] == e1 + e2 && all[..|e1 + e2 + e3|] == e1 + e2 + e3;
    assert m == 0 || m == |e1| || m == |e1 + e2| || m == |e1 + e2 + e3| || m == |all|;
  }

  /** Between any two effects of a pass out of recovery, the server is as one of its steps left it. */
  lemma BetweenSteps(c: Config, x: Node, i: Input, m: nat)
    requires !i.inRecovery && m <= |Tick(c, x, i).1.effects|
    ensures var o := Tick(c, x, i).1; var (l, authorized) := Authorized(c, x, i);
            var t := StagesOf(c, l, authorized, i);
            && Before(x, o, m) in {x.server, t.fenced.v, t.synced.v, t.unfenced.v}
            && (m < |o.effects| && o.effects[m].Unfence? ==> Before(x, o, m) == t.synced.v)
  {
    hide Tick, Authorized, Replay, WantSync;
    var (l, authorized) := Authorized(c, x, i);
    var t, rest := ServingEffects(c, x, i);
    StagesReplay(c, l, authorized, i);
    ReplayShort(t.unfenced.v, rest);
    assert rest != [] ==> rest[0] in rest;
    CutSteps(x.server, t.e1, t.e2, t.e3, rest, m);
  }

  /** Serving with a writable server whose synchronous standbys are not the target. */
  predicate Gap(c: Config, v: Server) {
    !v.readOnly && v.sync != c.SyncTarget()
  }

  /** The caches a pass starts enforcing with tell the truth if the ones it began with did. */
  lemma EntersCached(c: Config, x: Node, i: Input)
    requires Cached(x.auth, x.server)
    ensures var l := Authorized(c, x, i).0; Cached(l.a, l.v)
  {
    hide Prepare, RawAuth, Proposal;
    PrepareFrame(c, x, i);
  }

  /** At an unfence under a decision the target is in force exactly when it was, or the sync call succeeded. */
  lemma UnfenceSeesSync(c: Config, x: Node, i: Input, m: nat)
    requires Cached(x.auth, x.server) && c.synchronous && Tick(c, x, i).0.auth.decided.Some?
    requires m < |Tick(c, x, i).1.effects| && Tick(c, x, i).1.effects[m].Unfence?
    ensures Before(x, Tick(c, x, i).1, m).sync == c.SyncTarget() <==> x.server.sync == c.SyncTarget() || i.syncOk
  {
    hide Tick, Authorized, Before;
    NoUnfenceInRecovery(c, x, i);
    BetweenSteps(c, x, i, m);
    var t, rest := ServingEffects(c, x, i);
    UnfenceAuthorized(c, x, i);
    EntersCached(c, x, i);
  }

  lemma NoUnfenceInRecovery(c: Config, x: Node, i: Input)
    ensures i.inRecovery ==> forall e :: e in Tick(c, x, i).1.effects ==> !e.Unfence?
  {
    hide Tick, Entering, Serve;
    TickSplits(c, x, i);
  }

  lemma UnfenceAuthorized(c: Config, x: Node, i: Input)
    ensures (exists e :: e in Tick(c, x, i).1.effects && e.Unfence?) ==> Tick(c, x, i).1.authorized
  {
    hide Tick, Authorized;
    NoUnfenceInRecovery(c, x, i);
    if !i.inRecovery {
      var t, rest := ServingEffects(c, x, i);
    }
  }

  /** Nothing between two effects is worse than what the pass began or ends with. */
  lemma PassOpensNoWindow(c: Config, x: Node, i: Input, m: nat)
    requires Cached(x.auth, x.server) && c.synchronous && !i.inRecovery && m <= |Tick(c, x, i).1.effects|
    ensures Gap(c, Before(x, Tick(c, x, i).1, m)) ==> Gap(c, x.server) || Gap(c, Tick(c, x, i).0.server)
  {
    hide Tick, Authorized, Before;
    BetweenSteps(c, x, i, m);
    var t, rest := ServingEffects(c, x, i);
    EntersCached(c, x, i);
  }

  /**
   A pass out of recovery ends with a writable server that lacks the target exactly when the server was
   or is made writable, nothing fences it, and the target neither was in force nor is set; it is only
   ever set under a decision.
   */
  lemma WritableWithoutSyncExactly(c: Config, x: Node, i: Input)
    requires Cached(x.auth, x.server) && c.synchronous && !i.inRecovery
    ensures var (x', o) := Tick(c, x, i);
            Gap(c, x'.server) <==>
              && (if o.authorized then !x.server.readOnly || i.unfenceOk else !x.server.readOnly && !i.fenceOk)
              && x.server.sync != c.SyncTarget()
              && !(o.authorized && x'.auth.decided.Some? && i.syncOk)
  {
    hide Tick, Authorized;
    var t, rest := ServingEffects(c, x, i);
    EntersCached(c, x, i);
  }

  // -------------------------------------------------------------- which calls a pass makes

  /** The sync setting a serving pass asks for, if any. */
  predicate Wants(c: Config, authorized: bool, a: Auth, names: SyncNames) {
    if !c.synchronous then names == Off else authorized && a.decided.Some? && names == c.SyncTarget()
  }

  lemma StageCalls(c: Config, l: Local, authorized: bool, i: Input, names: SyncNames, ok: bool)
    ensures var t := StagesOf(c, l, authorized, i); var cache := l.a.appliedReadOnly;
            && (forall e :: e in t.e1 ==> e.Fence?) && (forall e :: e in t.e2 ==> e.SetSync?)
            && (forall e :: e in t.e3 ==> e.Unfence?)
            && (Fence(ok) in t.e1 <==> !authorized && cache != Some(true) && ok == i.fenceOk)
            && (Unfence(ok) in t.e3 <==> authorized && cache != Some(false) && ok == i.unfenceOk)
            && (SetSync(names, ok) in t.e2 <==>
                  Wants(c, authorized, l.a, names) && l.a.appliedSync != Some(names) && ok == i.syncOk)
  {
  }

  lemma StageCaches(c: Config, l: Local, authorized: bool, i: Input)
    ensures var t := StagesOf(c, l, authorized, i); var b := t.unfenced.a;
            && b.appliedReadOnly == (if Fence(true) in t.e1 then Some(true)
                                     else if Unfence(true) in t.e3 then Some(false) else l.a.appliedReadOnly)
            && (forall n :: SetSync(n, true) in t.e2 ==> b.appliedSync == Some(n))
            && ((forall n :: SetSync(n, true) !in t.e2) ==> b.appliedSync == l.a.appliedSync)
  {
    var t := StagesOf(c, l, authorized, i);
    assert t.e2 != [] ==> t.e2[0] in t.e2;
    hide WantSync;
  }

  /**
   Out of recovery a pass fences without authority, unfences with it and sets the sync it wants, each
   exactly if its cache does not already say so, and remembers what succeeded.
   */
  lemma ServingCallsExactly(c: Config, x: Node, i: Input, names: SyncNames, ok: bool)
    requires !i.inRecovery
    ensures var (x', o) := Tick(c, x, i); var a, b := x.auth, x'.auth;
            var cache := if Stalled(a, i.loopAt) then None else a.appliedReadOnly;
            && (Fence(ok) in o.effects <==> !o.authorized && cache != Some(true) && ok == i.fenceOk)
            && (Unfence(ok) in o.effects <==> o.authorized && cache != Some(false) && ok == i.unfenceOk)
            && (SetSync(names, ok) in o.effects <==>
                  Wants(c, o.authorized, b, names) && a.appliedSync != Some(names) && ok == i.syncOk)
            && b.appliedReadOnly == (if Fence(true) in o.effects then Some(true)
                                     else if Unfence(true) in o.effects then Some(false) else cache)
            && (SetSync(names, true) in o.effects ==> b.appliedSync == Some(names))
            && ((forall n :: SetSync(n, true) !in o.effects) ==> b.appliedSync == a.appliedSync)
  {
    hide Tick, Entering, Authorized, StagesOf, Replay, Stalled;
    var t, rest := ServingEffects(c, x, i);
    ServedCaches(c, x, i);
    EntersWithCaches(c, x, i);
    var (l, authorized) := Authorized(c, x, i);
    StageCalls(c, l, authorized, i, names, ok);
    StageCalls(c, l, authorized, i, names, true);
    StageCaches(c, l, authorized, i);
    forall n
      ensures SetSync(n, true) in t.e2 <==> SetSync(n, true) in Tick(c, x, i).1.effects
    {
    }
  }

  lemma EntersWithCaches(c: Config, x: Node, i: Input)
    ensures var a := Authorized(c, x, i).0.a;
            && a.appliedReadOnly == (if Stalled(x.auth, i.loopAt) then None else x.auth.appliedReadOnly)
            && a.appliedSync == x.auth.appliedSync
  {
    hide Tick, Prepare, RawAuth, Authorize, Proposal;
    PrepareFrame(c, x, i);
    var y := Entering(c, x, i);
    AuthorizeKeepsCaches(y.auth, RawAuth(c, y.peers, y.auth, i.contactAt), i.authAt, i.checkAt);
  }

  lemma AuthorizeKeepsCaches(a: Auth, raw: bool, authAt: Time, checkAt: Time)
    ensures var b := Authorize(a, raw, authAt, checkAt).0;
            b.appliedReadOnly == a.appliedReadOnly && b.appliedSync == a.appliedSync && b.decided == a.decided
  {
  }

  /** A serving pass ends with the caches its settings steps leave. */
  lemma ServedCaches(c: Config, x: Node, i: Input)
    requires !i.inRecovery
    ensures var (l, authorized) := Authorized(c, x, i); var t := StagesOf(c, l, authorized, i);
            var a := Tick(c, x, i).0.auth;
            a.appliedReadOnly == t.unfenced.a.appliedReadOnly && a.appliedSync == t.unfenced.a.appliedSync
  {
    hide Tick, Entering, RawAuth, Authorize, SlotChores, RejoinChores, Rejoins, FenceStep, SyncStep, UnfenceStep,
         WantSync;
    TickSplits(c, x, i);
  }

  // ------------------------------------------------------- opening, and promoting fenced

  /** Only an unfence makes a read-only server writable. */
  lemma {:induction false} OnlyUnfenceOpens(v: Server, effects: seq<Effect>)
    ensures v.readOnly && !Replay(v, effects).readOnly ==> Unfence(true) in effects
    decreases |effects|
  {
    if effects != [] {
      OnlyUnfenceOpens(v, effects[..|effects| - 1]);
      assert effects[|effects| - 1] in effects;
    }
  }

  /** A promotion's fence holds until something unfences. */
  lemma {:induction false} PromoteFenceHolds(v: Server, effects: seq<Effect>)
    ensures PromoteFence(true) in effects && !Replay(v, effects).readOnly ==> Unfence(true) in effects
    decreases |effects|
  {
    if effects != [] {
      var k := |effects| - 1;
      PromoteFenceHolds(v, effects[..k]);
      assert effects[k] in effects && effects == effects[..k] + [effects[k]];
    }
  }

  predicate Promotes(effects: seq<Effect>) {
    Promote(true) in effects || Promote(false) in effects
  }

  /** The effects of a pass in recovery: clear sync, then fence and promote, or repoint. */
  lemma RecoverySteps(c: Config, y: Node, i: Input) returns (e1: seq<Effect>, e2: seq<Effect>)
    ensures var (x', effects) := Recover(c, y, i);
            && effects == e1 + e2 && |e1| <= 1 && (e1 != [] ==> e1[0] == ClearSync(i.clearSyncOk))
            && x'.auth.decided == y.auth.decided && x'.server == Replay(Replay(y.server, e1), e2)
    ensures || (e2 == [PromoteFence(i.promoteFenceOk), Promote(i.promoteOk)] && DecidedPrimary(y.auth) == c.nodeId)
            || (|e2| <= 1 && forall e :: e in e2 ==> e.Repoint?)
  {
    var (l, f1) := ClearSyncStep(Local(y.auth.(appliedReadOnly := None, authorizedSince := None), y.server),
                                 i.clearSyncOk);
    var z := Node(y.peers, l.a, y.chores, l.v);
    e1, e2 := f1, Reposition(c, z, i).1;
    ReplayShort(y.server, e1);
    RepositionReplays(c, z, i);
    hide Reposition, Replay;
  }

  lemma RepositionReplays(c: Config, z: Node, i: Input)
    ensures var (x', e2) := Reposition(c, z, i);
            && x'.server == Replay(z.server, e2) && x'.auth == z.auth
            && ((e2 == [PromoteFence(i.promoteFenceOk), Promote(i.promoteOk)] && DecidedPrimary(z.auth) == c.nodeId)
                || (|e2| <= 1 && forall e :: e in e2 ==> e.Repoint?))
  {
    var e2 := Reposition(c, z, i).1;
    if |e2| == 2 {
      assert e2 == [e2[0]] + [e2[1]];
      ReplayConcat(z.server, [e2[0]], [e2[1]]);
      ReplayShort(z.server, [e2[0]]);
      ReplayShort(Replay(z.server, [e2[0]]), [e2[1]]);
    } else {
      ReplayShort(z.server, e2);
    }
  }

  lemma RecoveryEffects(c: Config, x: Node, i: Input) returns (e1: seq<Effect>, e2: seq<Effect>)
    requires i.inRecovery
    ensures var (x', o) := Tick(c, x, i);
            && o.effects == e1 + e2 && |e1| <= 1 && (e1 != [] ==> e1[0] == ClearSync(i.clearSyncOk))
            && x'.server == Replay(Replay(x.server, e1), e2)
            && ((e2 == [PromoteFence(i.promoteFenceOk), Promote(i.promoteOk)]
                 && DecidedPrimary(x'.auth) == c.nodeId)
                || (|e2| <= 1 && forall e :: e in e2 ==> e.Repoint?))
  {
    hide Tick, Entering, Serve, Recover, Replay;
    TickSplits(c, x, i);
    e1, e2 := RecoverySteps(c, Entering(c, x, i), i);
  }

  /** The effects a pass reports are exactly what happens to the server. */
  lemma EffectsExplainServer(c: Config, x: Node, i: Input)
    ensures Replay(x.server, Tick(c, x, i).1.effects) == Tick(c, x, i).0.server
  {
    hide Tick, Authorized, WantSync, FenceStep, SyncStep, UnfenceStep, Replay;
    if i.inRecovery {
      var e1, e2 := RecoveryEffects(c, x, i);
      ReplayConcat(x.server, e1, e2);
    } else {
      var (l, authorized) := Authorized(c, x, i);
      var t, rest := ServingEffects(c, x, i);
      StagesReplay(c, l, authorized, i);
      ReplayShort(t.unfenced.v, rest);
      assert rest != [] ==> rest[0] in rest;
      ReplayConcat(x.server, t.e1, t.e2);
      ReplayConcat(x.server, t.e1 + t.e2, t.e3);
      ReplayConcat(x.server, t.e1 + t.e2 + t.e3, rest);
    }
  }

  /** Out of recovery a pass only fences, sets sync, unfences or rejoins. */
  lemma ServingKinds(c: Config, x: Node, i: Input)
    ensures !i.inRecovery ==>
              forall e :: e in Tick(c, x, i).1.effects ==> e.Fence? || e.SetSync? || e.Unfence? || e.Rejoin?
  {
    hide Tick, Authorized, WantSync;
    if !i.inRecovery {
      var t, rest := ServingEffects(c, x, i);
    }
  }

  lemma PromotesInRecovery(c: Config, x: Node, i: Input)
    ensures Promotes(Tick(c, x, i).1.effects) ==> i.inRecovery
  {
    hide Tick;
    ServingKinds(c, x, i);
  }

  /** A promotion's fence is reported as it went. */
  lemma PromoteFenceReported(c: Config, x: Node, i: Input)
    ensures PromoteFence(!i.promoteFenceOk) !in Tick(c, x, i).1.effects
  {
    hide Tick, Replay;
    ServingKinds(c, x, i);
    if i.inRecovery {
      var e1, e2 := RecoveryEffects(c, x, i);
    }
  }

  /** By the time a pass has asked for a promotion it has asked for its fence. */
  lemma FenceBeforePromote(c: Config, x: Node, i: Input, m: nat)
    requires m <= |Tick(c, x, i).1.effects| && Promotes(Tick(c, x, i).1.effects[..m])
    ensures i.inRecovery && PromoteFence(i.promoteFenceOk) in Tick(c, x, i).1.effects[..m]
    ensures DecidedPrimary(Tick(c, x, i).0.auth) == c.nodeId
  {
    hide Tick, Replay;
    var all := Tick(c, x, i).1.effects;
    assert forall e :: e in all[..m] ==> e in all;
    PromotesInRecovery(c, x, i);
    var e1, e2 := RecoveryEffects(c, x, i);
    PromoteComesSecond(e1, e2, i, m);
  }

  lemma PromoteComesSecond(e1: seq<Effect>, e2: seq<Effect>, i: Input, m: nat)
    requires |e1| <= 1 && (e1 != [] ==> e1[0] == ClearSync(i.clearSyncOk)) && m <= |e1 + e2|
    requires || e2 == [PromoteFence(i.promoteFenceOk), Promote(i.promoteOk)]
             || (|e2| <= 1 && forall e :: e in e2 ==> e.Repoint?)
    requires Promotes((e1 + e2)[..m])
    ensures PromoteFence(i.promoteFenceOk) in (e1 + e2)[..m] && |e2| == 2 && m == |e1 + e2|
  {
    var j :| 0 <= j < m && (e1 + e2)[j].Promote?;
    assert j >= |e1|;
    assert (e1 + e2)[j] == e2[j - |e1|];
    assert e2[j - |e1|] in e2;
    assert (e1 + e2)[..m][|e1|] == e2[0];
  }

  /**
   Between any two effects of a pass the server is writable only if it was before, or the pass unfences;
   and once the pass has asked for a promotion, only if that promotion's fence failed.
   */
  lemma OpenBetween(c: Config, x: Node, i: Input, m: nat)
    requires m <= |Tick(c, x, i).1.effects|
    ensures var o := Tick(c, x, i).1; var v := Before(x, o, m);
            && (!v.readOnly ==> !x.server.readOnly || Unfences(o))
            && (!v.readOnly && Promotes(o.effects[..m]) ==> PromoteFence(false) in o.effects)
  {
    hide Tick, Replay;
    var o := Tick(c, x, i).1;
    OnlyUnfenceOpens(x.server, o.effects[..m]);
    assert forall e :: e in o.effects[..m] ==> e in o.effects;
    if Promotes(o.effects[..m]) {
      FenceBeforePromote(c, x, i, m);
      PromoteFenceHolds(x.server, o.effects[..m]);
      NoUnfenceInRecovery(c, x, i);
    }
  }

  /**
   Once a pass has asked for a promotion its server is writable exactly when it was before the pass and
   the promotion's fence failed.
   */
  lemma PromotedOpen(c: Config, x: Node, i: Input, m: nat)
    requires m <= |Tick(c, x, i).1.effects| && Promotes(Tick(c, x, i).1.effects[..m])
    ensures !Before(x, Tick(c, x, i).1, m).readOnly <==> !x.server.readOnly && !i.promoteFenceOk
  {
    hide Tick, Replay;
    var all := Tick(c, x, i).1.effects;
    FenceBeforePromote(c, x, i, m);
    var e1, e2 := RecoveryEffects(c, x, i);
    PromoteComesSecond(e1, e2, i, m);
    assert all[..m] == all;
    ReplayConcat(x.server, e1, e2);
    ReplayShort(x.server, e1);
    ReplayPair(Replay(x.server, e1), e2[0], e2[1]);
    assert e2 == [e2[0], e2[1]];
  }

  lemma ReplayPair(v: Server, a: Effect, b: Effect)
    ensures Replay(v, [a, b]) == AfterEffect(AfterEffect(v, a), b)
  {
    ReplayConcat(v, [a], [b]);
    assert [a] + [b] == [a, b];
    ReplayShort(v, [a]);
    ReplayShort(Replay(v, [a]), [b]);
  }

  // ---------------------------------------------------------------------- over runs

  /** Sync before unfence, at every unfence under a decision of every run. */
  lemma SyncBeforeUnfence(c: Config, nodes: seq<Node>, inputs: seq<Input>, outs: seq<Output>, k: nat, m: nat)
    requires Run(c, nodes, inputs, outs) && Cached(nodes[0].auth, nodes[0].server) && c.synchronous
    requires k < |inputs| && nodes[k + 1].auth.decided.Some?
    requires m < |outs[k].effects| && outs[k].effects[m].Unfence?
    ensures Before(nodes[k], outs[k], m).sync == c.SyncTarget()
            <==> nodes[k].server.sync == c.SyncTarget() || inputs[k].syncOk
  {
    hide Tick, Before;
    CachedAlways(c, nodes, inputs, outs, k);
    assert PassAt(c, nodes, inputs, outs, k);
    UnfenceSeesSync(c, nodes[k], inputs[k], m);
  }

  /**
   In every run, once a pass has asked for a promotion its server is writable exactly when it was before
   the pass and the promotion's fence failed.
   */
  lemma PromotedOpenExactly(c: Config, nodes: seq<Node>, inputs: seq<Input>, outs: seq<Output>, k: nat, m: nat)
    requires Run(c, nodes, inputs, outs) && k < |inputs|
    requires m <= |outs[k].effects| && Promotes(outs[k].effects[..m])
    ensures !Before(nodes[k], outs[k], m).readOnly <==> !nodes[k].server.readOnly && !inputs[k].promoteFenceOk
  {
    hide Tick, Before, Promotes;
    assert PassAt(c, nodes, inputs, outs, k);
    PromotedOpen(c, nodes[k], inputs[k], m);
  }

  /** Pass k is out of recovery, and whatever fence and sync calls it makes succeed. */
  ghost predicate Sets(inputs: seq<Input>, k: nat)
    requires k < |inputs|
  {
    !inputs[k].inRecovery && inputs[k].fenceOk && inputs[k].syncOk
  }

  /** From the second such pass under a decision on there is no window, not even between two calls. */
  lemma NoWindowUnderDecision(c: Config, nodes: seq<Node>, inputs: seq<Input>, outs: seq<Output>, k: nat, m: nat)
    requires Run(c, nodes, inputs, outs) && Cached(nodes[0].auth, nodes[0].server) && c.synchronous
    requires 0 < k < |inputs| && nodes[k].auth.decided.Some? && Sets(inputs, k - 1) && Sets(inputs, k)
    requires m <= |outs[k].effects|
    ensures !Gap(c, Before(nodes[k], outs[k], m))
  {
    hide Tick, Before, Prepare;
    CachedAlways(c, nodes, inputs, outs, k - 1);
    CachedAlways(c, nodes, inputs, outs, k);
    assert PassAt(c, nodes, inputs, outs, k - 1) && PassAt(c, nodes, inputs, outs, k);
    WritableWithoutSyncExactly(c, nodes[k - 1], inputs[k - 1]);
    WritableWithoutSyncExactly(c, nodes[k], inputs[k]);
    TickFrame(c, nodes[k], inputs[k]);
    PrepareFrame(c, nodes[k], inputs[k]);
    PassOpensNoWindow(c, nodes[k], inputs[k], m);
  }

  /**
   A writable primary has its quorum of standbys: when fence and sync calls succeed, a decided node whose
   server is writable after a pass is authorized and has the target.
   */
  lemma WritableMeansSync(c: Config, nodes: seq<Node>, inputs: seq<Input>, outs: seq<Output>, k: nat)
    requires Run(c, nodes, inputs, outs) && Cached(nodes[0].auth, nodes[0].server) && k < |inputs|
    requires c.synchronous && Sets(inputs, k)
    requires nodes[k + 1].auth.decided.Some? && !nodes[k + 1].server.readOnly
    ensures outs[k].authorized && Named(c, nodes[k + 1].auth)
    ensures nodes[k + 1].server.sync == c.SyncTarget()
  {
    hide Tick, Prepare;
    CachedAlways(c, nodes, inputs, outs, k);
    assert PassAt(c, nodes, inputs, outs, k);
    TickFrame(c, nodes[k], inputs[k]);
    TickSettings(c, nodes[k], inputs[k]);
  }

  /**
   A pass that unfences under a decision has no window at all, from its first call to its last, when the
   calls of the run so far succeed and the pass itself is shorter than the confirm window.
   */
  lemma UnfenceHasNoWindow(c: Config, nodes: seq<Node>, inputs: seq<Input>, outs: seq<Output>, k: nat, m: nat)
    requires Run(c, nodes, inputs, outs) && Cached(nodes[0].auth, nodes[0].server) && c.synchronous
    requires nodes[0].auth.authorizedSince == None
    requires k < |inputs| && Unfences(outs[k]) && nodes[k + 1].auth.decided.Some?
    requires forall j :: 0 <= j <= k ==> inputs[j].fenceOk && inputs[j].syncOk && inputs[j].unfenceOk
    requires inputs[k].checkAt < inputs[k].authAt + CONFIRM_WINDOW && m <= |outs[k].effects|
    ensures !Gap(c, Before(nodes[k], outs[k], m))
  {
    hide Tick, Before, Prepare;
    var j := ConfirmWindowHeld(c, nodes, inputs, outs, k);
    assert j < k && outs[k - 1].rawAuth && outs[k].rawAuth;
    assert Continues(c, nodes, inputs, k);
    if nodes[k].auth.decided.None? {
      assert PassAt(c, nodes, inputs, outs, k - 1) && PassAt(c, nodes, inputs, outs, k);
      BootstrapUnfences(c, nodes[k - 1], inputs[k - 1]);
      TickFrame(c, nodes[k - 1], inputs[k - 1]);
      PrepareFrame(c, nodes[k - 1], inputs[k - 1]);
      OpenStaysOpen(c, nodes[k], inputs[k]);
      assert false;
    }
    NoWindowUnderDecision(c, nodes, inputs, outs, k, m);
  }

  /** A bootstrap pass with raw authority opens the server at once. */
  lemma BootstrapUnfences(c: Config, x: Node, i: Input)
    requires Tick(c, x, i).1.rawAuth && Tick(c, x, i).0.auth.decided.None? && i.unfenceOk
    ensures Tick(c, x, i).0.auth.appliedReadOnly == Some(false)
  {
    hide Tick, Entering, RawAuth, FenceStep, SyncStep, SlotChores, RejoinChores, Rejoins;
    TickSplits(c, x, i);
    TickFrame(c, x, i);
    assert !i.inRecovery;
    EnforceFrame(c, Authorized(c, x, i).0, true, i);
  }

  /** A server known to be open is not opened again, unless the pass stalled. */
  lemma OpenStaysOpen(c: Config, x: Node, i: Input)
    requires x.auth.appliedReadOnly == Some(false) && !Stalled(x.auth, i.loopAt)
    ensures !Unfences(Tick(c, x, i).1)
  {
    hide Tick, Prepare, Serve, Proposal, RawAuth;
    TickSplits(c, x, i);
    PrepareFrame(c, x, i);
    ServeFrame(c, Entering(c, x, i), i);
    RecoverFrame(c, Entering(c, x, i), i);
  }

  // ------------------------------------------------------------- runs with a window

  const FIRST_DECISION: Option<Decision> := Some(Decision(1, 1))

  /** A run from a process's start, ending in a pass that leaves a window open. */
  ghost predicate LeavesWindow(c: Config, nodes: seq<Node>, inputs: seq<Input>, outs: seq<Output>) {
    && Run(c, nodes, inputs, outs) && inputs != [] && c.Valid() && c.synchronous
    && nodes[0] == Start(inputs[0].current, inputs[0].loopAt, Server(true, Off))
    && Gap(c, nodes[|inputs|].server) && outs[|inputs| - 1].authorized
  }

  const GAP_AT_0: Input := QuietInput(0, FromTwo(0, 1), FIRST_DECISION, false)
  const GAP_AT_1500: Input := QuietInput(1500, FromTwo(1500, 1), FIRST_DECISION, false).(syncOk := false)

  lemma SyncGapPasses() returns (x1: Node)
    ensures var x0 := Start(FIRST_DECISION, 0, Server(true, Off));
            x1 == Tick(EXAMPLE, x0, GAP_AT_0).0 && x1.server.sync == Off && x1.auth.lastLoop == 0
    ensures var (x2, o) := Tick(EXAMPLE, x1, GAP_AT_1500);
            o.authorized && Gap(EXAMPLE, x2.server) && x2.auth.decided == FIRST_DECISION
  {
    hide Tick, Gap, Drain;
    var x0 := Start(FIRST_DECISION, 0, Server(true, Off));
    DrainOne(x0.peers, GAP_AT_0.inbox[0]);
    x1 := ServingPass(EXAMPLE, x0, GAP_AT_0, 2);
    DrainOne(x1.peers, GAP_AT_1500.inbox[0]);
    var x2 := ServingPass(EXAMPLE, x1, GAP_AT_1500, 2);
    TickSettings(EXAMPLE, x0, GAP_AT_0);
    WritableWithoutSyncExactly(EXAMPLE, x1, GAP_AT_1500);
  }

  /** The confirm window passes, the sync call fails, and the server is opened without standbys. */
  lemma SyncGapRun() returns (nodes: seq<Node>, inputs: seq<Input>, outs: seq<Output>)
    ensures LeavesWindow(EXAMPLE, nodes, inputs, outs) && Named(EXAMPLE, nodes[|inputs|].auth)
    ensures forall k :: 0 <= k < |inputs| ==> inputs[k].fenceOk && inputs[k].unfenceOk && !inputs[k].inRecovery
  {
    hide Tick, Gap;
    var c, x0 := EXAMPLE, Start(FIRST_DECISION, 0, Server(true, Off));
    var x1 := SyncGapPasses();
    inputs := [GAP_AT_0, GAP_AT_1500];
    nodes := [x0, x1, Tick(c, x1, GAP_AT_1500).0];
    outs := [Tick(c, x0, GAP_AT_0).1, Tick(c, x1, GAP_AT_1500).1];
    assert PassAt(c, nodes, inputs, outs, 0) && PassAt(c, nodes, inputs, outs, 1);
  }

  /** A node that has never heard of a decision serves without the target though every call succeeds. */
  lemma BootstrapGapRun() returns (nodes: seq<Node>, inputs: seq<Input>, outs: seq<Output>)
    ensures LeavesWindow(EXAMPLE, nodes, inputs, outs) && nodes[|inputs|].auth.decided == None
    ensures forall k :: 0 <= k < |inputs| ==> inputs[k].fenceOk && inputs[k].syncOk && !inputs[k].inRecovery
  {
    hide Tick, Gap;
    var c, x, i := EXAMPLE, Start(None, 0, Server(true, Off)), QuietInput(0, FromTwo(0, 0), None, false);
    BootstrapAuthority(x, i);
    WritableWithoutSyncExactly(c, x, i);
    nodes, inputs, outs := [x, Tick(c, x, i).0], [i], [Tick(c, x, i).1];
    assert PassAt(c, nodes, inputs, outs, 0);
  }

  lemma BootstrapAuthority(x: Node, i: Input)
    requires x == Start(None, 0, Server(true, Off)) && i == QuietInput(0, FromTwo(0, 0), None, false)
    ensures var (x', o) := Tick(EXAMPLE, x, i); o.authorized && x'.auth.decided == None
  {
    hide Tick;
    DrainOne(x.peers, i.inbox[0]);
    var y := Prepare(EXAMPLE, x, i);
    TickSplits(EXAMPLE, x, i);
    TickFrame(EXAMPLE, x, i);
    assert 2 in Reachable(EXAMPLE, y.peers, 0);
    SubsetSize({2}, Reachable(EXAMPLE, y.peers, 0));
    assert RawAuth(EXAMPLE, y.peers, y.auth, 0);
    hide Prepare, RawAuth, SlotChores, RejoinChores, Rejoins;
  }

  // --------------------------------------------------------- a promotion that is not fenced

  const UNFENCED_PROMOTION: Input :=
    QuietInput(0, [], FIRST_DECISION, false).(inRecovery := true, promoteFenceOk := false)

  /** A standby with a writable setting starts, is promoted, its fence fails: it will come up open. */
  lemma FailedPromoteFenceRun() returns (nodes: seq<Node>, inputs: seq<Input>, outs: seq<Output>)
    ensures Run(EXAMPLE, nodes, inputs, outs) && |inputs| == 1
    ensures nodes[0] == Start(FIRST_DECISION, inputs[0].loopAt, Server(false, Off)) && EXAMPLE.Valid()
    ensures Promotes(outs[0].effects) && !nodes[1].server.readOnly
  {
    hide Tick;
    var c, x, i := EXAMPLE, Start(FIRST_DECISION, 0, Server(false, Off)), UNFENCED_PROMOTION;
    nodes, inputs, outs := [x, Tick(c, x, i).0], [i], [Tick(c, x, i).1];
    assert PassAt(c, nodes, inputs, outs, 0);
    NamedIsPromoted(c, x, i);
    EffectsExplainServer(c, x, i);
    assert outs[0].effects[..|outs[0].effects|] == outs[0].effects;
    PromotedOpen(c, x, i, |outs[0].effects|);
  }

  /** A node in recovery that its decision names asks for its promotion, if it has not yet. */
  lemma NamedIsPromoted(c: Config, x: Node, i: Input)
    requires i.inRecovery && !Prepare(c, x, i).chores.promoted && Named(c, Prepare(c, x, i).auth)
    ensures Promotes(Tick(c, x, i).1.effects)
  {
    hide Tick, Prepare, Proposal, Serve;
    TickSplits(c, x, i);
    var effects := Recover(c, Entering(c, x, i), i).1;
    assert effects[|effects| - 1] == Promote(i.promoteOk);
  }
}
