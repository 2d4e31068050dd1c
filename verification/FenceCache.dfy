/**
 The supervisor's read-only cache against the server's real setting, with the deadman watchdog as a
 second writer. Each setting attempt is two steps, one for each of its SQL calls (alter the configuration,
 reload it); the supervisor's pass is split into its phases, the watchdog's wake-up into its commands; and
 the two programs' steps interleave in any order on one clock.
 */
module FenceCache {
  import opened Quorum
  import opened Supervisor
  import SupervisorRuns

  /**
   The watchdog's limit; how long after a pass starts its heartbeat may land, and after a look the fence
   that follows from it; which calls may stop half-way; whether heartbeats reach the disk; and whether
   the node may serve before any decision.
   */
  datatype Config = Config(staleLimit: Time, beatDelay: Time, landing: Time, atomicFences: bool,
                           atomicUnfences: bool, beatsWritten: bool, bootstrap: bool)

  const WATCHDOG_STALE: Time := 2000

  /** The results of an attempt's two calls. */
  datatype Call = Call(altered: bool, reloaded: bool)

  /** Where the supervisor is in its pass; the last two are between the two calls of a setting attempt. */
  datatype Stage =
    | Resting
    | Beating
    | Observing
    | Serving(authorized: bool)
    | Reloading(authorized: bool)
    | Promoting(altered: bool)

  /** Where the watchdog is: it saw a stale heartbeat, then a writable server, then altered its setting. */
  datatype Watch = Asleep | Stale(seen: Time) | Fencing(seen: Time) | Altered(seen: Time, ok: bool)

  /** The configured and the active read-only setting, beside what the two programs know. */
  datatype State = State(auth: Auth, stage: Stage, conf: bool, active: bool, heartbeat: Time, watch: Watch,
                         clock: Time)
  {
    function Cache(): Option<bool> { auth.appliedReadOnly }
  }

  datatype Event =
    | LoopStart(at: Time)
    | Beat(at: Time, stamp: Time, ok: bool)
    | Read(at: Time, current: Option<Decision>)
    | Recovering(at: Time, promoteFence: Option<bool>)
    | PromoteReload(at: Time, ok: bool)
    | Decide(at: Time, authAt: Time, raw: bool)
    | Settle(at: Time, ok: bool)
    | Confirm(at: Time, ok: bool)
    | OtherReload(at: Time)
    | Look(at: Time, now: Time)
    | Show(at: Time)
    | Alter(at: Time, ok: bool)
    | Reload(at: Time, ok: bool)
    | Respawn(at: Time)

  /** Heartbeats land in time, and a fence whose first call is made is followed up in time. */
  predicate InTime(c: Config, s: State, at: Time) {
    && (s.stage.Beating? ==> at <= s.auth.lastLoop + c.beatDelay)
    && (c.atomicFences && s.watch.Altered? && s.watch.ok ==> at <= s.watch.seen + c.landing)
  }

  /** Raw authority rests on a decision no stall has put in doubt, or on there being none. */
  predicate MayHaveAuthority(c: Config, a: Auth) {
    if a.decided.None? then c.bootstrap else !a.reconfirmPending
  }

  predicate Enabled(c: Config, s: State, e: Event) {
    && e.at >= s.clock && InTime(c, s, e.at)
    && (match e
        case LoopStart(_) => s.stage.Resting?
        case Beat(at, stamp, ok) => s.stage.Beating? && s.auth.lastLoop <= stamp <= at && (c.beatsWritten ==> ok)
        case Read(_, _) => s.stage.Observing?
        case Recovering(_, _) => s.stage.Observing?
        case PromoteReload(_, ok) => s.stage.Promoting? && (c.atomicFences ==> ok == s.stage.altered)
        case Decide(at, authAt, raw) =>
          s.stage.Observing? && s.clock <= authAt <= at && (raw ==> MayHaveAuthority(c, s.auth))
        case Settle(_, _) => s.stage.Serving?
        case Confirm(_, ok) =>
          s.stage.Reloading? && ((if s.stage.authorized then c.atomicUnfences else c.atomicFences) ==> ok)
        case OtherReload(_) => true
        case Look(at, now) => s.watch.Asleep? && now <= at
        case Show(at) => s.watch.Stale? && at <= s.watch.seen + c.landing
        case Alter(at, _) => s.watch.Fencing? && at <= s.watch.seen + c.landing
        case Reload(at, ok) =>
          s.watch.Altered? && at <= s.watch.seen + c.landing && (c.atomicFences ==> ok == s.watch.ok)
        case Respawn(_) => c.atomicFences ==> !(s.watch.Altered? && s.watch.ok))
  }

  /**
   At most one setting attempt a pass: an unfence with authority, a fence without, if the cache asks for
   it. The reload is tried only after the configuration has been altered.
   */
  function Settled(s: State, authorized: bool, ok: bool): State {
    if s.Cache() == Some(!authorized) || !ok then s.(stage := Resting)
    else s.(conf := !authorized, stage := Reloading(authorized))
  }

  /** The attempt is reported as done only if both calls succeeded. */
  function Confirmed(s: State, authorized: bool, ok: bool): State {
    if ok then s.(active := s.conf, auth := s.auth.(appliedReadOnly := Some(!authorized)), stage := Resting)
    else s.(stage := Resting)
  }

  function Next(c: Config, s: State, e: Event): State {
    var s := s.(clock := e.at);
    match e
    case LoopStart(at) => s.(auth := StallCheck(s.auth, at), stage := Beating)
    case Beat(_, stamp, ok) => s.(heartbeat := if ok then stamp else s.heartbeat, stage := Observing)
    case Read(_, current) => s.(auth := Adopt(s.auth, current))
    case Recovering(_, fence) =>
      s.(auth := s.auth.(appliedReadOnly := None, authorizedSince := None),
         conf := s.conf || fence == Some(true),
         stage := if fence.Some? then Promoting(fence.value) else Resting)
    case PromoteReload(_, ok) => s.(active := if ok then s.conf else s.active, stage := Resting)
    case Decide(at, authAt, raw) =>
      var (a, authorized) := Authorize(s.auth, raw, authAt, at);
      s.(auth := a, stage := Serving(authorized))
    case Settle(_, ok) => if s.stage.Serving? then Settled(s, s.stage.authorized, ok) else s
    case Confirm(_, ok) => if s.stage.Reloading? then Confirmed(s, s.stage.authorized, ok) else s
    case OtherReload(_) => s.(active := s.conf)
    case Look(at, now) => if now - s.heartbeat >= c.staleLimit then s.(watch := Stale(at)) else s
    case Show(_) =>
      if s.watch.Stale? then s.(watch := if s.active then Asleep else Fencing(s.watch.seen)) else s
    case Alter(_, ok) =>
      if s.watch.Fencing? then s.(conf := s.conf || ok, watch := Altered(s.watch.seen, ok)) else s
    case Reload(_, ok) => s.(active := if ok then s.conf else s.active, watch := Asleep)
    case Respawn(_) => s.(watch := Asleep)
  }

  predicate Step(c: Config, s: State, e: Event, s': State) {
    Enabled(c, s, e) && s' == Next(c, s, e)
  }

  /**
   A process starts with an empty cache over a settled server; the heartbeat may be old or missing, and a
   watchdog left over from an earlier process may be about to act.
   */
  predicate Initial(s: State) {
    && s.Cache() == None && s.auth.authorizedSince == None && s.stage.Resting?
    && s.conf == s.active && s.auth.lastLoop == s.clock && s.heartbeat <= s.clock
    && !s.watch.Altered? && (!s.watch.Asleep? ==> s.watch.seen <= s.clock)
  }

  ghost predicate Run(c: Config, states: seq<State>, events: seq<Event>) {
    && |states| == |events| + 1
    && Initial(states[0])
    && forall k {:trigger events[k]} :: 0 <= k < |events| ==> Step(c, states[k], events[k], states[k + 1])
  }

  ghost predicate Reachable(c: Config, s: State) {
    exists states: seq<State>, events: seq<Event> {:trigger Run(c, states, events)} ::
      Run(c, states, events) && states[|events|] == s
  }

  // ----------------------------------------- the same steps as the supervisor's pass

  /** What this module keeps of the supervisor's authority. */
  function Core(a: Auth): Auth {
    a.(appliedSync := None, datadirKnown := false, clusterMarker := false)
  }

  lemma PreparesTheSame(c: Config, sc: Supervisor.Config, x: Node, i: Input, s: State)
    requires s.auth == Core(x.auth)
    ensures var s1 := Next(c, s, LoopStart(i.loopAt));
            var s2 := Next(c, Next(c, s1, Beat(i.loopAt, i.loopAt, true)), Read(i.adoptAt, i.current));
            s2.auth == Core(SupervisorRuns.Entering(sc, x, i).auth) && s2 == s.(auth := s2.auth, stage := s2.stage,
                       heartbeat := i.loopAt, clock := i.adoptAt)
  {
    hide Proposal, Drain;
    var y := Prepare(sc, x, i);
    assert y.auth == Marker(Adopt(StallCheck(x.auth, i.loopAt), i.current), x.chores.ticks + 1, i);
  }

  function Attempt(c: Config, s: State, at: Time, altered: bool, reloaded: bool): State {
    var t := Next(c, s, Settle(at, altered));
    if t.stage.Reloading? then Next(c, t, Confirm(at, reloaded)) else t
  }

  /** Both calls of a setting attempt with nothing in between. */
  function Attempted(s: State, authorized: bool, altered: bool, reloaded: bool): State {
    var t := Settled(s, authorized, altered);
    if t.stage.Reloading? then Confirmed(t, authorized, reloaded) else t
  }

  lemma AttemptIsBothCalls(c: Config, s: State, altered: bool, reloaded: bool)
    requires s.stage.Serving?
    ensures Attempt(c, s, s.clock, altered, reloaded) == Attempted(s, s.stage.authorized, altered, reloaded)
  {
    assert s.(clock := s.clock) == s;
  }

  lemma SettlesTheSame(c: Supervisor.Config, l: Local, authorized: bool, i: Input, s: State)
    requires s.auth == Core(l.a) && s.conf == s.active == l.v.readOnly
    ensures var l' := Enforce(c, l, authorized, i).0; var ok := if authorized then i.unfenceOk else i.fenceOk;
            var s' := Attempted(s, authorized, ok, ok);
            s'.auth == Core(l'.a) && s'.conf == s'.active == l'.v.readOnly
            && s' == s.(auth := s'.auth, conf := s'.conf, active := s'.active, stage := Resting)
  {
    hide WantSync;
  }

  /** Serving: with whole calls, the phases here do to authority and setting what a pass of the loop does. */
  lemma ServingIsAPass(c: Config, sc: Supervisor.Config, x: Node, i: Input, s: State)
    requires !i.inRecovery && s.auth == Core(x.auth) && s.conf == s.active == x.server.readOnly
    ensures var (x', o) := Tick(sc, x, i); var ok := if o.authorized then i.unfenceOk else i.fenceOk;
            var s1 := Next(c, s, LoopStart(i.loopAt));
            var s2 := Next(c, Next(c, s1, Beat(i.loopAt, i.loopAt, true)), Read(i.adoptAt, i.current));
            var s3 := Next(c, s2, Decide(i.checkAt, i.authAt, o.rawAuth));
            var s4 := Attempt(c, s3, i.checkAt, ok, ok);
            && s4.auth == Core(x'.auth) && s4.conf == s4.active == x'.server.readOnly
            && s3.stage == Serving(o.authorized) && s4.stage == Resting
            && (o.rawAuth && s2.auth.decided.Some? ==> !s2.auth.reconfirmPending)
  {
    hide Tick, SupervisorRuns.Entering, StallCheck, Adopt, RawAuth, SlotChores, RejoinChores, Rejoins, Enforce;
    hide Attempt, Attempted;
    var y := SupervisorRuns.Entering(sc, x, i);
    SupervisorRuns.TickSplits(sc, x, i);
    PreparesTheSame(c, sc, x, i, s);
    var s2 := Next(c, Next(c, Next(c, s, LoopStart(i.loopAt)), Beat(i.loopAt, i.loopAt, true)),
                   Read(i.adoptAt, i.current));
    var raw := RawAuth(sc, y.peers, y.auth, i.contactAt);
    RawNeedsNoDoubt(sc, y.peers, y.auth, i.contactAt);
    var s3 := Next(c, s2, Decide(i.checkAt, i.authAt, raw));
    var (a, authorized) := Authorize(y.auth, raw, i.authAt, i.checkAt);
    assert s3.auth == Core(a) && s3.stage == Serving(authorized);
    var ok := if authorized then i.unfenceOk else i.fenceOk;
    AttemptIsBothCalls(c, s3, ok, ok);
    SettlesTheSame(sc, Local(a, x.server), authorized, i, s3);
  }

  lemma RawNeedsNoDoubt(sc: Supervisor.Config, p: Peers, a: Auth, now: Time)
    ensures RawAuth(sc, p, a, now) && a.decided.Some? ==> !a.reconfirmPending
  {
  }

  /** In recovery likewise, a promotion's fence included. */
  lemma RecoveringIsAPass(c: Config, sc: Supervisor.Config, x: Node, i: Input, s: State)
    requires i.inRecovery && s.auth == Core(x.auth) && s.conf == s.active == x.server.readOnly
    ensures var (x', o) := Tick(sc, x, i);
            var promotes := Promote(i.promoteOk) in o.effects;
            var fence := if promotes then Some(i.promoteFenceOk) else None;
            var s1 := Next(c, s, LoopStart(i.loopAt));
            var s2 := Next(c, Next(c, s1, Beat(i.loopAt, i.loopAt, true)), Read(i.adoptAt, i.current));
            var s3 := Next(c, s2, Recovering(i.contactAt, fence));
            var s4 := if promotes then Next(c, s3, PromoteReload(i.contactAt, i.promoteFenceOk)) else s3;
            s4.auth == Core(x'.auth) && s4.conf == s4.active == x'.server.readOnly && s4.stage == Resting
  {
    hide Tick, SupervisorRuns.Entering, StallCheck, Adopt;
    var y := SupervisorRuns.Entering(sc, x, i);
    SupervisorRuns.TickSplits(sc, x, i);
    PreparesTheSame(c, sc, x, i, s);
    RecoverSteps(sc, y, i);
  }

  lemma RecoverSteps(sc: Supervisor.Config, y: Node, i: Input)
    ensures var (x', effects) := Recover(sc, y, i);
            && x'.auth == y.auth.(appliedReadOnly := None, authorizedSince := None, appliedSync := x'.auth.appliedSync)
            && x'.server.readOnly == (y.server.readOnly || (Promote(i.promoteOk) in effects && i.promoteFenceOk))
  {
    hide RetryPromotion;
    var e1 := ClearSyncStep(Local(y.auth.(appliedReadOnly := None, authorizedSince := None), y.server),
                            i.clearSyncOk).1;
    var effects := Recover(sc, y, i).1;
    assert |effects| >= 2 && effects[|effects| - 1].Promote? ==> effects[|effects| - 1] in effects;
  }

  // ----------------------------------------------------------------- coherence

  predicate Coherent(s: State) {
    s.Cache().Some? ==> s.active == s.Cache().value
  }

  function Min(a: nat, b: nat): nat { if a <= b then a else b }

  /** The conditions under which the cache can be relied on. */
  predicate Reliable(c: Config) {
    && c.atomicFences && c.atomicUnfences && c.beatsWritten && !c.bootstrap
    && c.staleLimit > STALL_THRESHOLD + Min(c.beatDelay, STALL_THRESHOLD)
    && c.landing < CONFIRM_WINDOW
  }

  /** The next pass will find itself stalled. */
  predicate Doomed(s: State) {
    s.clock > s.auth.lastLoop + STALL_THRESHOLD
  }

  /** The watchdog's look is too old to act on. */
  predicate Expired(c: Config, s: State)
    requires !s.watch.Asleep?
  {
    s.clock > s.watch.seen + c.landing
  }

  /** Nothing opens the server before the confirm window after the look has passed. */
  predicate Closed(s: State, seen: Time) {
    s.Cache() != Some(false) && (s.auth.authorizedSince.Some? ==> s.auth.authorizedSince.value >= seen)
  }

  /** Between the two calls of an attempt, the supervisor's or the watchdog's. */
  predicate MidCall(s: State) {
    || s.stage.Reloading? || s.stage == Promoting(true)
    || (s.watch.Altered? && s.watch.ok && s.conf && !s.active)
  }

  predicate SettingsInv(s: State) {
    && (s.conf == s.active || MidCall(s))
    && (s.Cache() == Some(true) ==> (s.conf && s.active) || s.stage == Reloading(true))
    && (s.Cache() == Some(false) ==> (!s.conf && !s.active) || Doomed(s) || s.stage == Reloading(false))
    && (s.stage == Reloading(true) ==> !s.conf || Doomed(s))
    && (s.stage == Reloading(false) ==> s.conf)
  }

  predicate WatchInv(c: Config, s: State) {
    !s.watch.Asleep? ==>
      && s.watch.seen <= s.clock && (Doomed(s) || Expired(c, s) || Closed(s, s.watch.seen))
      && (s.watch.Altered? && s.watch.ok ==> !Expired(c, s))
  }

  predicate Blank(s: State) {
    s.Cache() == None && s.auth.authorizedSince == None
  }

  /** About to open the server, or in the middle of it. */
  predicate Opening(s: State) {
    (s.stage == Serving(true) && s.Cache() != Some(false)) || s.stage == Reloading(true)
  }

  predicate PassInv(s: State) {
    && s.auth.lastLoop <= s.clock
    && (s.stage.Beating? ==> Blank(s) || s.auth.lastLoop <= s.heartbeat + STALL_THRESHOLD)
    && (!s.stage.Beating? ==> (s.stage.Resting? && Blank(s)) || s.heartbeat >= s.auth.lastLoop)
    && (Opening(s) ==>
          s.auth.authorizedSince.Some? && s.clock >= s.auth.authorizedSince.value + CONFIRM_WINDOW)
  }

  /** The cache can only be wrong while the next pass is bound to drop it. */
  predicate CoherentInv(c: Config, s: State) {
    SettingsInv(s) && WatchInv(c, s) && PassInv(s)
  }

  lemma PassStep(c: Config, s: State, e: Event, s': State)
    requires Reliable(c) && PassInv(s) && Step(c, s, e, s')
    ensures PassInv(s')
  {
  }

  lemma WatchStep(c: Config, s: State, e: Event, s': State)
    requires Reliable(c) && WatchInv(c, s) && PassInv(s) && Step(c, s, e, s')
    ensures WatchInv(c, s')
  {
  }

  /** The supervisor's steps, and reloads by anyone. */
  lemma SupervisorKeepsSettings(c: Config, s: State, e: Event, s': State)
    requires Reliable(c) && SettingsInv(s) && Step(c, s, e, s')
    requires !e.Look? && !e.Show? && !e.Alter? && !e.Reload? && !e.Respawn?
    ensures SettingsInv(s')
    ensures e.LoopStart? ==> Coherent(s')
  {
    hide Adopt, Authorize;
    AdoptKeepsCache(s.auth, if e.Read? then e.current else None);
    if e.Decide? {
      AuthorizeKeepsCache(s.auth, e.raw, e.authAt, e.at);
    }
  }

  lemma AdoptKeepsCache(a: Auth, current: Option<Decision>)
    ensures Adopt(a, current).appliedReadOnly == a.appliedReadOnly && Adopt(a, current).lastLoop == a.lastLoop
  {
  }

  lemma AuthorizeKeepsCache(a: Auth, raw: bool, authAt: Time, at: Time)
    ensures var b := Authorize(a, raw, authAt, at).0;
            b.appliedReadOnly == a.appliedReadOnly && b.lastLoop == a.lastLoop
  {
  }

  /** The watchdog closes the server only where the next pass will drop the cache, or nothing has opened it. */
  lemma WatchdogKeepsSettings(c: Config, s: State, e: Event, s': State)
    requires Reliable(c) && CoherentInv(c, s) && Step(c, s, e, s')
    requires e.Look? || e.Show? || e.Alter? || e.Reload? || e.Respawn?
    ensures SettingsInv(s')
  {
  }

  lemma CoherentStep(c: Config, s: State, e: Event, s': State)
    requires Reliable(c) && CoherentInv(c, s) && Step(c, s, e, s')
    ensures CoherentInv(c, s')
    ensures e.LoopStart? ==> Coherent(s')
  {
    hide Step, SettingsInv, WatchInv, PassInv, Coherent, Reliable;
    PassStep(c, s, e, s');
    WatchStep(c, s, e, s');
    if e.Look? || e.Show? || e.Alter? || e.Reload? || e.Respawn? {
      WatchdogKeepsSettings(c, s, e, s');
    } else {
      SupervisorKeepsSettings(c, s, e, s');
    }
  }

  lemma {:induction false} CoherentRun(c: Config, states: seq<State>, events: seq<Event>, k: nat)
    requires Reliable(c) && Run(c, states, events) && k <= |events|
    ensures CoherentInv(c, states[k])
  {
    hide CoherentInv, Step;
    if k == 0 {
      InitialInv(c, states[0]);
    } else {
      CoherentRun(c, states, events, k - 1);
      assert events[k - 1] in events;
      CoherentStep(c, states[k - 1], events[k - 1], states[k]);
    }
  }

  lemma InitialInv(c: Config, s: State)
    requires Initial(s)
    ensures CoherentInv(c, s)
  {
  }

  /** Some reachable state's next stall check leaves a cache that is wrong. */
  ghost predicate Incoherent(c: Config) {
    exists s: State, at: Time {:trigger Enabled(c, s, LoopStart(at))} ::
      Reachable(c, s) && Enabled(c, s, LoopStart(at)) && !Coherent(Next(c, s, LoopStart(at)))
  }

  lemma ReliableIsCoherent(c: Config)
    requires Reliable(c)
    ensures !Incoherent(c)
  {
    forall s: State, at: Time | Reachable(c, s) && Enabled(c, s, LoopStart(at))
      ensures Coherent(Next(c, s, LoopStart(at)))
    {
      var states, events :| Run(c, states, events) && states[|events|] == s;
      CoherentRun(c, states, events, |events|);
      CoherentStep(c, s, LoopStart(at), Next(c, s, LoopStart(at)));
    }
  }

  // ------------------------------------------------------------------ runs that fail

  const NAMED: Option<Decision> := Some(Decision(1, 1))

  /** A process over a writable server, as it starts. */
  function Fresh(at: Time, heartbeat: Time): State {
    State(Core(Start(None, at, Server(false, Off)).auth), Resting, false, false, heartbeat, Asleep, at)
  }

  lemma FreshReachable(c: Config, at: Time, heartbeat: Time)
    requires heartbeat <= at
    ensures Reachable(c, Fresh(at, heartbeat))
  {
    assert Run(c, [Fresh(at, heartbeat)], []);
  }

  lemma Do(c: Config, s: State, e: Event)
    requires Reachable(c, s) && Enabled(c, s, e)
    ensures Reachable(c, Next(c, s, e))
  {
    hide Enabled, Next;
    var states, events :| Run(c, states, events) && states[|events|] == s;
    assert Run(c, states + [Next(c, s, e)], events + [e]);
  }

  const DONE: Call := Call(true, true)
  const HALF: Call := Call(true, false)
  const FAILED: Call := Call(false, false)

  /** A pass in which everything happens at one instant. */
  function APass(c: Config, s: State, at: Time, beat: bool, current: Option<Decision>, raw: bool, call: Call): State {
    var s2 := Next(c, Next(c, Next(c, s, LoopStart(at)), Beat(at, at, beat)), Read(at, current));
    Attempt(c, Next(c, s2, Decide(at, at, raw)), at, call.altered, call.reloaded)
  }

  lemma DoPass(c: Config, s: State, at: Time, beat: bool, current: Option<Decision>, raw: bool, call: Call)
    requires Reachable(c, s) && s.stage.Resting? && !s.watch.Altered? && at >= s.clock && (c.beatsWritten ==> beat)
    requires raw ==> MayHaveAuthority(c, Adopt(StallCheck(s.auth, at), current))
    requires call == HALF ==> !(if raw then c.atomicUnfences else c.atomicFences)
    requires raw && call == HALF ==> Authorize(Adopt(StallCheck(s.auth, at), current), raw, at, at).1
    ensures Reachable(c, APass(c, s, at, beat, current, raw, call))
  {
    hide Reachable;
    var s1 := Next(c, s, LoopStart(at));
    Do(c, s, LoopStart(at));
    var s2 := Next(c, s1, Beat(at, at, beat));
    Do(c, s1, Beat(at, at, beat));
    var s3 := Next(c, s2, Read(at, current));
    Do(c, s2, Read(at, current));
    var s4 := Next(c, s3, Decide(at, at, raw));
    Do(c, s3, Decide(at, at, raw));
    hide Next, Enabled;
    DoAttempt(c, s4, at, call);
  }

  lemma DoAttempt(c: Config, s: State, at: Time, call: Call)
    requires Reachable(c, s) && s.stage.Serving? && !s.watch.Altered? && at >= s.clock
    requires call == HALF ==> !(if s.stage.authorized then c.atomicUnfences else c.atomicFences)
    ensures Reachable(c, Attempt(c, s, at, call.altered, call.reloaded))
  {
    hide Reachable;
    Do(c, s, Settle(at, call.altered));
    var t := Next(c, s, Settle(at, call.altered));
    if t.stage.Reloading? {
      Do(c, t, Confirm(at, call.reloaded));
    }
  }

  /** The watchdog looks at q and fences at once. */
  lemma WatchdogFences(c: Config, s: State, q: Time) returns (s': State)
    requires Reachable(c, s) && s.watch.Asleep? && !s.active && q >= s.clock && q - s.heartbeat >= c.staleLimit
    requires s.stage.Beating? ==> q <= s.auth.lastLoop + c.beatDelay
    ensures Reachable(c, s') && s' == s.(clock := q, conf := true, active := true)
  {
    hide Reachable;
    var s1, s2 := Next(c, s, Look(q, q)), Next(c, Next(c, s, Look(q, q)), Show(q));
    Do(c, s, Look(q, q));
    Do(c, s1, Show(q));
    Do(c, s2, Alter(q, true));
    s' := Next(c, Next(c, s2, Alter(q, true)), Reload(q, true));
    Do(c, Next(c, s2, Alter(q, true)), Reload(q, true));
  }

  /** A node under a decision, one confirm window after a process start at `at`, its last pass settled by `call`. */
  lemma AfterWindow(c: Config, at: Time, heartbeat: Time, beat: bool, call: Call) returns (s: State)
    requires heartbeat <= at && (c.beatsWritten ==> beat) && (call == DONE || (call == HALF && !c.atomicUnfences))
    ensures Reachable(c, s)
    ensures var cache := if call == DONE then Some(false) else Some(true);
            s == State(s.auth, Resting, false, call != DONE, if beat then at + 1500 else heartbeat, Asleep,
                       at + 1500)
            && s.auth == Core(Start(NAMED, at + 1500, Server(true, Off)).auth).(appliedReadOnly := cache,
                                                                               authorizedSince := Some(at))
  {
    hide Reachable;
    var s1 := BeforeWindow(c, at, heartbeat, beat);
    DoPass(c, s1, at + 1500, beat, NAMED, true, call);
    s := APass(c, s1, at + 1500, beat, NAMED, true, call);
  }

  lemma BeforeWindow(c: Config, at: Time, heartbeat: Time, beat: bool) returns (s: State)
    requires heartbeat <= at && (c.beatsWritten ==> beat)
    ensures Reachable(c, s)
    ensures s == State(s.auth, Resting, true, true, if beat then at else heartbeat, Asleep, at)
    ensures s.auth == Core(Start(NAMED, at, Server(true, Off)).auth).(appliedReadOnly := Some(true),
                                                                      authorizedSince := Some(at))
  {
    hide Reachable;
    FreshReachable(c, at, heartbeat);
    DoPass(c, Fresh(at, heartbeat), at, beat, NAMED, true, DONE);
    s := APass(c, Fresh(at, heartbeat), at, beat, NAMED, true, DONE);
  }

  /** An unfence stops half-way; the next reload of any setting opens the server behind the cache's back. */
  lemma HalfUnfenced(c: Config) returns (s: State)
    requires !c.atomicUnfences
    ensures Reachable(c, s) && s.Cache() == Some(true) && !s.conf && !s.active && s.stage.Resting? && s.watch.Asleep?
    ensures s.auth.lastLoop == s.heartbeat == s.clock
  {
    hide Reachable;
    var s1 := AfterWindow(c, 0, 0, true, HALF);
    Do(c, s1, OtherReload(1500));
    s := Next(c, s1, OtherReload(1500));
  }

  lemma HalfUnfenceFails(c: Config)
    requires !c.atomicUnfences
    ensures Incoherent(c)
  {
    hide Reachable;
    var s := HalfUnfenced(c);
    assert Enabled(c, s, LoopStart(s.clock));
  }

  lemma HalfFenceFails(c: Config)
    requires !c.atomicFences
    ensures Incoherent(c)
  {
    hide Reachable;
    var s1 := AfterWindow(c, 0, 0, true, DONE);
    DoPass(c, s1, 1500, true, NAMED, false, HALF);
    var s2 := APass(c, s1, 1500, true, NAMED, false, HALF);
    Do(c, s2, OtherReload(1500));
    assert Enabled(c, Next(c, s2, OtherReload(1500)), LoopStart(1500));
  }

  lemma LostHeartbeatFails(c: Config)
    requires !c.beatsWritten
    ensures Incoherent(c)
  {
    hide Reachable;
    var s1 := AfterWindow(c, c.staleLimit, 0, false, DONE);
    var s2 := WatchdogFences(c, s1, s1.clock);
    assert Enabled(c, s2, LoopStart(s2.clock));
  }

  /** A limit within the stall threshold fires at rest; a later one between a pass's start and its heartbeat. */
  lemma FastWatchdogFails(c: Config)
    requires c.staleLimit <= STALL_THRESHOLD + Min(c.beatDelay, STALL_THRESHOLD)
    ensures Incoherent(c)
  {
    hide Reachable;
    var s1 := AfterWindow(c, 0, 0, true, DONE);
    var q := 1500 + c.staleLimit;
    if c.staleLimit <= STALL_THRESHOLD {
      var s2 := WatchdogFences(c, s1, q);
      assert Enabled(c, s2, LoopStart(q));
    } else {
      Do(c, s1, LoopStart(3000));
      var s2 := Next(c, s1, LoopStart(3000));
      var s3 := WatchdogFences(c, s2, q);
      Do(c, s3, Beat(q, q, true));
      var s4 := Next(c, s3, Beat(q, q, true));
      Do(c, s4, Decide(q, q, true));
      var s5 := Next(c, s4, Decide(q, q, true));
      Do(c, s5, Settle(q, true));
      assert Enabled(c, Next(c, s5, Settle(q, true)), LoopStart(q));
    }
  }

  /** The watchdog looks before a stalled node wakes up, and fences after it has opened again. */
  lemma FenceAfterOpening(c: Config, s: State, seen: Time)
    requires Reachable(c, s) && s.watch == Fencing(seen) && s.stage.Resting? && s.clock <= seen + c.landing
    requires s.Cache() == Some(false) && s.auth.lastLoop == s.clock
    ensures Incoherent(c)
  {
    hide Reachable;
    Do(c, s, Alter(s.clock, true));
    var s1 := Next(c, s, Alter(s.clock, true));
    Do(c, s1, Reload(s.clock, true));
    assert Enabled(c, Next(c, s1, Reload(s.clock, true)), LoopStart(s.clock));
  }

  lemma AboutToFence(c: Config) returns (s: State)
    ensures Reachable(c, s)
    ensures s == Fresh(0, 0).(clock := c.staleLimit, watch := Fencing(c.staleLimit))
  {
    hide Reachable;
    var q := c.staleLimit;
    FreshReachable(c, 0, 0);
    Do(c, Fresh(0, 0), Look(q, q));
    Do(c, Next(c, Fresh(0, 0), Look(q, q)), Show(q));
    s := Next(c, Next(c, Fresh(0, 0), Look(q, q)), Show(q));
  }

  /** The stalled node wakes up under a new decision; its own fence fails, so the watchdog still has work. */
  lemma WakesUp(c: Config) returns (s: State)
    ensures var q := c.staleLimit; Reachable(c, s) && s == State(s.auth, Resting, false, false, q, Fencing(q), q)
    ensures s.auth == Core(Start(NAMED, c.staleLimit, Server(false, Off)).auth).(authorizedSince := Some(c.staleLimit))
  {
    hide Reachable;
    var s0 := AboutToFence(c);
    DoPass(c, s0, c.staleLimit, true, NAMED, true, FAILED);
    s := APass(c, s0, c.staleLimit, true, NAMED, true, FAILED);
  }

  lemma OpensBeforeFence(c: Config) returns (s: State)
    ensures Reachable(c, s) && s.watch == Fencing(c.staleLimit) && s.stage.Resting? && s.Cache() == Some(false)
    ensures s.auth.lastLoop == s.clock == c.staleLimit + CONFIRM_WINDOW
  {
    hide Reachable;
    var s1 := WakesUp(c);
    DoPass(c, s1, c.staleLimit + 1500, true, NAMED, true, DONE);
    s := APass(c, s1, c.staleLimit + 1500, true, NAMED, true, DONE);
  }

  lemma LateFenceFails(c: Config)
    requires c.landing >= CONFIRM_WINDOW
    ensures Incoherent(c)
  {
    hide Reachable, Incoherent;
    var s := OpensBeforeFence(c);
    FenceAfterOpening(c, s, c.staleLimit);
  }

  lemma BootstrapFails(c: Config)
    requires c.bootstrap
    ensures Incoherent(c)
  {
    hide Reachable;
    var s0 := AboutToFence(c);
    var q := c.staleLimit;
    DoPass(c, s0, q, true, None, true, DONE);
    FenceAfterOpening(c, APass(c, s0, q, true, None, true, DONE), q);
  }

  /**
   After every stall check the cache tells the truth, under any interleaving with the watchdog's separate
   commands, exactly when calls are whole, heartbeats are written, the watchdog's limit leaves room for the
   stall threshold and the heartbeat, its fence lands within the confirm window of its look, and no node
   serves without a decision.
   */
  lemma CoherenceExactly(c: Config)
    ensures !Incoherent(c) <==> Reliable(c)
  {
    if Reliable(c) {
      ReliableIsCoherent(c);
    } else if !c.atomicUnfences {
      HalfUnfenceFails(c);
    } else if !c.atomicFences {
      HalfFenceFails(c);
    } else if !c.beatsWritten {
      LostHeartbeatFails(c);
    } else if c.bootstrap {
      BootstrapFails(c);
    } else if c.landing >= CONFIRM_WINDOW {
      LateFenceFails(c);
    } else {
      FastWatchdogFails(c);
    }
  }

  /** At the deployed limit a heartbeat may land 499 ms after its pass starts, a fence 1499 ms after its look. */
  lemma DeployedLimitsAreCoherent(c: Config)
    requires c.atomicFences && c.atomicUnfences && c.beatsWritten && c.staleLimit == WATCHDOG_STALE && !c.bootstrap
    ensures !Incoherent(c) <==> c.beatDelay < 500 && c.landing < 1500
  {
    CoherenceExactly(c);
  }

  // -------------------------------------------------------- the dangerous direction

  /** The supervisor has withdrawn authority, believes the server fenced, and it is writable. */
  predicate SilentlyWritable(s: State) {
    s.stage == Serving(false) && s.Cache() == Some(true) && !s.active
  }

  ghost predicate CanBeSilentlyWritable(c: Config) {
    exists s: State :: Reachable(c, s) && SilentlyWritable(s)
  }

  predicate FencedInv(s: State) {
    && (s.Cache() == Some(true) ==> (s.conf && s.active) || s.stage == Reloading(true))
    && (s.stage == Reloading(false) ==> s.conf)
  }

  lemma {:induction false} FencedRun(c: Config, states: seq<State>, events: seq<Event>, k: nat)
    requires c.atomicUnfences && Run(c, states, events) && k <= |events|
    ensures FencedInv(states[k])
  {
    if k > 0 {
      FencedRun(c, states, events, k - 1);
      assert Step(c, states[k - 1], events[k - 1], states[k]);
    }
  }

  /** The setting itself is wrong: neither a reload nor the supervisor will close the server again. */
  predicate Stuck(s: State) {
    && s.Cache() == Some(true) && !s.conf && !s.active && s.watch.Asleep?
    && s.stage != Serving(true) && !s.stage.Reloading? && !s.stage.Promoting?
  }

  /** Nothing that could close it: no stall, no authority, no recovery, no stale look. */
  predicate Calm(c: Config, s: State, e: Event) {
    match e
    case LoopStart(at) => !Stalled(s.auth, at)
    case Decide(_, _, raw) => !raw
    case Recovering(_, _) => false
    case Look(_, now) => now - s.heartbeat < c.staleLimit
    case _ => true
  }

  lemma StuckStep(c: Config, s: State, e: Event, s': State)
    requires Stuck(s) && Calm(c, s, e) && Step(c, s, e, s')
    ensures Stuck(s')
  {
  }

  /** No fence is issued: settling makes no call. */
  lemma StuckMakesNoCall(s: State, ok: bool)
    requires Stuck(s) && s.stage.Serving?
    ensures Settled(s, s.stage.authorized, ok) == s.(stage := Resting)
  {
  }

  /** However many unauthorized passes follow, no fence is issued and the server stays writable. */
  lemma {:induction false} StaysWritable(c: Config, states: seq<State>, events: seq<Event>, i: nat, k: nat)
    requires Run(c, states, events) && i <= k <= |events| && Stuck(states[i])
    requires forall j :: i <= j < k ==> Calm(c, states[j], events[j])
    ensures Stuck(states[k]) && !states[k].active
    ensures forall ok :: states[k].stage.Serving? ==>
              Settled(states[k], states[k].stage.authorized, ok) == states[k].(stage := Resting)
    decreases k
  {
    assert Stuck(states[k]) by {
      hide Stuck, Step, Calm, Settled;
      if i < k {
        StaysWritable(c, states, events, i, k - 1);
        assert events[k - 1] in events;
        StuckStep(c, states[k - 1], events[k - 1], states[k]);
      }
    }
    hide Step, Settled;
    forall ok | states[k].stage.Serving?
      ensures Settled(states[k], states[k].stage.authorized, ok) == states[k].(stage := Resting)
    {
      StuckMakesNoCall(states[k], ok);
    }
  }

  /** n passes a hundred milliseconds apart, none authorized, each settled without a fence, all of them writable. */
  ghost predicate QuietPasses(c: Config, s: State, n: nat, s': State) {
    if n == 0 then s' == s
    else exists t: State {:trigger QuietPasses(c, s, n - 1, t)} ::
           QuietPasses(c, s, n - 1, t) && s' == APass(c, t, t.clock + 100, true, None, false, DONE) && Stuck(s')
  }

  lemma QuietPassStays(c: Config, t: State)
    requires Reachable(c, t) && Stuck(t) && t.stage.Resting? && t.auth.lastLoop == t.clock
    ensures var s := APass(c, t, t.clock + 100, true, None, false, DONE);
            Reachable(c, s) && Stuck(s) && s.stage.Resting? && s.auth.lastLoop == s.clock
  {
    DoPass(c, t, t.clock + 100, true, None, false, DONE);
    hide Reachable, Enabled;
  }

  lemma {:induction false} AnyNumberOfPasses(c: Config, n: nat) returns (s: State, s': State)
    requires !c.atomicUnfences
    ensures Reachable(c, s) && Reachable(c, s') && Stuck(s) && Stuck(s') && QuietPasses(c, s, n, s')
    ensures s'.stage.Resting? && s'.auth.lastLoop == s'.clock
  {
    hide Reachable, APass, Next;
    if n == 0 {
      s := HalfUnfenced(c);
      s' := s;
    } else {
      hide Stuck;
      var t;
      s, t := AnyNumberOfPasses(c, n - 1);
      QuietPassStays(c, t);
      s' := APass(c, t, t.clock + 100, true, None, false, DONE);
    }
  }

  /**
   A node without authority, believed fenced, is writable in some run exactly when an unfence can stop
   after its first call; half-done fences, lost heartbeats and the watchdog's timing never cause it.
   */
  lemma SilentlyWritableExactly(c: Config)
    ensures CanBeSilentlyWritable(c) <==> !c.atomicUnfences
  {
    if c.atomicUnfences {
      forall s: State | Reachable(c, s)
        ensures !SilentlyWritable(s)
      {
        var states, events :| Run(c, states, events) && states[|events|] == s;
        FencedRun(c, states, events, |events|);
      }
    } else {
      hide Reachable;
      var s := HalfUnfenced(c);
      var at := s.clock;
      Do(c, s, LoopStart(at));
      var s1 := Next(c, s, LoopStart(at));
      Do(c, s1, Beat(at, at, true));
      var s2 := Next(c, s1, Beat(at, at, true));
      Do(c, s2, Decide(at, at, false));
      assert SilentlyWritable(Next(c, s2, Decide(at, at, false)));
    }
  }
}
