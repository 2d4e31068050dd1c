/**
 The whole durable store as a transition system: the log store and the state machine each change memory
 and then rewrite their file one disk step at a time, independently of each other, and the node may
 crash between any two steps and reopen what the disks kept.
 */
module RaftStore {
  import opened Quorum
  import opened Supervisor
  import opened DurableFile
  import opened RaftLog
  import opened RaftStateMachine

  /**
   A memory value with its file. `hist` lists the values memory has had, as far as they have not been
   lost to a crash; the last one is current. All but possibly the last have been persisted and
   acknowledged to the caller.
   */
  datatype Cell<T> = Cell(disk: Disk<T>, hist: seq<T>, phase: Phase) {
    function Mem(): T
      requires hist != []
    {
      hist[|hist| - 1]
    }
    function Acked(): nat
      requires hist != []
    {
      if phase == Idle then |hist| else |hist| - 1
    }
    function LastAcked(): T
      requires hist != [] && Acked() > 0
    {
      hist[Acked() - 1]
    }
  }

  ghost predicate CellOk<T(!new)>(c: Cell<T>, initial: T) {
    && c.hist != [] && c.Acked() > 0
    && Ok(c.disk, c.phase, initial, c.LastAcked(), c.Mem())
  }

  function Begin<T>(c: Cell<T>, v: T): Cell<T> {
    Cell(c.disk, c.hist + [v], Started)
  }

  function Advance<T>(c: Cell<T>): Cell<T>
    requires c.hist != [] && CanStep(c.disk, c.phase)
  {
    Cell(IoStep(c.disk, c.phase, c.Mem()), c.hist, NextPhase(c.phase))
  }

  /** Reopening after a crash: memory is what the file reads as; a missing file reads as the initial value. */
  ghost predicate Reopened<T>(c: Cell<T>, initial: T, c': Cell<T>)
    requires c.hist != [] && c.Acked() > 0
  {
    && Crash(c.disk, c'.disk) && c'.phase == Idle
    && (View(c'.disk).path.Some? ==> View(c'.disk).path.value < |c'.disk.files|)
    && Load(c'.disk) != Some(None)
    && var v := if Load(c'.disk).None? then initial else Load(c'.disk).value.value;
       c'.hist == if v == c.LastAcked() then c.hist[..c.Acked()] else c.hist[..c.Acked()] + [v]
  }

  /** Everything acknowledged stays, in order, at the front of what has been acknowledged. */
  ghost predicate Keeps<T>(c: Cell<T>, c': Cell<T>) {
    && c.hist != [] && c'.hist != [] && c.Acked() <= c'.Acked()
    && c.hist[..c.Acked()] == c'.hist[..c.Acked()]
  }

  lemma KeepsChain<T>(a: Cell<T>, b: Cell<T>, c: Cell<T>)
    requires Keeps(a, b) && Keeps(b, c)
    ensures Keeps(a, c)
  {
    assert a.hist[..a.Acked()] == b.hist[..b.Acked()][..a.Acked()];
    assert c.hist[..a.Acked()] == c.hist[..b.Acked()][..a.Acked()];
  }

  lemma BeginCell<T(!new)>(c: Cell<T>, initial: T, v: T)
    requires CellOk(c, initial) && c.phase == Idle
    ensures CellOk(Begin(c, v), initial) && Begin(c, v).LastAcked() == c.Mem() == c.LastAcked()
    ensures Keeps(c, Begin(c, v))
  {
    BeginOk(c.disk, initial, c.Mem(), c.Mem(), v);
  }

  lemma AdvanceCell<T(!new)>(c: Cell<T>, initial: T)
    requires CellOk(c, initial) && c.phase != Idle
    ensures CanStep(c.disk, c.phase) && CellOk(Advance(c), initial) && Keeps(c, Advance(c))
  {
    IoStepOk(c.disk, c.phase, initial, c.LastAcked(), c.Mem());
  }

  /** A reopened cell has lost at most the unacknowledged last value, and the file is never unreadable. */
  lemma ReopenCell<T(!new)>(c: Cell<T>, initial: T, c': Cell<T>)
    requires CellOk(c, initial) && Reopened(c, initial, c')
    ensures CellOk(c', initial)
    ensures c'.hist == c.hist || c'.hist == c.hist[..c.Acked()]
    ensures Keeps(c, c')
  {
    var v := CrashLeavesOldOrNew(c.disk, c.phase, initial, c.LastAcked(), c.Mem(), c'.disk);
    assert c.hist == c.hist[..|c.hist| - 1] + [c.Mem()];
    hide Ok;
  }

  /** Every crash of a sound cell can be reopened: no step leaves unreadable bytes behind. */
  lemma AlwaysReopens<T(!new)>(c: Cell<T>, initial: T, d': Disk<T>) returns (c': Cell<T>)
    requires CellOk(c, initial) && Crash(c.disk, d')
    ensures c'.disk == d' && Reopened(c, initial, c')
    ensures c.phase in {Started, Created, Written, Synced} ==> c'.hist == c.hist[..c.Acked()]
  {
    var v := CrashLeavesOldOrNew(c.disk, c.phase, initial, c.LastAcked(), c.Mem(), d');
    c' := Cell(d', if v == c.LastAcked() then c.hist[..c.Acked()] else c.hist[..c.Acked()] + [v], Idle);
    hide Ok;
  }

  // --------------------------------------------------------------------- the system

  /**
   covered: how many entries the latest snapshot the Raft core knows of covers; it may purge that far.
   publish: the running state machine write will replace the shared decision when it returns.
   */
  datatype Sys = Sys(log: Cell<LogState>, sm: Cell<SmState>, shared: Option<Decision>, covered: nat,
                     publish: bool, installing: bool)

  datatype Event =
    | LogCall(op: Op)
    | LogIo
    | ApplyCall(count: nat)
    | InstallCall(upTo: nat)
    | SmIo
    | Build
    | CrashReopen

  /** Snapshots are built by a separate task: overlap says whether that can happen during an apply's write. */
  datatype StoreConfig = StoreConfig(g: seq<Entry>, overlap: bool)

  function Init(): Sys {
    Sys(Cell(Fresh(), [EMPTY_LOG], Idle), Cell(Fresh(), [EMPTY_SM], Idle), None, 0, false, false)
  }

  function Purged(l: LogState): nat {
    if l.lastPurged.None? then 0 else l.lastPurged.value.index + 1
  }

  function Max(a: nat, b: nat): nat { if a >= b then a else b }

  ghost predicate Alive(s: Sys) {
    && s.log.hist != [] && s.sm.hist != [] && s.log.Acked() > 0 && s.sm.Acked() > 0
  }

  ghost predicate Step(c: StoreConfig, s: Sys, e: Event, s': Sys)
    requires Indexed(c.g)
  {
    && Alive(s)
    && match e
       case LogCall(op) =>
         && s.log.phase == Idle
         && (op.Purge? ==> op.id.index + 1 <= s.covered)
         && s' == s.(log := Begin(s.log, Perform(s.log.Mem(), op)))
       case LogIo =>
         s.log.phase != Idle && CanStep(s.log.disk, s.log.phase) && s' == s.(log := Advance(s.log))
       case ApplyCall(count) =>
         var n := Applied(s.sm.Mem());
         && s.sm.phase == Idle && n + count <= |c.g|
         && s' == s.(sm := Begin(s.sm, ApplyAll(s.sm.Mem(), c.g[n..n + count])),
                     publish := exists k :: n <= k < n + count && Decides(c.g[k]), installing := false)
       case InstallCall(upTo) =>
         && s.sm.phase == Idle && Applied(s.sm.Mem()) <= upTo <= |c.g|
         && s' == s.(sm := Begin(s.sm, Fold(c.g, upTo)), publish := true, installing := true)
       case SmIo =>
         && s.sm.phase != Idle && CanStep(s.sm.disk, s.sm.phase)
         && var t := s.(sm := Advance(s.sm));
            s' == if s.sm.phase != Persisted then t
                  else t.(shared := if s.publish then s.sm.Mem().decision else s.shared,
                          covered := if s.installing then Max(s.covered, Applied(s.sm.Mem())) else s.covered)
       case Build =>
         (c.overlap || s.sm.phase == Idle) && s' == s.(covered := Max(s.covered, Applied(s.sm.Mem())))
       case CrashReopen =>
         && Reopened(s.log, EMPTY_LOG, s'.log) && Reopened(s.sm, EMPTY_SM, s'.sm)
         && s'.sm.hist != [] && s' == Sys(s'.log, s'.sm, s'.sm.Mem().decision, 0, false, false)
  }

  ghost predicate Run(c: StoreConfig, states: seq<Sys>, events: seq<Event>) {
    && Indexed(c.g) && |states| == |events| + 1 && states[0] == Init()
    && forall k {:trigger events[k]} :: 0 <= k < |events| ==> Step(c, states[k], events[k], states[k + 1])
  }

  /** A batch enters this system as the state machine object applies it: what is written, what published. */
  lemma ApplyCallIsApply(c: StoreConfig, s: Sys, count: nat, s': Sys)
    requires Indexed(c.g) && Step(c, s, ApplyCall(count), s') && s'.sm.hist != []
    ensures var n := Applied(s.sm.Mem()); var sm := s'.sm.Mem();
            ApplyActs(s.sm.Mem(), c.g[n..n + count])
            == [Wrote(sm)] + if s'.publish then [Published(sm.decision)] else []
  {
  }

  // -------------------------------------------------------- meaning, and what is public

  /** Every state machine value is the fold of a prefix of the committed log, and they only move forward. */
  ghost predicate Meaningful(g: seq<Entry>, hist: seq<SmState>) {
    && (forall i :: 0 <= i < |hist| ==> Applied(hist[i]) <= |g| && hist[i] == Fold(g, Applied(hist[i])))
    && (forall i, j :: 0 <= i <= j < |hist| ==> Applied(hist[i]) <= Applied(hist[j]))
  }

  ghost predicate Inv(c: StoreConfig, s: Sys) {
    && CellOk(s.log, EMPTY_LOG) && CellOk(s.sm, EMPTY_SM)
    && Meaningful(c.g, s.sm.hist)
    && s.shared == s.sm.LastAcked().decision
    && (s.sm.phase != Idle && !s.publish ==> s.sm.Mem().decision == s.shared)
  }

  lemma MeaningfulBegins(g: seq<Entry>, hist: seq<SmState>, v: SmState, n: nat)
    requires Indexed(g) && hist != [] && Meaningful(g, hist)
    requires Applied(hist[|hist| - 1]) <= n <= |g| && v == Fold(g, n)
    ensures Meaningful(g, hist + [v])
  {
    AppliedFold(g, n);
  }

  lemma LogStepInv(c: StoreConfig, s: Sys, e: Event, s': Sys)
    requires Indexed(c.g) && Inv(c, s) && Step(c, s, e, s') && (e.LogCall? || e.LogIo?)
    ensures Inv(c, s') && Keeps(s.log, s'.log) && s'.sm == s.sm
  {
    hide Ok, Crash, Meaningful, Perform;
    if e.LogCall? {
      BeginCell(s.log, EMPTY_LOG, Perform(s.log.Mem(), e.op));
    } else {
      AdvanceCell(s.log, EMPTY_LOG);
    }
  }

  lemma ApplyStepInv(c: StoreConfig, s: Sys, count: nat, s': Sys)
    requires Indexed(c.g) && Inv(c, s) && Step(c, s, ApplyCall(count), s')
    ensures Inv(c, s') && Keeps(s.sm, s'.sm) && s'.log == s.log && s'.sm.LastAcked() == s.sm.LastAcked()
  {
    hide Ok, Crash;
    var n := Applied(s.sm.Mem());
    FoldExtends(c.g, n, n + count);
    BeginCell(s.sm, EMPTY_SM, Fold(c.g, n + count));
    MeaningfulBegins(c.g, s.sm.hist, Fold(c.g, n + count), n + count);
    if !s'.publish {
      UndecidedBatch(s.sm.Mem(), c.g[n..n + count]);
    }
    hide ApplyAll, Fold;
  }

  lemma InstallStepInv(c: StoreConfig, s: Sys, upTo: nat, s': Sys)
    requires Indexed(c.g) && Inv(c, s) && Step(c, s, InstallCall(upTo), s')
    ensures Inv(c, s') && Keeps(s.sm, s'.sm) && s'.log == s.log && s'.sm.LastAcked() == s.sm.LastAcked()
  {
    hide Ok, Crash;
    BeginCell(s.sm, EMPTY_SM, Fold(c.g, upTo));
    MeaningfulBegins(c.g, s.sm.hist, Fold(c.g, upTo), upTo);
  }

  lemma SmIoStepInv(c: StoreConfig, s: Sys, s': Sys)
    requires Indexed(c.g) && Inv(c, s) && Step(c, s, SmIo, s')
    ensures Inv(c, s') && Keeps(s.sm, s'.sm) && s'.log == s.log
    ensures s'.sm.LastAcked() == if s.sm.phase == Persisted then s.sm.Mem() else s.sm.LastAcked()
  {
    hide Ok, Crash, Meaningful;
    AdvanceCell(s.sm, EMPTY_SM);
  }

  lemma CrashStepInv(c: StoreConfig, s: Sys, s': Sys)
    requires Indexed(c.g) && Inv(c, s) && Step(c, s, CrashReopen, s')
    ensures Inv(c, s') && Keeps(s.log, s'.log) && Keeps(s.sm, s'.sm)
    ensures s'.log.hist == s.log.hist || s'.log.hist == s.log.hist[..s.log.Acked()]
  {
    hide Ok, Crash, View, Load, Fold, ApplyAll;
    ReopenCell(s.log, EMPTY_LOG, s'.log);
    ReopenCell(s.sm, EMPTY_SM, s'.sm);
  }

  lemma InvStep(c: StoreConfig, s: Sys, e: Event, s': Sys)
    requires Indexed(c.g) && Inv(c, s) && Step(c, s, e, s')
    ensures Inv(c, s')
    ensures Keeps(s.log, s'.log) && Keeps(s.sm, s'.sm)
  {
    match e
    case LogCall(_) => LogStepInv(c, s, e, s'); hide Step;
    case LogIo => LogStepInv(c, s, e, s'); hide Step;
    case ApplyCall(count) => ApplyStepInv(c, s, count, s'); hide Step;
    case InstallCall(upTo) => InstallStepInv(c, s, upTo, s'); hide Step;
    case SmIo => SmIoStepInv(c, s, s'); hide Step;
    case Build => hide Ok;
    case CrashReopen => CrashStepInv(c, s, s'); hide Step;
  }

  lemma InitInv(c: StoreConfig)
    requires Indexed(c.g)
    ensures Inv(c, Init())
  {
    FreshOk(EMPTY_LOG, EMPTY_LOG);
    FreshOk(EMPTY_SM, EMPTY_SM);
    AppliedFold(c.g, 0);
    assert c.g[..0] == [];
  }

  lemma {:induction false} InvAlways(c: StoreConfig, states: seq<Sys>, events: seq<Event>, k: nat)
    requires Run(c, states, events) && k <= |events|
    ensures Inv(c, states[k])
  {
    hide Inv, Step;
    if k == 0 {
      InitInv(c);
    } else {
      InvAlways(c, states, events, k - 1);
      assert events[k - 1] in events;
      InvStep(c, states[k - 1], events[k - 1], states[k]);
    }
  }

  /**
   Compaction and crashes preserve meaning: at every point of every run the state machine equals the
   fold of the committed log up to its own last applied entry.
   */
  lemma StateIsFold(c: StoreConfig, states: seq<Sys>, events: seq<Event>, k: nat)
    requires Run(c, states, events) && k <= |events|
    ensures states[k].sm.hist != [] && Applied(states[k].sm.Mem()) <= |c.g|
    ensures states[k].sm.Mem() == Fold(c.g, Applied(states[k].sm.Mem()))
  {
    InvAlways(c, states, events, k);
    hide Step, Ok;
  }

  /**
   Acknowledged means kept: whatever both stores had acknowledged by step i (votes, appends, purges,
   applied batches) is a prefix of what they have gone through by any later step, across all crashes.
   */
  lemma {:induction false} AcknowledgedStays(c: StoreConfig, states: seq<Sys>, events: seq<Event>, i: nat, j: nat)
    requires Run(c, states, events) && i <= j <= |events|
    ensures Alive(states[i]) && Alive(states[j])
    ensures Keeps(states[i].log, states[j].log) && Keeps(states[i].sm, states[j].sm)
    decreases j
  {
    hide Step, Ok, Meaningful;
    InvAlways(c, states, events, i);
    InvAlways(c, states, events, j);
    if i < j {
      AcknowledgedStays(c, states, events, i, j - 1);
      InvAlways(c, states, events, j - 1);
      assert events[j - 1] in events;
      InvStep(c, states[j - 1], events[j - 1], states[j]);
      KeepsChain(states[i].log, states[j - 1].log, states[j].log);
      KeepsChain(states[i].sm, states[j - 1].sm, states[j].sm);
    }
  }

  /**
   Published implies durable: a decision readable at step i is that of a state which every crash at any
   later step still recovers or has moved past.
   */
  lemma PublishedIsDurable(c: StoreConfig, states: seq<Sys>, events: seq<Event>, i: nat, j: nat, d': Disk<SmState>)
    returns (n: nat, r: Cell<SmState>)
    requires Run(c, states, events) && i <= j <= |events| && Alive(states[j]) && Crash(states[j].sm.disk, d')
    ensures n <= |c.g| && states[i].shared == Fold(c.g, n).decision
    ensures r.disk == d' && Reopened(states[j].sm, EMPTY_SM, r) && r.hist != []
    ensures n <= Applied(r.Mem()) <= |c.g| && r.Mem() == Fold(c.g, Applied(r.Mem()))
  {
    InvAlways(c, states, events, i);
    InvAlways(c, states, events, j);
    AcknowledgedStays(c, states, events, i, j);
    hide Step, Ok, Crash;
    var s, t := states[i].sm, states[j].sm;
    n := Applied(s.LastAcked());
    assert s.hist[..s.Acked()][s.Acked() - 1] == t.hist[..s.Acked()][s.Acked() - 1];
    r := AlwaysReopens(t, EMPTY_SM, d');
    ReopenCell(t, EMPTY_SM, r);
    assert r.hist[..t.Acked()][s.Acked() - 1] == t.hist[..t.Acked()][s.Acked() - 1];
  }

  /**
   A decision readable at any point of any run is that of the last decision entry of a prefix of the
   committed log, none exactly if that prefix has none, and every later crash recovers at least the prefix.
   */
  lemma PublishedIsLastDecision(c: StoreConfig, states: seq<Sys>, events: seq<Event>, i: nat, j: nat,
                                d': Disk<SmState>)
    returns (n: nat, r: Cell<SmState>)
    requires Run(c, states, events) && i <= j <= |events| && Alive(states[j]) && Crash(states[j].sm.disk, d')
    ensures n <= |c.g| && (states[i].shared.None? <==> forall k :: 0 <= k < n ==> !c.g[k].payload.Normal?)
    ensures forall k: nat :: LastDecisionAt(c.g, n, k) ==> states[i].shared == Some(c.g[k].payload.decision)
    ensures Reopened(states[j].sm, EMPTY_SM, r) && r.disk == d' && r.hist != [] && Applied(r.Mem()) >= n
  {
    n, r := PublishedIsDurable(c, states, events, i, j, d');
    hide Fold, Run, Crash, Reopened;
    NothingFromNothing(c.g, n);
    if !(forall k :: 0 <= k < n ==> !c.g[k].payload.Normal?) {
      var k := LastDecisionExists(c.g, n);
      DecisionIsLast(c.g, n, k);
    }
    forall k: nat | LastDecisionAt(c.g, n, k)
      ensures states[i].shared == Some(c.g[k].payload.decision)
    {
      DecisionIsLast(c.g, n, k);
    }
  }

  /** A vote, entry or purge acknowledged at step i is in what any crash from then on recovers. */
  lemma AcknowledgedLogIsDurable(c: StoreConfig, states: seq<Sys>, events: seq<Event>, i: nat, j: nat,
                                 d': Disk<LogState>)
    returns (r: Cell<LogState>)
    requires Run(c, states, events) && i <= j <= |events| && Alive(states[j]) && Crash(states[j].log.disk, d')
    ensures Alive(states[i])
    ensures r.disk == d' && Reopened(states[j].log, EMPTY_LOG, r)
    ensures states[i].log.hist[..states[i].log.Acked()] <= r.hist
  {
    InvAlways(c, states, events, j);
    AcknowledgedStays(c, states, events, i, j);
    hide Step, Ok, Crash;
    r := AlwaysReopens(states[j].log, EMPTY_LOG, d');
    ReopenCell(states[j].log, EMPTY_LOG, r);
  }

  // ------------------------------------------------------------ which calls took effect

  /**
   The events whose log calls are in effect after k steps: every call begun so far, except those that a
   crash undid while they were being written.
   */
  ghost function Calls(states: seq<Sys>, events: seq<Event>, k: nat): seq<nat>
    requires |states| == |events| + 1 && k <= |events|
  {
    if k == 0 then []
    else
      var before := Calls(states, events, k - 1);
      match events[k - 1]
      case LogCall(_) => before + [k - 1]
      case CrashReopen =>
        if |states[k].log.hist| <= |before| && before != [] then before[..|before| - 1] else before
      case _ => before
  }

  ghost function OpsOf(events: seq<Event>, calls: seq<nat>): (ops: seq<Op>)
    requires forall j :: 0 <= j < |calls| ==> calls[j] < |events| && events[calls[j]].LogCall?
    ensures |ops| == |calls| && forall j :: 0 <= j < |calls| ==> ops[j] == events[calls[j]].op
  {
    seq(|calls|, j requires 0 <= j < |calls| => events[calls[j]].op)
  }

  lemma OpsOfOneMore(events: seq<Event>, calls: seq<nat>, i: nat)
    requires forall j :: 0 <= j < |calls| ==> calls[j] < |events| && events[calls[j]].LogCall?
    requires i < |events| && events[i].LogCall?
    ensures OpsOf(events, calls + [i]) == OpsOf(events, calls) + [events[i].op]
  {
  }

  lemma OpsOfOneLess(events: seq<Event>, calls: seq<nat>)
    requires forall j :: 0 <= j < |calls| ==> calls[j] < |events| && events[calls[j]].LogCall?
    requires calls != []
    ensures OpsOf(events, calls[..|calls| - 1]) == OpsOf(events, calls)[..|calls| - 1]
  {
  }

  /** They are log calls in the order they were made. */
  ghost predicate InOrder(events: seq<Event>, calls: seq<nat>, k: nat) {
    && (forall j :: 0 <= j < |calls| ==> calls[j] < k <= |events| && events[calls[j]].LogCall?)
    && (forall i, j :: 0 <= i < j < |calls| ==> calls[i] < calls[j])
  }

  /** What memory has been is what the calls in effect made of it, one after the other. */
  ghost predicate Accounted(hist: seq<LogState>, ops: seq<Op>) {
    |hist| == |ops| + 1 && forall j :: 0 <= j <= |ops| ==> hist[j] == PerformAll(EMPTY_LOG, ops[..j])
  }

  lemma AccountedGrows(hist: seq<LogState>, ops: seq<Op>, op: Op)
    requires Accounted(hist, ops)
    ensures Accounted(hist + [Perform(hist[|hist| - 1], op)], ops + [op])
  {
    var more := ops + [op];
    assert more[..|ops|] == ops == ops[..|ops|] && more[..|more|] == more;
    PerformLast(EMPTY_LOG, more);
    forall j | 0 <= j <= |ops|
      ensures more[..j] == ops[..j]
    {
    }
    hide PerformAll;
  }

  lemma AccountedShrinks(hist: seq<LogState>, ops: seq<Op>)
    requires Accounted(hist, ops) && ops != []
    ensures Accounted(hist[..|hist| - 1], ops[..|ops| - 1])
  {
    var n := |ops| - 1;
    forall j | 0 <= j <= n
      ensures ops[..n][..j] == ops[..j]
    {
    }
    hide PerformAll;
  }

  lemma {:induction false} CallsAccount(c: StoreConfig, states: seq<Sys>, events: seq<Event>, k: nat)
    requires Run(c, states, events) && k <= |events|
    ensures InOrder(events, Calls(states, events, k), k)
    ensures Accounted(states[k].log.hist, OpsOf(events, Calls(states, events, k)))
  {
    hide Inv, Step, Accounted, PerformAll;
    if k == 0 {
      assert Accounted([EMPTY_LOG], []) by { NothingAccounted(); }
      assert OpsOf(events, []) == [];
    } else {
      CallsAccount(c, states, events, k - 1);
      InvAlways(c, states, events, k - 1);
      assert events[k - 1] in events;
      CallsStep(c, states, events, k);
    }
  }

  lemma NothingAccounted()
    ensures Accounted([EMPTY_LOG], [])
  {
    var none: seq<Op> := [];
    assert none[..0] == [];
  }

  /** How a step changes the log's history. */
  lemma HistStep(c: StoreConfig, s: Sys, e: Event, s': Sys)
    requires Indexed(c.g) && Inv(c, s) && Step(c, s, e, s')
    ensures s.log.hist != []
    ensures e.LogCall? ==> s'.log.hist == s.log.hist + [Perform(s.log.Mem(), e.op)]
    ensures e.CrashReopen? ==> s'.log.hist == s.log.hist || s'.log.hist == s.log.hist[..|s.log.hist| - 1]
    ensures e.CrashReopen? ==> s'.log.hist != []
    ensures !e.LogCall? && !e.CrashReopen? ==> s'.log.hist == s.log.hist
  {
    hide Ok, Crash, Perform;
    if e.CrashReopen? {
      CrashStepInv(c, s, s');
    }
  }

  lemma CallsStep(c: StoreConfig, states: seq<Sys>, events: seq<Event>, k: nat)
    requires Run(c, states, events) && 0 < k <= |events| && Inv(c, states[k - 1])
    requires InOrder(events, Calls(states, events, k - 1), k - 1)
    requires Accounted(states[k - 1].log.hist, OpsOf(events, Calls(states, events, k - 1)))
    ensures InOrder(events, Calls(states, events, k), k)
    ensures Accounted(states[k].log.hist, OpsOf(events, Calls(states, events, k)))
  {
    hide Inv, Step, PerformAll, Perform, OpsOf, Accounted;
    var s, e, s' := states[k - 1], events[k - 1], states[k];
    assert events[k - 1] in events;
    HistStep(c, s, e, s');
    var before := Calls(states, events, k - 1);
    var ops := OpsOf(events, before);
    assert |s.log.hist| == |before| + 1 by { AccountedSize(s.log.hist, ops); }
    if e.LogCall? {
      AccountedGrows(s.log.hist, ops, e.op);
      OpsOfOneMore(events, before, k - 1);
    } else if e.CrashReopen? && s'.log.hist != s.log.hist {
      AccountedShrinks(s.log.hist, ops);
      OpsOfOneLess(events, before);
    }
  }

  lemma AccountedSize(hist: seq<LogState>, ops: seq<Op>)
    requires Accounted(hist, ops)
    ensures |hist| == |ops| + 1 && hist[|ops|] == PerformAll(EMPTY_LOG, ops)
    ensures ops != [] ==> hist[|ops| - 1] == PerformAll(EMPTY_LOG, ops[..|ops| - 1])
  {
    assert ops[..|ops|] == ops;
  }

  /** How many of the calls in effect have been acknowledged. */
  ghost function AckedCalls(states: seq<Sys>, events: seq<Event>, k: nat): seq<nat>
    requires |states| == |events| + 1 && k <= |events|
  {
    var calls := Calls(states, events, k);
    if states[k].log.phase == Idle || calls == [] then calls else calls[..|calls| - 1]
  }

  /** What a crash recovers of the calls in effect: all of them, or all but the one in progress. */
  lemma RecoversCalls(c: StoreConfig, states: seq<Sys>, events: seq<Event>, k: nat, d': Disk<LogState>)
    returns (r: Cell<LogState>, calls: seq<nat>)
    requires Run(c, states, events) && k <= |events| && Alive(states[k]) && Crash(states[k].log.disk, d')
    ensures r.disk == d' && Reopened(states[k].log, EMPTY_LOG, r) && r.hist != []
    ensures calls == Calls(states, events, k) || calls == AckedCalls(states, events, k)
    ensures InOrder(events, calls, k) && r.Mem() == PerformAll(EMPTY_LOG, OpsOf(events, calls))
  {
    hide Inv, Step, CellOk, Crash, PerformAll, OpsOf, Accounted, Reopened, Calls;
    InvAlways(c, states, events, k);
    CallsAccount(c, states, events, k);
    InvLogCell(c, states[k]);
    var s, all := states[k].log, Calls(states, events, k);
    r := AlwaysReopens(s, EMPTY_LOG, d');
    ReopenCell(s, EMPTY_LOG, r);
    AccountedSize(s.hist, OpsOf(events, all));
    if r.hist == s.hist {
      calls := all;
    } else {
      AckedIsLast(s, r);
      calls := AckedCalls(states, events, k);
      OpsOfOneLess(events, all);
    }
  }

  lemma InvLogCell(c: StoreConfig, s: Sys)
    requires Inv(c, s)
    ensures CellOk(s.log, EMPTY_LOG) && s.log.hist != [] && s.log.Acked() > 0
  {
    hide Ok;
  }

  /** A crash that loses something loses the call in progress. */
  lemma AckedIsLast(c: Cell<LogState>, r: Cell<LogState>)
    requires c.hist != [] && r.hist == c.hist[..c.Acked()] && r.hist != c.hist
    ensures c.phase != Idle && |r.hist| == |c.hist| - 1 && r.hist != [] ==> r.Mem() == c.hist[|c.hist| - 2]
    ensures c.phase != Idle && |r.hist| == |c.hist| - 1
  {
    assert c.hist[..|c.hist|] == c.hist;
  }

  /**
   After a crash at any point of any run the vote that is read back is that of the last call that saved
   one, among those acknowledged and possibly the one in progress; if there is none, there is no vote.
   The same holds of the committed index.
   */
  lemma RecoveredVoteIsLastSaved(c: StoreConfig, states: seq<Sys>, events: seq<Event>, k: nat, d': Disk<LogState>)
    returns (r: Cell<LogState>, calls: seq<nat>)
    requires Run(c, states, events) && k <= |events| && Alive(states[k]) && Crash(states[k].log.disk, d')
    ensures r.disk == d' && Reopened(states[k].log, EMPTY_LOG, r) && r.hist != []
    ensures calls == Calls(states, events, k) || calls == AckedCalls(states, events, k)
    ensures InOrder(events, calls, k)
    ensures forall j: nat :: LastVoteAt(OpsOf(events, calls), j) ==> r.Mem().vote == Some(events[calls[j]].op.vote)
    ensures (forall op :: op in OpsOf(events, calls) ==> !op.SaveVote?) ==> r.Mem().vote == None
    ensures forall j: nat :: LastCommittedAt(OpsOf(events, calls), j) ==>
              r.Mem().committed == events[calls[j]].op.committed
  {
    r, calls := RecoversCalls(c, states, events, k, d');
    hide Run, Reopened, Crash, PerformAll;
    var ops := OpsOf(events, calls);
    UnsavedStays(EMPTY_LOG, ops);
    forall j: nat | LastVoteAt(ops, j)
      ensures r.Mem().vote == Some(ops[j].vote)
    {
      VoteIsLastSaved(EMPTY_LOG, ops, j);
    }
    forall j: nat | LastCommittedAt(ops, j)
      ensures r.Mem().committed == ops[j].committed
    {
      CommittedIsLastSaved(EMPTY_LOG, ops, j);
    }
  }

  /** A call once acknowledged stays in effect, at its place, through every later step. */
  lemma {:induction false} AckedCallsStay(c: StoreConfig, states: seq<Sys>, events: seq<Event>, i: nat, k: nat)
    requires Run(c, states, events) && i <= k <= |events|
    ensures AckedCalls(states, events, i) <= AckedCalls(states, events, k) <= Calls(states, events, k)
    decreases k
  {
    hide Inv, Step, Accounted, PerformAll, OpsOf, InOrder, Calls;
    if i < k {
      AckedCallsStay(c, states, events, i, k - 1);
      InvAlways(c, states, events, k - 1);
      HistSize(c, states, events, k - 1);
      AckedStep(c, states, events, k);
      PrefixChain(AckedCalls(states, events, i), AckedCalls(states, events, k - 1), AckedCalls(states, events, k));
    }
  }

  lemma HistSize(c: StoreConfig, states: seq<Sys>, events: seq<Event>, k: nat)
    requires Run(c, states, events) && k <= |events|
    ensures |states[k].log.hist| == |Calls(states, events, k)| + 1
  {
    hide Step, PerformAll, Calls;
    CallsAccount(c, states, events, k);
  }

  lemma PrefixChain<T>(a: seq<T>, b: seq<T>, c: seq<T>)
    requires a <= b <= c
    ensures a <= c
  {
  }

  lemma AckedStep(c: StoreConfig, states: seq<Sys>, events: seq<Event>, k: nat)
    requires Run(c, states, events) && 0 < k <= |events| && Inv(c, states[k - 1])
    requires |states[k - 1].log.hist| == |Calls(states, events, k - 1)| + 1
    ensures AckedCalls(states, events, k - 1) <= AckedCalls(states, events, k)
  {
    hide Inv, Step, PerformAll, Perform;
    var s, e, s' := states[k - 1], events[k - 1], states[k];
    assert events[k - 1] in events;
    HistStep(c, s, e, s');
    PhaseStep(c, s, e, s');
  }

  /** A call is begun only at rest, and only its own completion or a crash ends it. */
  lemma PhaseStep(c: StoreConfig, s: Sys, e: Event, s': Sys)
    requires Indexed(c.g) && Inv(c, s) && Step(c, s, e, s')
    ensures e.LogCall? ==> s.log.phase == Idle && s'.log.phase == Started
    ensures e.CrashReopen? ==> s'.log.phase == Idle
    ensures e.CrashReopen? && s.log.phase == Idle ==> s'.log.hist == s.log.hist
    ensures !e.LogCall? && !e.CrashReopen? && s.log.phase == Idle ==> s'.log.phase == Idle
  {
    hide Ok, Crash, Perform;
    if e.CrashReopen? {
      CrashStepInv(c, s, s');
      assert s.log.hist[..|s.log.hist|] == s.log.hist;
    }
  }

  // ---------------------------------------------------------- the log across reopenings

  ghost predicate IsSequence(l: LogState) {
    exists o :: Represents(l, o)
  }

  /** The Raft core keeps its side of the storage contract, whatever the store currently stands for. */
  ghost predicate Dutiful(s: Sys, e: Event) {
    e.LogCall? && s.log.hist != [] ==> forall o :: Represents(s.log.Mem(), o) ==> Contract(o, e.op)
  }

  lemma SequenceStep(c: StoreConfig, s: Sys, e: Event, s': Sys)
    requires Indexed(c.g) && Inv(c, s) && Step(c, s, e, s') && Dutiful(s, e)
    requires forall l :: l in s.log.hist ==> IsSequence(l)
    ensures forall l :: l in s'.log.hist ==> IsSequence(l)
  {
    hide Ok, Crash, Meaningful, Perform, Represents, Contract;
    match e
    case LogCall(op) =>
      assert s.log.Mem() in s.log.hist;
      var o :| Represents(s.log.Mem(), o);
      OperationRefines(s.log.Mem(), o, op);
    case CrashReopen =>
      CrashStepInv(c, s, s');
    case _ =>
  }

  /**
   Across every history of calls, crashes and reopenings, each value the log store has had stands for one
   sequence of entries right after its purge point, as long as the calls keep to the contract.
   */
  lemma {:induction false} LogIsAlwaysASequence(c: StoreConfig, states: seq<Sys>, events: seq<Event>, k: nat)
    requires Run(c, states, events) && k <= |events|
    requires forall j :: 0 <= j < |events| ==> Dutiful(states[j], events[j])
    ensures forall l :: l in states[k].log.hist ==> IsSequence(l)
  {
    hide Inv, Step, Dutiful;
    if k == 0 {
      assert Represents(EMPTY_LOG, OffsetLog(None, []));
    } else {
      LogIsAlwaysASequence(c, states, events, k - 1);
      InvAlways(c, states, events, k - 1);
      assert events[k - 1] in events;
      SequenceStep(c, states[k - 1], events[k - 1], states[k]);
    }
  }

  // ------------------------------------------------------------- purge against applied

  /** Nothing purged is missing from any state machine value that could still be recovered. */
  ghost predicate Covered(s: Sys)
    requires Alive(s)
  {
    && s.covered <= Applied(s.sm.LastAcked())
    && forall l :: l in s.log.hist ==> Purged(l) <= Applied(s.sm.LastAcked())
  }

  lemma CoveredStep(c: StoreConfig, s: Sys, e: Event, s': Sys)
    requires Indexed(c.g) && !c.overlap && Inv(c, s) && Covered(s) && Step(c, s, e, s')
    ensures Inv(c, s') && Covered(s')
  {
    hide Ok, Crash, View, Load, Fold, ApplyAll;
    match e
    case LogCall(op) =>
      LogStepInv(c, s, e, s');
      assert Purged(s.log.Mem()) <= Applied(s.sm.LastAcked());
    case LogIo => LogStepInv(c, s, e, s');
    case ApplyCall(count) => ApplyStepInv(c, s, count, s');
    case InstallCall(upTo) => InstallStepInv(c, s, upTo, s');
    case SmIo =>
      SmIoStepInv(c, s, s');
      assert Applied(s.sm.LastAcked()) <= Applied(s.sm.Mem());
    case Build => InvStep(c, s, e, s');
    case CrashReopen =>
      CrashStepInv(c, s, s');
      assert s'.sm.hist[..s.sm.Acked()][s.sm.Acked() - 1] == s.sm.hist[..s.sm.Acked()][s.sm.Acked() - 1];
  }

  lemma {:induction false} CoveredAlways(c: StoreConfig, states: seq<Sys>, events: seq<Event>, k: nat)
    requires Run(c, states, events) && !c.overlap && k <= |events|
    ensures Inv(c, states[k]) && Covered(states[k])
  {
    hide Inv, Step;
    if k == 0 {
      InitInv(c);
    } else {
      CoveredAlways(c, states, events, k - 1);
      assert events[k - 1] in events;
      CoveredStep(c, states[k - 1], events[k - 1], states[k]);
    }
  }

  /** The node reopens with entries purged that its state machine has not applied: the replay has a hole. */
  ghost predicate Hole(s: Sys) {
    s.log.hist != [] && s.sm.hist != [] && Purged(s.log.Mem()) > Applied(s.sm.Mem())
  }

  ghost predicate Reachable(c: StoreConfig, s: Sys) {
    exists states: seq<Sys>, events: seq<Event> {:trigger Run(c, states, events)} ::
      Run(c, states, events) && states[|events|] == s
  }

  ghost predicate HoleAfterCrash(c: StoreConfig) {
    exists s: Sys, s': Sys :: HoleOpens(c, s, s')
  }

  ghost predicate HoleOpens(c: StoreConfig, s: Sys, s': Sys) {
    Indexed(c.g) && Reachable(c, s) && Step(c, s, CrashReopen, s') && Hole(s')
  }

  lemma Extend(c: StoreConfig, s: Sys, e: Event, s': Sys)
    requires Indexed(c.g) && Reachable(c, s) && Step(c, s, e, s')
    ensures Reachable(c, s') && Inv(c, s')
  {
    hide Step, Inv;
    var states, events :| Run(c, states, events) && states[|events|] == s;
    assert Run(c, states + [s'], events + [e]);
    InvAlways(c, states + [s'], events + [e], |events| + 1);
  }

  function StepsLeft(p: Phase): nat {
    match p
    case Idle => 0
    case Persisted => 1
    case Renamed => 2
    case Synced => 3
    case Written => 4
    case Created => 5
    case Started => 6
  }

  /** A log write that is left alone completes. */
  lemma {:induction false} FinishLog(c: StoreConfig, s: Sys) returns (s': Sys)
    requires Indexed(c.g) && Reachable(c, s) && Inv(c, s)
    ensures Reachable(c, s') && Inv(c, s')
    ensures s'.log.phase == Idle && s'.log.hist == s.log.hist && s' == s.(log := s'.log)
    decreases StepsLeft(s.log.phase)
  {
    if s.log.phase == Idle {
      s' := s;
    } else {
      AdvanceCell(s.log, EMPTY_LOG);
      var t := s.(log := Advance(s.log));
      assert Step(c, s, LogIo, t) by { hide Ok, Meaningful; }
      Extend(c, s, LogIo, t);
      hide Step, Inv;
      s' := FinishLog(c, t);
    }
  }

  lemma SomeCrash<T(!new)>(d: Disk<T>) returns (d': Disk<T>)
    ensures Crash(d, d')
  {
    d' := Disk(seq(|d.files|, i requires 0 <= i < |d.files| => d.files[i].(synced := true)),
               Replay(d.dir, d.pending[..0]), []);
  }

  /** An apply's state is snapshotted before it is on disk; the log is purged; the node crashes. */
  lemma OverlapOpensHole(c: StoreConfig)
    requires Indexed(c.g) && c.overlap && c.g != []
    ensures HoleAfterCrash(c)
  {
    hide Ok, Crash, Meaningful;
    var id, batch := c.g[0].id, c.g[0..0 + 1];
    var s0 := Init();
    InitInv(c);
    assert Run(c, [s0], []);
    var s1 := s0.(log := Begin(s0.log, Perform(s0.log.Mem(), Append(batch))));
    Extend(c, s0, LogCall(Append(batch)), s1);
    var s2 := FinishLog(c, s1);
    var publish := exists k :: 0 <= k < 0 + 1 && Decides(c.g[k]);
    var s3 := s2.(sm := Begin(s2.sm, ApplyAll(EMPTY_SM, batch)), publish := publish);
    Extend(c, s2, ApplyCall(1), s3);
    var s4 := s3.(covered := 1);
    assert ApplyAll(EMPTY_SM, batch).lastApplied == Some(id);
    Extend(c, s3, Build, s4);
    var s5 := s4.(log := Begin(s4.log, Perform(s4.log.Mem(), Purge(id))));
    Extend(c, s4, LogCall(Purge(id)), s5);
    var s6 := FinishLog(c, s5);
    PurgedCrash(c, s6);
  }

  lemma PurgedCrash(c: StoreConfig, s: Sys)
    requires Indexed(c.g) && c.overlap && Reachable(c, s) && Inv(c, s)
    requires s.log.phase == Idle && s.sm.phase == Started
    requires Purged(s.log.Mem()) > Applied(s.sm.LastAcked())
    ensures HoleAfterCrash(c)
  {
    hide Ok, Meaningful, Load, View;
    var d1 := SomeCrash(s.log.disk);
    var d2 := SomeCrash(s.sm.disk);
    hide Crash;
    var l := AlwaysReopens(s.log, EMPTY_LOG, d1);
    var m := AlwaysReopens(s.sm, EMPTY_SM, d2);
    ReopenCell(s.log, EMPTY_LOG, l);
    var s' := Sys(l, m, m.Mem().decision, 0, false, false);
    assert HoleOpens(c, s, s');
  }

  /** Without overlap, whatever is reopened has applied at least what has been purged. */
  lemma NoHole(c: StoreConfig, s: Sys, s': Sys)
    requires Indexed(c.g) && !c.overlap && Reachable(c, s) && Step(c, s, CrashReopen, s')
    ensures Alive(s') && Purged(s'.log.Mem()) <= Applied(s'.sm.Mem())
  {
    var states, events :| Run(c, states, events) && states[|events|] == s;
    CoveredAlways(c, states, events, |events|);
    CoveredStep(c, s, CrashReopen, s');
    hide Ok, Crash, Meaningful;
    assert s'.log.Mem() in s'.log.hist;
  }

  // ------------------------------------------------- the committed part of the log

  /** From its purge point to `mark` the log holds the committed entries. */
  ghost predicate HoldsCommitted(g: seq<Entry>, l: LogState, mark: nat) {
    mark <= |g| && forall i: nat :: Purged(l) <= i < mark ==> i in l.log && l.log[i] == g[i]
  }

  /**
   What the Raft core guarantees about the entries it counts as committed on this node, those below
   `mark`: it does not truncate or overwrite them, purges move forward, and it counts further entries
   only once they are acknowledged and are the committed ones.
   */
  ghost predicate KeepsCommitted(c: StoreConfig, s: Sys, e: Event, mark: nat, s': Sys, mark': nat)
    requires Alive(s) && Alive(s')
  {
    && mark <= mark' <= |c.g|
    && (e.LogCall? ==>
          match e.op
          case Append(entries) => forall x :: x in entries ==> x.id.index >= mark
          case Truncate(index) => index >= mark
          case Purge(id) => id.index + 1 >= Purged(s.log.Mem())
          case _ => true)
    && Counts(c.g, s'.log.LastAcked(), mark, mark') && Counts(c.g, s'.log.Mem(), mark, mark')
  }

  ghost predicate Counts(g: seq<Entry>, l: LogState, mark: nat, mark': nat) {
    mark' <= |g| && forall i: nat :: mark <= i < mark' && Purged(l) <= i ==> i in l.log && l.log[i] == g[i]
  }

  lemma {:induction false} InsertedKeeps(log: map<nat, Entry>, entries: seq<Entry>, mark: nat)
    requires forall x :: x in entries ==> x.id.index >= mark
    ensures forall i: nat :: i < mark && i in log ==> i in Inserted(log, entries) && Inserted(log, entries)[i] == log[i]
    decreases |entries|
  {
    if entries != [] {
      assert entries[|entries| - 1] in entries;
      InsertedKeeps(log, entries[..|entries| - 1], mark);
    }
  }

  lemma PerformKeeps(c: StoreConfig, s: Sys, op: Op, mark: nat, s': Sys, mark': nat)
    requires Alive(s) && Alive(s')
    requires KeepsCommitted(c, s, LogCall(op), mark, s', mark') && HoldsCommitted(c.g, s.log.Mem(), mark)
    ensures HoldsCommitted(c.g, Perform(s.log.Mem(), op), mark)
  {
    if op.Append? {
      InsertedKeeps(s.log.Mem().log, op.entries, mark);
    }
  }

  lemma CommittedStep(c: StoreConfig, s: Sys, e: Event, mark: nat, s': Sys, mark': nat)
    requires Indexed(c.g) && Inv(c, s) && Step(c, s, e, s') && Alive(s) && Alive(s')
    requires KeepsCommitted(c, s, e, mark, s', mark')
    requires HoldsCommitted(c.g, s.log.LastAcked(), mark) && HoldsCommitted(c.g, s.log.Mem(), mark)
    ensures HoldsCommitted(c.g, s'.log.LastAcked(), mark') && HoldsCommitted(c.g, s'.log.Mem(), mark')
  {
    hide Ok, Crash, Meaningful;
    if e.CrashReopen? {
      CrashStepInv(c, s, s');
    } else if e.LogCall? {
      PerformKeeps(c, s, e.op, mark, s', mark');
    }
    hide Perform;
    assert HoldsCommitted(c.g, s'.log.LastAcked(), mark) && HoldsCommitted(c.g, s'.log.Mem(), mark);
  }

  /** How far the core counts entries as committed, state by state. */
  ghost predicate Marked(c: StoreConfig, states: seq<Sys>, events: seq<Event>, marks: seq<nat>) {
    && |marks| == |states| == |events| + 1 && marks[0] == 0
    && forall k {:trigger events[k]} :: 0 <= k < |events| ==>
         && Alive(states[k]) && Alive(states[k + 1])
         && KeepsCommitted(c, states[k], events[k], marks[k], states[k + 1], marks[k + 1])
  }

  lemma {:induction false} CommittedAlways(c: StoreConfig, states: seq<Sys>, events: seq<Event>, marks: seq<nat>,
                                           k: nat)
    requires Run(c, states, events) && Marked(c, states, events, marks) && k <= |events|
    ensures Alive(states[k])
    ensures HoldsCommitted(c.g, states[k].log.LastAcked(), marks[k])
    ensures HoldsCommitted(c.g, states[k].log.Mem(), marks[k])
  {
    hide Inv, Step, KeepsCommitted;
    InvAlways(c, states, events, k);
    if k > 0 {
      CommittedAlways(c, states, events, marks, k - 1);
      InvAlways(c, states, events, k - 1);
      assert events[k - 1] in events;
      CommittedStep(c, states[k - 1], events[k - 1], marks[k - 1], states[k], marks[k]);
    }
    assert Alive(states[k]) by { InvAlive(c, states[k]); }
  }

  lemma InvAlive(c: StoreConfig, s: Sys)
    requires Inv(c, s)
    ensures Alive(s)
  {
    hide Ok;
  }

  lemma {:induction false} RangeIsCommitted(g: seq<Entry>, log: map<nat, Entry>, n: nat, upTo: nat)
    requires n <= upTo <= |g| && forall i: nat :: n <= i < upTo ==> i in log && log[i] == g[i]
    ensures RangeOf(log, n, upTo) == g[n..upTo]
    decreases upTo
  {
    if n < upTo {
      RangeIsCommitted(g, log, n, upTo - 1);
      assert g[n..upTo] == g[n..upTo - 1] + [g[upTo - 1]];
    }
  }

  /**
   So a reopened node catches up from its own files: along every run, whatever is reopened after a crash,
   the entries its log retains from its applied point on bring it to the fold of the committed log, as
   far as this node had come to count entries as committed.
   */
  lemma ReopenedNodeCatchesUp(c: StoreConfig, states: seq<Sys>, events: seq<Event>, marks: seq<nat>, k: nat, upTo: nat)
    requires Run(c, states, events) && Marked(c, states, events, marks) && !c.overlap
    requires k < |events| && events[k] == CrashReopen && Alive(states[k + 1])
    requires Applied(states[k + 1].sm.Mem()) <= upTo <= marks[k + 1]
    ensures var sm, log := states[k + 1].sm.Mem(), states[k + 1].log.Mem().log;
            upTo <= |c.g| && ApplyAll(sm, RangeOf(log, Applied(sm), upTo)) == Fold(c.g, upTo)
  {
    hide Ok, Crash, Meaningful;
    var s := states[k + 1];
    CommittedAlways(c, states, events, marks, k + 1);
    CoveredAlways(c, states, events, k + 1);
    StateIsFold(c, states, events, k + 1);
    assert Step(c, states[k], events[k], s);
    CrashStepInv(c, states[k], s) by { InvAlways(c, states, events, k); }
    assert s.log.Mem() in s.log.hist && s.sm.LastAcked() == s.sm.Mem();
    var n := Applied(s.sm.Mem());
    RangeIsCommitted(c.g, s.log.Mem().log, n, upTo);
    FoldExtends(c.g, n, upTo);
  }

  /** Purges stay within the committed log, so an empty one leaves nothing to purge. */
  ghost predicate PurgesWithin(c: StoreConfig, s: Sys) {
    s.covered <= |c.g| && forall l :: l in s.log.hist ==> Purged(l) <= |c.g|
  }

  lemma PurgesWithinStep(c: StoreConfig, s: Sys, e: Event, s': Sys)
    requires Indexed(c.g) && Inv(c, s) && Step(c, s, e, s') && PurgesWithin(c, s)
    ensures PurgesWithin(c, s')
  {
    hide Ok, Crash, View, Load, Fold, ApplyAll;
    assert s.log.Mem() in s.log.hist;
    match e
    case LogCall(_) => LogStepInv(c, s, e, s');
    case LogIo => LogStepInv(c, s, e, s');
    case CrashReopen => CrashStepInv(c, s, s');
    case _ => assert Applied(s.sm.Mem()) <= |c.g|;
  }

  lemma {:induction false} PurgesWithinAlways(c: StoreConfig, states: seq<Sys>, events: seq<Event>, k: nat)
    requires Run(c, states, events) && k <= |events|
    ensures PurgesWithin(c, states[k])
  {
    hide Inv, Step;
    if k > 0 {
      PurgesWithinAlways(c, states, events, k - 1);
      InvAlways(c, states, events, k - 1);
      assert events[k - 1] in events;
      PurgesWithinStep(c, states[k - 1], events[k - 1], states[k]);
    }
  }

  lemma EmptyLogHasNoHole(c: StoreConfig, s: Sys, s': Sys)
    requires Indexed(c.g) && c.g == [] && Reachable(c, s) && Step(c, s, CrashReopen, s')
    ensures !Hole(s')
  {
    hide Step;
    var states, events :| Run(c, states, events) && states[|events|] == s;
    assert Run(c, states + [s'], events + [CrashReopen]);
    PurgesWithinAlways(c, states + [s'], events + [CrashReopen], |events| + 1);
    assert s'.log.hist != [] ==> s'.log.Mem() in s'.log.hist;
  }

  /**
   For every committed log: the durable purge point never passes the durable applied point, so the
   retained log can always finish the replay, exactly when snapshots are not built while an apply is still
   being written, or there is nothing to apply.
   */
  lemma HoleExactly(c: StoreConfig)
    requires Indexed(c.g)
    ensures HoleAfterCrash(c) <==> c.overlap && c.g != []
  {
    if c.overlap && c.g != [] {
      OverlapOpensHole(c);
    } else {
      forall s, s' | HoleOpens(c, s, s')
        ensures false
      {
        if c.g == [] {
          EmptyLogHasNoHole(c, s, s');
        } else {
          NoHole(c, s, s');
        }
      }
    }
  }
}
