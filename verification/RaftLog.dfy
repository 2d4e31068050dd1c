/**
 The Raft log store: a map from index to entry plus a purge point, rewritten to its file after every
 change. Under the storage contract (contiguous appends, purges that move forward) it represents one
 sequence of entries starting right after the purge point.
 */
module RaftLog {
  import opened Quorum
  import opened Supervisor
  import opened DurableFile

  datatype LogId = LogId(leader: nat, index: nat)
  datatype Payload = Blank | Normal(decision: Decision) | Membership(members: set<NodeId>)
  datatype Entry = Entry(id: LogId, payload: Payload)
  datatype Vote = Vote(term: nat, node: NodeId, granted: bool)

  datatype LogState = LogState(
    vote: Option<Vote>,
    lastPurged: Option<LogId>,
    committed: Option<LogId>,
    log: map<nat, Entry>
  )

  const EMPTY_LOG: LogState := LogState(None, None, None, map[])

  // ------------------------------------------------------------------ operations

  /** Inserting entries one after the other; a later one replaces an earlier one at its index. */
  function Inserted(log: map<nat, Entry>, entries: seq<Entry>): map<nat, Entry>
    decreases |entries|
  {
    if entries == [] then log
    else
      var last := entries[|entries| - 1];
      Inserted(log, entries[..|entries| - 1])[last.id.index := last]
  }

  function KeysBelow(log: map<nat, Entry>, index: nat): map<nat, Entry> {
    map k | k in log && k < index :: log[k]
  }

  function KeysAbove(log: map<nat, Entry>, index: nat): map<nat, Entry> {
    map k | k in log && k > index :: log[k]
  }

  datatype Op =
    | Append(entries: seq<Entry>)
    | Truncate(index: nat)
    | Purge(id: LogId)
    | SaveVote(vote: Vote)
    | SaveCommitted(committed: Option<LogId>)

  function Perform(l: LogState, op: Op): LogState {
    match op
    case Append(entries) => l.(log := Inserted(l.log, entries))
    case Truncate(index) => l.(log := KeysBelow(l.log, index))
    case Purge(id) => l.(lastPurged := Some(id), log := KeysAbove(l.log, id.index))
    case SaveVote(vote) => l.(vote := Some(vote))
    case SaveCommitted(committed) => l.(committed := committed)
  }

  /** Entries with indices lo..hi-1, in order, skipping the ones the map does not hold. */
  function RangeOf(log: map<nat, Entry>, lo: nat, hi: nat): seq<Entry>
    decreases hi
  {
    if lo >= hi then []
    else RangeOf(log, lo, hi - 1) + if hi - 1 in log then [log[hi - 1]] else []
  }

  // ------------------------------------------------------------ the offset sequence

  /** What the store stands for: everything up to the purge point is gone, `entries` follow it. */
  datatype OffsetLog = OffsetLog(purged: Option<LogId>, entries: seq<Entry>) {
    function Start(): nat { if purged.None? then 0 else purged.value.index + 1 }
    function End(): nat { Start() + |entries| }
    function LastId(): Option<LogId> { if entries == [] then purged else Some(entries[|entries| - 1].id) }
    function Slice(lo: nat, hi: nat): seq<Entry>
      requires lo <= hi
    {
      entries[Clip(lo) - Start()..Clip(hi) - Start()]
    }
    function Clip(i: nat): (r: nat)
      ensures Start() <= r <= End()
    {
      if i < Start() then Start() else if i > End() then End() else i
    }
  }

  ghost predicate Represents(l: LogState, o: OffsetLog) {
    && l.lastPurged == o.purged
    && (forall i: nat :: i in l.log <==> o.Start() <= i < o.End())
    && (forall i: nat :: i in l.log ==> l.log[i] == o.entries[i - o.Start()] && l.log[i].id.index == i)
  }

  /** What the Raft core guarantees about its calls. */
  ghost predicate Contract(o: OffsetLog, op: Op) {
    match op
    case Append(entries) => forall k :: 0 <= k < |entries| ==> entries[k].id.index == o.End() + k
    case Truncate(index) => true
    case Purge(id) => id.index + 1 >= o.Start()
    case _ => true
  }

  function Abstract(o: OffsetLog, op: Op): OffsetLog {
    match op
    case Append(entries) => o.(entries := o.entries + entries)
    case Truncate(index) => o.(entries := o.entries[..o.Clip(index) - o.Start()])
    case Purge(id) => OffsetLog(Some(id), o.entries[o.Clip(id.index + 1) - o.Start()..])
    case _ => o
  }

  lemma InsertRepresents(l: LogState, o: OffsetLog, e: Entry)
    requires Represents(l, o) && e.id.index == o.End()
    ensures Represents(l.(log := l.log[e.id.index := e]), o.(entries := o.entries + [e]))
  {
  }

  lemma {:induction false} AppendRepresents(l: LogState, o: OffsetLog, entries: seq<Entry>)
    requires Represents(l, o) && Contract(o, Append(entries))
    ensures Represents(Perform(l, Append(entries)), Abstract(o, Append(entries)))
    decreases |entries|
  {
    if entries == [] {
      assert o.entries + entries == o.entries;
    } else {
      var n := |entries| - 1;
      AppendRepresents(l, o, entries[..n]);
      InsertRepresents(Perform(l, Append(entries[..n])), Abstract(o, Append(entries[..n])), entries[n]);
      assert o.entries + entries == (o.entries + entries[..n]) + [entries[n]];
      hide Represents;
    }
  }

  lemma TruncateRepresents(l: LogState, o: OffsetLog, index: nat)
    requires Represents(l, o)
    ensures Represents(Perform(l, Truncate(index)), Abstract(o, Truncate(index)))
  {
    hide Inserted, KeysAbove;
    assert Abstract(o, Truncate(index)).End() == o.Clip(index);
  }

  lemma PurgeRepresents(l: LogState, o: OffsetLog, id: LogId)
    requires Represents(l, o) && Contract(o, Purge(id))
    ensures Represents(Perform(l, Purge(id)), Abstract(o, Purge(id)))
  {
    hide Inserted, KeysBelow;
    var end := Abstract(o, Purge(id)).End();
    assert end == if id.index + 1 > o.End() then id.index + 1 else o.End();
  }

  lemma SaveRepresents(l: LogState, o: OffsetLog, op: Op)
    requires Represents(l, o) && (op.SaveVote? || op.SaveCommitted?)
    ensures Represents(Perform(l, op), Abstract(o, op))
  {
  }

  /** Every contract-abiding operation acts on the store as the matching one acts on the sequence. */
  lemma OperationRefines(l: LogState, o: OffsetLog, op: Op)
    requires Represents(l, o) && Contract(o, op)
    ensures Represents(Perform(l, op), Abstract(o, op))
  {
    hide Represents, Perform, Abstract, Contract;
    match op
    case Append(entries) => AppendRepresents(l, o, entries);
    case Truncate(index) => TruncateRepresents(l, o, index);
    case Purge(id) => PurgeRepresents(l, o, id);
    case _ => SaveRepresents(l, o, op);
  }

  /** The forward-purge clause is needed: a purge that moves back is harmless only on an empty log. */
  lemma PurgeContractExactly(l: LogState, o: OffsetLog, id: LogId)
    requires Represents(l, o)
    ensures (exists o' :: Represents(Perform(l, Purge(id)), o')) <==> Contract(o, Purge(id)) || o.entries == []
  {
    var l' := Perform(l, Purge(id));
    if Contract(o, Purge(id)) {
      OperationRefines(l, o, Purge(id));
    } else if o.entries == [] {
      assert Represents(l', OffsetLog(Some(id), []));
    } else {
      forall o': OffsetLog | l'.lastPurged == o'.purged
        ensures !Represents(l', o')
      {
        assert o.Start() in l'.log && id.index + 1 !in l'.log;
      }
    }
  }

  function PerformAll(l: LogState, ops: seq<Op>): LogState
    decreases |ops|
  {
    if ops == [] then l else Perform(PerformAll(l, ops[..|ops| - 1]), ops[|ops| - 1])
  }

  function AbstractAll(o: OffsetLog, ops: seq<Op>): OffsetLog
    decreases |ops|
  {
    if ops == [] then o else Abstract(AbstractAll(o, ops[..|ops| - 1]), ops[|ops| - 1])
  }

  ghost predicate Contracts(o: OffsetLog, ops: seq<Op>) {
    forall k {:trigger ops[k]} :: 0 <= k < |ops| ==> Contract(AbstractAll(o, ops[..k]), ops[k])
  }

  /** Any history of operations, from the empty store, leaves the sequence the operations describe. */
  lemma {:induction false} HistoryRefines(ops: seq<Op>)
    requires Contracts(OffsetLog(None, []), ops)
    ensures Represents(PerformAll(EMPTY_LOG, ops), AbstractAll(OffsetLog(None, []), ops))
    decreases |ops|
  {
    if ops != [] {
      var n := |ops| - 1;
      var front := ops[..n];
      assert forall k :: 0 <= k < n ==> front[..k] == ops[..k] && front[k] == ops[k];
      HistoryRefines(front);
      assert ops[n] in ops;
      OperationRefines(PerformAll(EMPTY_LOG, front), AbstractAll(OffsetLog(None, []), front), ops[n]);
    }
  }

  /** Call k is the last in the list to save a vote, respectively a committed index. */
  ghost predicate LastVoteAt(ops: seq<Op>, k: nat) {
    k < |ops| && ops[k].SaveVote? && forall j :: k < j < |ops| ==> !ops[j].SaveVote?
  }

  ghost predicate LastCommittedAt(ops: seq<Op>, k: nat) {
    k < |ops| && ops[k].SaveCommitted? && forall j :: k < j < |ops| ==> !ops[j].SaveCommitted?
  }

  /** Over any history the store's vote is the argument of the last call that saved one. */
  lemma {:induction false} VoteIsLastSaved(l: LogState, ops: seq<Op>, k: nat)
    requires LastVoteAt(ops, k)
    ensures PerformAll(l, ops).vote == Some(ops[k].vote)
    decreases |ops|
  {
    var n := |ops| - 1;
    PerformLast(l, ops);
    if k < n {
      VoteIsLastSaved(l, ops[..n], k);
      assert !ops[n].SaveVote?;
    }
  }

  /** Likewise its committed index. */
  lemma {:induction false} CommittedIsLastSaved(l: LogState, ops: seq<Op>, k: nat)
    requires LastCommittedAt(ops, k)
    ensures PerformAll(l, ops).committed == ops[k].committed
    decreases |ops|
  {
    var n := |ops| - 1;
    PerformLast(l, ops);
    if k < n {
      CommittedIsLastSaved(l, ops[..n], k);
      assert !ops[n].SaveCommitted?;
    }
  }

  /** Without such a call they are what the store started with. */
  lemma {:induction false} UnsavedStays(l: LogState, ops: seq<Op>)
    ensures (forall op :: op in ops ==> !op.SaveVote?) ==> PerformAll(l, ops).vote == l.vote
    ensures (forall op :: op in ops ==> !op.SaveCommitted?) ==> PerformAll(l, ops).committed == l.committed
    decreases |ops|
  {
    if ops != [] {
      UnsavedStays(l, ops[..|ops| - 1]);
      assert ops[|ops| - 1] in ops;
      PerformLast(l, ops);
    }
  }

  lemma PerformLast(l: LogState, ops: seq<Op>)
    requires ops != []
    ensures PerformAll(l, ops) == Perform(PerformAll(l, ops[..|ops| - 1]), ops[|ops| - 1])
  {
  }

  /** Range reads are slices of the sequence, clipped to what is retained. */
  lemma {:induction false} RangeReadsSlice(l: LogState, o: OffsetLog, lo: nat, hi: nat)
    requires Represents(l, o) && lo <= hi
    ensures RangeOf(l.log, lo, hi) == o.Slice(lo, hi)
    decreases hi
  {
    if lo < hi {
      RangeReadsSlice(l, o, lo, hi - 1);
    }
  }

  predicate IsLastKey(keys: set<nat>, k: nat) {
    k in keys && forall j :: j in keys ==> j <= k
  }

  lemma {:induction false} LastKeyExists(keys: set<nat>) returns (k: nat)
    requires keys != {}
    ensures IsLastKey(keys, k)
  {
    k :| k in keys;
    var rest := keys - {k};
    if rest != {} {
      var m := LastKeyExists(rest);
      if m > k {
        k := m;
      }
    }
    forall j | j in keys
      ensures j <= k
    {
      assert j in rest || keys - rest == {j};
    }
  }

  /** The key an ordered map's iterator yields last. */
  function LastKey(log: map<nat, Entry>): (k: nat)
    requires log.Keys != {}
    ensures IsLastKey(log.Keys, k)
  {
    assert exists k :: IsLastKey(log.Keys, k) by { var _ := LastKeyExists(log.Keys); }
    var k :| IsLastKey(log.Keys, k);
    k
  }

  // --------------------------------------------------------------- the imperative store

  class LogStore {
    var vote: Option<Vote>
    var lastPurged: Option<LogId>
    var committed: Option<LogId>
    var log: map<nat, Entry>
    const file: Replaceable<LogState>

    function View(): LogState
      reads this
    {
      LogState(vote, lastPurged, committed, log)
    }

    /** Between operations the file holds exactly what the program works on. */
    ghost predicate Valid()
      reads this, file
    {
      file.Valid() && file.current == View()
    }

    constructor (file: Replaceable<LogState>)
      requires file.Valid()
      ensures Valid() && this.file == file && View() == old(file.current)
      ensures file.current == old(file.current)
    {
      this.file := file;
      var loaded := file.Read();
      vote, lastPurged, committed, log := loaded.vote, loaded.lastPurged, loaded.committed, loaded.log;
    }

    method Persist()
      requires file.Valid()
      modifies file
      ensures Valid()
    {
      file.AtomicWrite(View());
    }

    method AppendEntries(entries: seq<Entry>)
      requires Valid()
      modifies this`log, file
      ensures Valid() && View() == Perform(old(View()), Append(entries))
    {
      for k := 0 to |entries|
        invariant log == Inserted(old(log), entries[..k])
        invariant file.Valid()
      {
        log := log[entries[k].id.index := entries[k]];
        assert entries[..k + 1][..k] == entries[..k];
      }
      assert entries[..|entries|] == entries;
      Persist();
    }

    /** Removes the collected keys one by one. */
    method RemoveAll(keys: set<nat>)
      requires file.Valid() && keys <= log.Keys
      modifies this`log
      ensures log == map k | k in old(log) && k !in keys :: old(log)[k]
    {
      var rest := keys;
      while rest != {}
        invariant rest <= keys
        invariant log == map k | k in old(log) && k !in keys - rest :: old(log)[k]
        decreases rest
      {
        var key :| key in rest;
        log := log - {key};
        rest := rest - {key};
      }
    }

    method TruncateFrom(index: nat)
      requires Valid()
      modifies this`log, file
      ensures Valid() && View() == Perform(old(View()), Truncate(index))
    {
      var keys := set k | k in log && k >= index;
      RemoveAll(keys);
      assert log == KeysBelow(old(log), index);
      Persist();
    }

    method PurgeUpTo(id: LogId)
      requires Valid()
      modifies this`log, this`lastPurged, file
      ensures Valid() && View() == Perform(old(View()), Purge(id))
    {
      lastPurged := Some(id);
      var keys := set k | k in log && k <= id.index;
      RemoveAll(keys);
      assert log == KeysAbove(old(log), id.index);
      Persist();
    }

    method RecordVote(v: Vote)
      requires Valid()
      modifies this`vote, file
      ensures Valid() && View() == Perform(old(View()), SaveVote(v))
    {
      vote := Some(v);
      Persist();
    }

    method RecordCommitted(id: Option<LogId>)
      requires Valid()
      modifies this`committed, file
      ensures Valid() && View() == Perform(old(View()), SaveCommitted(id))
    {
      committed := id;
      Persist();
    }

    /** The last entry's id, or the purge point when nothing is retained. */
    method GetLogState(ghost o: OffsetLog) returns (purged: Option<LogId>, last: Option<LogId>)
      requires Represents(View(), o)
      ensures purged == o.purged && last == o.LastId()
    {
      purged := lastPurged;
      if log.Keys == {} {
        last := lastPurged;
        assert o.entries != [] ==> o.Start() in log;
      } else {
        last := Some(log[LastKey(log)].id);
        assert o.End() - 1 in log;
      }
    }

    method TryGetEntries(lo: nat, hi: nat, ghost o: OffsetLog) returns (entries: seq<Entry>)
      requires Represents(View(), o) && lo <= hi
      ensures entries == o.Slice(lo, hi)
    {
      entries := [];
      for k := lo to hi
        invariant entries == RangeOf(log, lo, k)
      {
        if k in log {
          entries := entries + [log[k]];
        }
      }
      RangeReadsSlice(View(), o, lo, hi);
    }
  }
}
