/** The replicated state machine: the last applied entry, the membership and the current decision. */
module RaftStateMachine {
  import opened Quorum
  import opened Supervisor
  import opened DurableFile
  import opened RaftLog

  datatype SmState = SmState(
    lastApplied: Option<LogId>,
    members: set<NodeId>,
    membersAt: Option<LogId>,
    decision: Option<Decision>
  )

  const EMPTY_SM: SmState := SmState(None, {}, None, None)

  function ApplyOne(sm: SmState, e: Entry): SmState {
    var sm := sm.(lastApplied := Some(e.id));
    match e.payload
    case Blank => sm
    case Normal(d) => sm.(decision := Some(d))
    case Membership(ms) => sm.(members := ms, membersAt := Some(e.id))
  }

  function ApplyAll(sm: SmState, entries: seq<Entry>): SmState
    decreases |entries|
  {
    if entries == [] then sm
    else ApplyOne(ApplyAll(sm, entries[..|entries| - 1]), entries[|entries| - 1])
  }

  /** How many entries of the committed log a state has applied. */
  function Applied(sm: SmState): nat {
    if sm.lastApplied.None? then 0 else sm.lastApplied.value.index + 1
  }

  /** A committed log: entry i has index i. */
  ghost predicate Indexed(g: seq<Entry>) {
    forall i :: 0 <= i < |g| ==> g[i].id.index == i
  }

  /** The meaning of "the first n committed entries". */
  function Fold(g: seq<Entry>, n: nat): SmState
    requires n <= |g|
  {
    ApplyAll(EMPTY_SM, g[..n])
  }

  lemma AppliedFold(g: seq<Entry>, n: nat)
    requires Indexed(g) && n <= |g|
    ensures Applied(Fold(g, n)) == n
  {
  }

  lemma {:induction false} ApplyConcat(sm: SmState, a: seq<Entry>, b: seq<Entry>)
    ensures ApplyAll(sm, a + b) == ApplyAll(ApplyAll(sm, a), b)
    decreases |b|
  {
    if b == [] {
      assert a + b == a;
    } else {
      var n := |b| - 1;
      ApplyConcat(sm, a, b[..n]);
      assert (a + b)[..|a + b| - 1] == a + b[..n];
    }
  }

  /** Applying the next entries, in any batching, moves from one prefix to the longer one. */
  lemma FoldExtends(g: seq<Entry>, n: nat, m: nat)
    requires n <= m <= |g|
    ensures ApplyAll(Fold(g, n), g[n..m]) == Fold(g, m)
  {
    ApplyConcat(EMPTY_SM, g[..n], g[n..m]);
    assert g[..n] + g[n..m] == g[..m];
  }

  predicate Decides(e: Entry) { e.payload.Normal? }

  predicate HasDecision(entries: seq<Entry>) {
    exists e :: e in entries && Decides(e)
  }

  lemma DecisionInLast(entries: seq<Entry>, e: Entry)
    ensures HasDecision(entries + [e]) <==> HasDecision(entries) || Decides(e)
  {
    assert e in entries + [e] && forall x :: x in entries ==> x in entries + [e];
  }

  /** A batch without a decision entry leaves the decision alone. */
  lemma {:induction false} UndecidedBatch(sm: SmState, entries: seq<Entry>)
    requires forall e :: e in entries ==> !Decides(e)
    ensures ApplyAll(sm, entries).decision == sm.decision
    decreases |entries|
  {
    if entries != [] {
      assert entries[|entries| - 1] in entries;
      UndecidedBatch(sm, entries[..|entries| - 1]);
    }
  }

  /** Entry k is the last below n to carry a decision, respectively a membership. */
  ghost predicate LastDecisionAt(g: seq<Entry>, n: nat, k: nat)
    requires n <= |g|
  {
    k < n && g[k].payload.Normal? && forall j :: k < j < n ==> !g[j].payload.Normal?
  }

  ghost predicate LastMembershipAt(g: seq<Entry>, n: nat, k: nat)
    requires n <= |g|
  {
    k < n && g[k].payload.Membership? && forall j :: k < j < n ==> !g[j].payload.Membership?
  }

  lemma FoldNext(g: seq<Entry>, n: nat)
    requires 0 < n <= |g|
    ensures Fold(g, n) == ApplyOne(Fold(g, n - 1), g[n - 1])
  {
    assert g[..n][..n - 1] == g[..n - 1];
  }

  /** The decision after n committed entries is that of the highest of them that carries one. */
  lemma {:induction false} DecisionIsLast(g: seq<Entry>, n: nat, k: nat)
    requires n <= |g| && LastDecisionAt(g, n, k)
    ensures Fold(g, n).decision == Some(g[k].payload.decision)
  {
    FoldNext(g, n);
    if k < n - 1 {
      DecisionIsLast(g, n - 1, k);
      assert !g[n - 1].payload.Normal?;
    }
  }

  /** The membership is that of the highest that carries one, dated by its id. */
  lemma {:induction false} MembershipIsLast(g: seq<Entry>, n: nat, k: nat)
    requires n <= |g| && LastMembershipAt(g, n, k)
    ensures Fold(g, n).members == g[k].payload.members && Fold(g, n).membersAt == Some(g[k].id)
  {
    FoldNext(g, n);
    if k < n - 1 {
      MembershipIsLast(g, n - 1, k);
      assert !g[n - 1].payload.Membership?;
    }
  }

  /** Where no entry carries one there is none; the last applied entry is the last of them. */
  lemma {:induction false} NothingFromNothing(g: seq<Entry>, n: nat)
    requires n <= |g|
    ensures (forall k :: 0 <= k < n ==> !g[k].payload.Normal?) ==> Fold(g, n).decision == None
    ensures (forall k :: 0 <= k < n ==> !g[k].payload.Membership?) ==>
              Fold(g, n).members == {} && Fold(g, n).membersAt == None
    ensures Fold(g, n).lastApplied == if n == 0 then None else Some(g[n - 1].id)
  {
    if n > 0 {
      NothingFromNothing(g, n - 1);
      FoldNext(g, n);
      hide Fold;
    }
  }

  /** If some entry below n carries a decision, one of them is the last. */
  lemma {:induction false} LastDecisionExists(g: seq<Entry>, n: nat) returns (k: nat)
    requires n <= |g| && exists j :: 0 <= j < n && g[j].payload.Normal?
    ensures LastDecisionAt(g, n, k)
  {
    if g[n - 1].payload.Normal? {
      k := n - 1;
    } else {
      k := LastDecisionExists(g, n - 1);
    }
  }

  /** A retained stretch that agrees with the committed log entry by entry is that stretch of it. */
  lemma RetainedMatches(g: seq<Entry>, o: OffsetLog, n: nat, upTo: nat)
    requires o.Start() <= n <= upTo <= o.End() && upTo <= |g|
    requires forall i :: o.Start() <= i < upTo ==> o.entries[i - o.Start()] == g[i]
    ensures o.Slice(n, upTo) == g[n..upTo]
  {
    var slice := o.Slice(n, upTo);
    forall j | 0 <= j < upTo - n
      ensures slice[j] == g[n + j]
    {
      assert slice[j] == o.entries[(n + j) - o.Start()];
    }
  }

  /**
   After any purge up to an applied index, the retained log finishes the replay: applying what it still
   holds from the applied point on gives the fold of the committed log.
   */
  lemma ReplayFinishes(g: seq<Entry>, l: LogState, o: OffsetLog, n: nat, upTo: nat)
    requires Represents(l, o) && o.Start() <= n <= upTo <= o.End() && upTo <= |g|
    requires forall i :: o.Start() <= i < upTo ==> o.entries[i - o.Start()] == g[i]
    ensures ApplyAll(Fold(g, n), RangeOf(l.log, n, upTo)) == Fold(g, upTo)
  {
    RangeReadsSlice(l, o, n, upTo);
    RetainedMatches(g, o, n, upTo);
    FoldExtends(g, n, upTo);
    hide Represents, RangeOf, Fold, ApplyAll;
  }

  // --------------------------------------------------------------- the imperative form

  datatype Snapshot = Snapshot(lastLogId: Option<LogId>, serial: nat, data: SmState)

  /** What a state machine does that outlives its memory, or that others can see. */
  datatype Act = Wrote(sm: SmState) | Published(decision: Option<Decision>)

  /** Applying a batch: one write of the whole state, then, if a decision was in it, its publication. */
  function ApplyActs(sm: SmState, entries: seq<Entry>): seq<Act> {
    var sm := ApplyAll(sm, entries);
    [Wrote(sm)] + if HasDecision(entries) then [Published(sm.decision)] else []
  }

  class StateMachine {
    var lastApplied: Option<LogId>
    var members: set<NodeId>
    var membersAt: Option<LogId>
    var decision: Option<Decision>
    var snapshot: Option<Snapshot>
    var snapshotIdx: nat
    var shared: Option<Decision>
    const file: Replaceable<SmState>
    ghost var journal: seq<Act>

    function View(): SmState
      reads this
    {
      SmState(lastApplied, members, membersAt, decision)
    }

    /** Between calls the file holds the state and the supervisor can read its decision. */
    ghost predicate Valid()
      reads this, file
    {
      file.Valid() && file.current == View() && shared == decision
    }

    constructor (file: Replaceable<SmState>)
      requires file.Valid()
      ensures Valid() && this.file == file && View() == old(file.current) && file.current == old(file.current)
      ensures snapshot == None
    {
      this.file := file;
      var loaded := file.Read();
      lastApplied, members, membersAt, decision :=
        loaded.lastApplied, loaded.members, loaded.membersAt, loaded.decision;
      shared := loaded.decision;
      snapshot, snapshotIdx := None, 0;
      journal := [];
    }

    method Persist()
      requires file.Valid()
      modifies this`journal, file
      ensures file.Valid() && file.current == View() && journal == old(journal) + [Wrote(View())]
    {
      file.AtomicWrite(View());
      journal := journal + [Wrote(View())];
    }

    /** Only what the file holds may be published. */
    method Publish(d: Option<Decision>)
      requires file.Valid() && file.current.decision == d
      modifies this`shared, this`journal
      ensures shared == d && journal == old(journal) + [Published(d)]
    {
      shared := d;
      journal := journal + [Published(d)];
    }

    /** Applies a batch in order, persists once, and only then publishes a changed decision. */
    method Apply(entries: seq<Entry>) returns (responses: nat)
      requires Valid()
      modifies this`lastApplied, this`members, this`membersAt, this`decision, this`shared, this`journal, file
      ensures Valid() && View() == ApplyAll(old(View()), entries) && responses == |entries|
      ensures journal == old(journal) + ApplyActs(old(View()), entries)
    {
      var changed := false;
      responses := 0;
      for k := 0 to |entries|
        invariant View() == ApplyAll(old(View()), entries[..k]) && responses == k
        invariant !changed ==> decision == old(decision)
        invariant changed <==> HasDecision(entries[..k])
        invariant file.Valid() && shared == old(decision) && journal == old(journal)
      {
        var e := entries[k];
        DecisionInLast(entries[..k], e);
        assert entries[..k + 1] == entries[..k] + [e];
        assert entries[..k + 1][..k] == entries[..k];
        lastApplied := Some(e.id);
        match e.payload {
          case Blank =>
          case Normal(d) =>
            decision := Some(d);
            changed := true;
          case Membership(ms) =>
            members, membersAt := ms, Some(e.id);
        }
        responses := responses + 1;
      }
      assert entries[..|entries|] == entries;
      Persist();
      if changed {
        Publish(decision);
      }
    }

    /** A snapshot is the current state, kept in memory only; serial numbers tell snapshots apart. */
    method BuildSnapshot() returns (r: Snapshot)
      modifies this`snapshot, this`snapshotIdx
      ensures r.data == View() && r.lastLogId == lastApplied && r.serial == old(snapshotIdx) + 1
      ensures snapshot == Some(r) && snapshotIdx == r.serial
    {
      snapshotIdx := snapshotIdx + 1;
      r := Snapshot(lastApplied, snapshotIdx, View());
      snapshot := Some(r);
    }

    method InstallSnapshot(r: Snapshot)
      requires Valid()
      modifies this`lastApplied, this`members, this`membersAt, this`decision, this`snapshot, this`shared,
               this`journal, file
      ensures Valid() && View() == r.data && snapshot == Some(r)
      ensures journal == old(journal) + [Wrote(r.data), Published(r.data.decision)]
    {
      lastApplied, members, membersAt, decision :=
        r.data.lastApplied, r.data.members, r.data.membersAt, r.data.decision;
      snapshot := Some(r);
      Persist();
      Publish(r.data.decision);
    }
  }
}
