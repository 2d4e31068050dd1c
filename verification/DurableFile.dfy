/**
 One durable file and the write-sync-rename-sync protocol that replaces it, on a disk that may lose
 whatever was not synced. Each file is modelled apart from the others: the only step that touches more
 than one is the directory sync, and dropping its effect on other files only allows more crashes.
 */
module DurableFile {
  import opened Quorum

  /** An inode's content; None is empty or torn. Unsynced content is arbitrary after a crash. */
  datatype File<T> = File(data: Option<T>, synced: bool)

  /** The two directory entries of a file: its own name and its temporary one. */
  datatype Dir = Dir(path: Option<nat>, tmp: Option<nat>)

  /** Directory changes reach the disk in order, but not before the directory is synced. */
  datatype DirOp = LinkTmp(inode: nat) | RenameTmp

  datatype Disk<T> = Disk(files: seq<File<T>>, dir: Dir, pending: seq<DirOp>)

  function Do(d: Dir, op: DirOp): Dir {
    match op
    case LinkTmp(i) => d.(tmp := Some(i))
    case RenameTmp => Dir(d.tmp, None)
  }

  function Replay(d: Dir, ops: seq<DirOp>): Dir
    decreases |ops|
  {
    if ops == [] then d else Do(Replay(d, ops[..|ops| - 1]), ops[|ops| - 1])
  }

  /** The directory as running programs see it. */
  function View<T>(d: Disk<T>): Dir {
    Replay(d.dir, d.pending)
  }

  /** Where a write stands. Persisted is after the last disk step, before the caller is told. */
  datatype Phase = Idle | Started | Created | Written | Synced | Renamed | Persisted

  predicate CanStep<T>(d: Disk<T>, p: Phase) {
    match p
    case Idle => false
    case Started => View(d).tmp.Some? ==> View(d).tmp.value < |d.files|
    case Created => View(d).tmp.Some? && View(d).tmp.value < |d.files|
    case Written => View(d).tmp.Some? && View(d).tmp.value < |d.files|
    case Synced => View(d).tmp.Some?
    case Renamed => true
    case Persisted => true
  }

  function NextPhase(p: Phase): Phase {
    match p
    case Idle => Idle
    case Started => Created
    case Created => Written
    case Written => Synced
    case Synced => Renamed
    case Renamed => Persisted
    case Persisted => Idle
  }

  /** The next disk operation of a write of v: create, write all, sync, rename, sync the directory. */
  function IoStep<T>(d: Disk<T>, p: Phase, v: T): Disk<T>
    requires CanStep(d, p)
  {
    match p
    case Started =>
      if View(d).tmp.Some? then d.(files := d.files[View(d).tmp.value := File(None, false)])
      else d.(files := d.files + [File(None, false)], pending := d.pending + [LinkTmp(|d.files|)])
    case Created => d.(files := d.files[View(d).tmp.value := File(Some(v), false)])
    case Written => d.(files := d.files[View(d).tmp.value := d.files[View(d).tmp.value].(synced := true)])
    case Synced => d.(pending := d.pending + [RenameTmp])
    case Renamed => d.(dir := View(d), pending := [])
    case _ => d
  }

  /** A crash keeps some prefix of the directory changes, all synced data and anything of the rest. */
  ghost predicate Crash<T>(d: Disk<T>, d': Disk<T>) {
    && d'.pending == [] && |d'.files| == |d.files|
    && (exists k :: 0 <= k <= |d.pending| && d'.dir == Replay(d.dir, d.pending[..k]))
    && forall i :: 0 <= i < |d.files| ==> d'.files[i].synced && (d.files[i].synced ==> d'.files[i] == d.files[i])
  }

  /** What opening the file finds: nothing, its content, or (Some(None)) unreadable bytes. */
  function Load<T>(d: Disk<T>): Option<Option<T>>
    requires View(d).path.Some? ==> View(d).path.value < |d.files|
  {
    if View(d).path.None? then None else Some(d.files[View(d).path.value].data)
  }

  /** A missing file stands for the initial value. */
  function Holds<T>(d: Disk<T>, entry: Option<nat>, initial: T): Option<T>
  {
    if entry.None? then Some(initial)
    else if entry.value < |d.files| && d.files[entry.value].synced then d.files[entry.value].data
    else None
  }

  // -------------------------------------------------------------------- the invariant

  /** The temporary entry, if any, is an inode of its own. */
  ghost predicate TmpApart<T>(d: Disk<T>, e: Dir) {
    e.tmp.Some? ==> e.tmp.value < |d.files| && e.tmp != e.path
  }

  /** The temporary file exists; its entry may still be on its way to the disk. */
  ghost predicate TmpLinked<T>(d: Disk<T>) {
    || (d.pending == [] && d.dir.tmp.Some?)
    || (d.dir.tmp.None? && exists i :: d.pending == [LinkTmp(i)])
  }

  ghost predicate RenamePending<T>(d: Disk<T>, tmp: nat) {
    || (d.pending == [RenameTmp] && d.dir.tmp == Some(tmp))
    || (d.dir.tmp.None? && d.pending == [LinkTmp(tmp), RenameTmp])
  }

  /**
   Whatever a crash can leave, the path holds a complete synced value: the old one until the rename,
   one of the two until the directory is synced, the new one after.
   */
  ghost predicate Ok<T(!new)>(d: Disk<T>, p: Phase, initial: T, before: T, after: T) {
    match p
    case Idle => d.pending == [] && TmpApart(d, d.dir) && Holds(d, d.dir.path, initial) == Some(after)
    case Persisted => d.pending == [] && TmpApart(d, d.dir) && Holds(d, d.dir.path, initial) == Some(after)
    case Started => d.pending == [] && TmpApart(d, d.dir) && Holds(d, d.dir.path, initial) == Some(before)
    case Renamed =>
      && Holds(d, d.dir.path, initial) == Some(before)
      && exists tmp: nat :: RenamePending(d, tmp) && tmp < |d.files| && Some(tmp) != d.dir.path
                            && d.files[tmp] == File(Some(after), true)
    case _ =>
      && TmpLinked(d) && TmpApart(d, View(d)) && Holds(d, d.dir.path, initial) == Some(before)
      && (p == Written ==> d.files[View(d).tmp.value].data == Some(after))
      && (p == Synced ==> d.files[View(d).tmp.value] == File(Some(after), true))
  }

  /** A fresh directory, before the first write. */
  function Fresh<T>(): Disk<T> {
    Disk([], Dir(None, None), [])
  }

  lemma FreshOk<T(!new)>(initial: T, before: T)
    ensures Ok(Fresh<T>(), Idle, initial, before, initial)
  {
  }

  /** A new write starts from what the last one left. */
  lemma BeginOk<T(!new)>(d: Disk<T>, initial: T, before: T, after: T, next: T)
    requires Ok(d, Idle, initial, before, after)
    ensures Ok(d, Started, initial, after, next)
  {
  }

  /** Every disk step keeps the invariant. */
  lemma IoStepOk<T(!new)>(d: Disk<T>, p: Phase, initial: T, before: T, after: T)
    requires Ok(d, p, initial, before, after) && p != Idle
    ensures CanStep(d, p)
    ensures Ok(IoStep(d, p, after), NextPhase(p), initial, before, after)
  {
    ReplayShort(d);
    ReplayShort(IoStep(d, p, after));
    if p == Renamed {
      var tmp: nat :| RenamePending(d, tmp) && tmp < |d.files| && Some(tmp) != d.dir.path
                      && d.files[tmp] == File(Some(after), true);
      assert View(d) == Dir(Some(tmp), None);
    } else if p == Synced {
      assert RenamePending(IoStep(d, p, after), View(d).tmp.value);
    }
  }

  /** The protocol never has more than two directory changes outstanding. */
  lemma ReplayShort<T>(d: Disk<T>)
    ensures d.pending == [] ==> View(d) == d.dir
    ensures |d.pending| == 1 ==> View(d) == Do(d.dir, d.pending[0])
    ensures |d.pending| == 2 ==> View(d) == Do(Do(d.dir, d.pending[0]), d.pending[1])
  {
    if |d.pending| == 1 {
      assert d.pending[..|d.pending| - 1] == [];
      assert Replay(d.dir, []) == d.dir;
    } else if |d.pending| == 2 {
      assert d.pending[..1][..0] == [];
      assert Replay(d.dir, d.pending[..1]) == Do(Replay(d.dir, d.pending[..1][..0]), d.pending[0]);
    }
  }

  /** A crash at any step leaves the complete old value, or the complete new one from the rename on. */
  lemma CrashLeavesOldOrNew<T(!new)>(d: Disk<T>, p: Phase, initial: T, before: T, after: T, d': Disk<T>) returns (v: T)
    requires Ok(d, p, initial, before, after) && Crash(d, d')
    ensures v == before || v == after
    ensures p in {Idle, Persisted} ==> v == after
    ensures p in {Started, Created, Written, Synced} ==> v == before
    ensures Ok(d', Idle, initial, v, v)
    ensures View(d').path.Some? ==> View(d').path.value < |d'.files|
    ensures (Load(d') == None && v == initial) || Load(d') == Some(Some(v))
  {
    var k :| 0 <= k <= |d.pending| && d'.dir == Replay(d.dir, d.pending[..k]);
    ReplayShort(d.(pending := d.pending[..k]));
    ReplayShort(d);
    ReplayShort(d');
    v := if d'.dir.path == d.dir.path && p !in {Idle, Persisted} then before else after;
    if p == Renamed {
      var tmp: nat :| RenamePending(d, tmp) && tmp < |d.files| && Some(tmp) != d.dir.path
                      && d.files[tmp] == File(Some(after), true);
    }
  }

  // ------------------------------------------------------------------ the imperative form

  /** The file as a program uses it: replaced as a whole, step by step. */
  class Replaceable<T(!new)> {
    var disk: Disk<T>
    ghost var current: T
    const initial: T

    ghost predicate Valid()
      reads this
    {
      Ok(disk, Idle, initial, current, current)
    }

    constructor (initial: T)
      ensures Valid() && this.initial == initial && current == initial
    {
      this.initial := initial;
      disk, current := Fresh<T>(), initial;
    }

    /** Opening: a missing file is the initial value, unreadable content does not occur. */
    method Read() returns (v: T)
      requires Valid()
      ensures v == current
    {
      ReplayShort(disk);
      var content := Load(disk);
      v := if content.None? then initial else content.value.value;
    }

    /** Replaces the content. Every crash on the way leaves the old or the new content whole. */
    method AtomicWrite(v: T)
      requires Valid()
      modifies this
      ensures Valid() && current == v
      ensures forall d' :: Crash(disk, d') ==> View(d').path.Some? && View(d').path.value < |d'.files|
                                               && Load(d') == Some(Some(v))
    {
      ghost var old_ := current;
      BeginOk(disk, initial, old_, old_, v);
      IoStepOk(disk, Started, initial, old_, v);
      disk := IoStep(disk, Started, v);
      IoStepOk(disk, Created, initial, old_, v);
      disk := IoStep(disk, Created, v);
      IoStepOk(disk, Written, initial, old_, v);
      disk := IoStep(disk, Written, v);
      IoStepOk(disk, Synced, initial, old_, v);
      disk := IoStep(disk, Synced, v);
      IoStepOk(disk, Renamed, initial, old_, v);
      disk := IoStep(disk, Renamed, v);
      current := v;
    }
  }
}
