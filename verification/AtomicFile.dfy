/**
 Crash-atomic replacement of a file (deploy/bin/ops_helper.py, `atomic_replace`).  The disk keeps, besides
 what the system shows, which file contents are durable and which bindings of a name a crash may leave:
 writes become durable by `fsync` of the file, bindings by `fsync` of the directory, and until then a
 crash may keep or lose each of them.
 */
module AtomicFile {
  import opened Results

  type Inode = nat
  datatype Meta = Meta(mode: nat, uid: int, gid: int)
  datatype FileData = FileData(bytes: seq<Byte>, meta: Meta)

  datatype Disk = Disk(
    files: map<Inode, FileData>, stable: set<Inode>,
    names: map<string, Inode>, possible: map<string, set<Option<Inode>>>)

  function Binding(d: Disk, name: string): Option<Inode> {
    if name in d.names then Some(d.names[name]) else None
  }

  /** The bindings a name may have after a crash. */
  function Bindings(d: Disk, name: string): set<Option<Inode>> {
    if name in d.possible then d.possible[name] else {Binding(d, name)}
  }

  /** What reading a name may give after a crash; a file that is not durable may hold anything. */
  ghost predicate MayRead(d: Disk, name: string, o: Option<FileData>) {
    exists b :: b in Bindings(d, name) &&
      match b
      case None => o == None
      case Some(i) => if i in d.stable && i in d.files then o == Some(d.files[i]) else true
  }

  /** What the system shows under a name. */
  function Reads(d: Disk, name: string): Option<FileData> {
    if name in d.names && d.names[name] in d.files then Some(d.files[d.names[name]]) else None
  }

  // ---------------------------------------------------------------- system calls

  datatype Call =
    | Create(name: string, inode: Inode)
    | Write(inode: Inode, bytes: seq<Byte>)
    | Chmod(inode: Inode, mode: nat)
    | Chown(inode: Inode, uid: int, gid: int)
    | Fsync(inode: Inode)
    | Rename(source: string, target: string)
    | FsyncDirectory
    | Unlink(name: string)

  const PRIVATE: Meta := Meta(0x180, 0, 0)

  function Bind(d: Disk, name: string, b: Option<Inode>): Disk {
    d.(names := (match b case Some(i) => d.names[name := i] case None => d.names - {name}),
       possible := d.possible[name := Bindings(d, name) + {b}])
  }

  function Change(d: Disk, i: Inode, f: FileData): Disk {
    d.(files := d.files[i := f], stable := d.stable - {i})
  }

  function Do(d: Disk, c: Call): Disk {
    match c
    case Create(name, i) => Bind(Change(d, i, FileData([], PRIVATE)), name, Some(i))
    case Write(i, bytes) => if i in d.files then Change(d, i, FileData(d.files[i].bytes + bytes, d.files[i].meta)) else d
    case Chmod(i, mode) => if i in d.files then Change(d, i, FileData(d.files[i].bytes, d.files[i].meta.(mode := mode))) else d
    case Chown(i, uid, gid) =>
      if i in d.files then Change(d, i, FileData(d.files[i].bytes, d.files[i].meta.(uid := uid, gid := gid))) else d
    case Fsync(i) => d.(stable := d.stable + {i})
    case Rename(source, target) =>
      if source in d.names then Bind(Bind(d, target, Some(d.names[source])), source, None) else d
    case FsyncDirectory => d.(possible := map[])
    case Unlink(name) => if name in d.names then Bind(d, name, None) else d
  }

  /** The disk after at most `budget` of the calls. */
  function Run(d: Disk, calls: seq<Call>, budget: nat): Disk
    decreases budget
  {
    if calls == [] || budget == 0 then d else Run(Do(d, calls[0]), calls[1..], budget - 1)
  }

  /** The calls of `atomic_replace` before its final unlink, for a fresh temporary name and inode. */
  function ReplaceCalls(target: string, temp: string, i: Inode, f: FileData): (calls: seq<Call>)
    ensures |calls| == 8
  {
    [Create(temp, i), Write(i, f.bytes), Fsync(i), Chmod(i, f.meta.mode), Chown(i, f.meta.uid, f.meta.gid), Fsync(i),
     Rename(temp, target), FsyncDirectory]
  }

  type CallIndex = k: nat | k < 8

  /** Whether a call fails, and which; a failing write may have written something. */
  datatype Trouble = NoTrouble | FailsAt(k: CallIndex, written: seq<Byte>)

  /** How many of the calls take effect. */
  function Effective(t: Trouble): (m: nat)
    ensures m <= 8
  {
    if t.NoTrouble? then 8 else if t.k == 1 then 2 else t.k
  }

  function Attempted(f: FileData, t: Trouble): FileData {
    if t.FailsAt? && t.k == 1 then f.(bytes := t.written) else f
  }

  /** The calls that take effect; at the end the temporary file is removed, if it was created. */
  function AttemptCalls(target: string, temp: string, i: Inode, f: FileData, t: Trouble): seq<Call> {
    if Effective(t) == 0 then []
    else ReplaceCalls(target, temp, i, Attempted(f, t))[..Effective(t)] + [Unlink(temp)]
  }

  // ---------------------------------------------------------------- the disk as an object

  class FileSystem {
    var disk: Disk

    constructor (d: Disk)
      ensures disk == d
    {
      disk := d;
    }

    method Perform(c: Call, ghost rest: seq<Call>, left: nat) returns (alive: bool, remaining: nat)
      modifies this
      ensures alive <==> left > 0
      ensures alive ==> disk == Do(old(disk), c) && remaining == left - 1
      ensures !alive ==> disk == old(disk)
      ensures Run(old(disk), [c] + rest, left) == if alive then Run(disk, rest, remaining) else disk
    {
      assert ([c] + rest)[1..] == rest;
      alive, remaining := left > 0, if left > 0 then left - 1 else 0;
      if alive { disk := Do(disk, c); }
    }

    method PerformAll(calls: seq<Call>, ghost rest: seq<Call>, budget: nat) returns (alive: bool, left: nat)
      modifies this
      ensures alive <==> budget >= |calls|
      ensures alive ==> left == budget - |calls|
      ensures Run(old(disk), calls + rest, budget) == if alive then Run(disk, rest, left) else disk
    {
      left := budget;
      var k := 0;
      assert calls[0..] == calls;
      while k < |calls|
        invariant 0 <= k <= |calls| && left + k == budget
        invariant Run(disk, calls[k..] + rest, left) == Run(old(disk), calls + rest, budget)
      {
        assert calls[k..] + rest == [calls[k]] + (calls[k + 1..] + rest);
        alive, left := Perform(calls[k], calls[k + 1..] + rest, left);
        if !alive { return; }
        k := k + 1;
      }
      assert calls[|calls|..] + rest == rest;
      alive := true;
    }

    /** `atomic_replace`: a call may fail, and the process dies when the budget of system calls is spent. */
    method AtomicReplace(target: string, temp: string, i: Inode, f: FileData, t: Trouble, budget: nat) returns (finished: bool, left: nat)
      modifies this
      ensures disk == Run(old(disk), AttemptCalls(target, temp, i, f, t), budget)
      ensures finished <==> t.NoTrouble? && budget >= 9
      ensures finished ==> left == budget - 9
    {
      left := budget;
      finished := false;
      if Effective(t) == 0 { return; }
      var alive;
      alive, left := PerformAll(ReplaceCalls(target, temp, i, Attempted(f, t))[..Effective(t)], [Unlink(temp)], left);
      if !alive { return; }
      alive, left := PerformAll([Unlink(temp)], [], left);
      assert [Unlink(temp)] + [] == [Unlink(temp)];
      finished := alive && t.NoTrouble?;
    }
  }

  // ---------------------------------------------------------------- crash safety

  /** Nothing about a name is pending: its binding and its content survive any crash. */
  ghost predicate Settled(d: Disk, name: string) {
    Bindings(d, name) == {Binding(d, name)} && (name in d.names ==> d.names[name] in d.stable && d.names[name] in d.files)
  }

  ghost predicate Fresh(d: Disk, i: Inode) {
    i !in d.files && forall n :: Some(i) !in Bindings(d, n)
  }

  /** The disk before the rename: only the new file and the temporary name have been touched. */
  ghost predicate Preparing(d0: Disk, d: Disk, temp: string, i: Inode) {
    && Binding(d, temp) == Some(i) && i in d.files
    && (forall n :: n != temp ==> Binding(d, n) == Binding(d0, n) && Bindings(d, n) == Bindings(d0, n))
    && (forall j :: j != i && j in d0.files ==> j in d.files && d.files[j] == d0.files[j])
    && (forall j :: j != i ==> (j in d.stable <==> j in d0.stable))
  }

  lemma CreatePrepares(d0: Disk, temp: string, i: Inode)
    ensures Preparing(d0, Do(d0, Create(temp, i)), temp, i)
  {
  }

  lemma FileCallPrepares(d0: Disk, d: Disk, temp: string, i: Inode, c: Call)
    requires Preparing(d0, d, temp, i)
    requires match c
             case Write(j, _) => j == i case Chmod(j, _) => j == i case Chown(j, _, _) => j == i case Fsync(j) => j == i
             case _ => false
    ensures Preparing(d0, Do(d, c), temp, i)
  {
    var after := Do(d, c);
    assert after.names == d.names && after.possible == d.possible;
    forall n | n != temp ensures Binding(after, n) == Binding(d0, n) && Bindings(after, n) == Bindings(d0, n) {
      assert Binding(d, n) == Binding(d0, n) && Bindings(d, n) == Bindings(d0, n);
    }
  }

  lemma {:induction false} RunUnfold(d0: Disk, calls: seq<Call>, n: nat)
    requires 0 < n <= |calls|
    ensures Run(d0, calls, n) == Do(Run(d0, calls, n - 1), calls[n - 1])
    decreases n
  {
    if n > 1 {
      RunUnfold(Do(d0, calls[0]), calls[1..], n - 1);
    } else {
      assert Run(Do(d0, calls[0]), calls[1..], 0) == Do(d0, calls[0]);
    }
  }

  /** The first six calls prepare the new file, which is complete and durable after them. */
  lemma {:induction false} PreparedFile(d0: Disk, target: string, temp: string, i: Inode, f: FileData, n: nat)
    requires 1 <= n <= 6
    ensures var d := Run(d0, ReplaceCalls(target, temp, i, f), n);
            && Preparing(d0, d, temp, i)
            && d.files[i] == FileData(if n >= 2 then f.bytes else [],
                 if n >= 5 then f.meta else if n >= 4 then PRIVATE.(mode := f.meta.mode) else PRIVATE)
            && (n == 6 ==> i in d.stable)
    decreases n
  {
    var calls := ReplaceCalls(target, temp, i, f);
    RunUnfold(d0, calls, n);
    if n == 1 {
      CreatePrepares(d0, temp, i);
    } else {
      PreparedFile(d0, target, temp, i, f, n - 1);
      FileCallPrepares(d0, Run(d0, calls, n - 1), temp, i, calls[n - 1]);
      assert [] + f.bytes == f.bytes;
    }
  }

  lemma {:induction false} RunPrefix(d: Disk, calls: seq<Call>, m: nat, last: Call, n: nat)
    requires m <= |calls|
    ensures Run(d, calls[..m] + [last], n) == if n <= m then Run(d, calls, n) else Do(Run(d, calls, m), last)
    decreases m
  {
    var some := calls[..m] + [last];
    if m == 0 {
      assert some == [last];
      if n > 0 { assert Run(Do(d, last), some[1..], n - 1) == Do(d, last); }
    } else if n > 0 {
      assert some[1..] == calls[1..][..m - 1] + [last];
      RunPrefix(Do(d, calls[0]), calls[1..], m - 1, last, n - 1);
    }
  }

  // ---------------------------------------------------------------- the stages of an attempt

  ghost predicate WellFormedDisk(d: Disk) {
    && (forall n :: Binding(d, n) in Bindings(d, n))
    && (forall n, j :: Some(j) in Bindings(d, n) ==> j in d.files)
  }

  /** The new file is complete and durable under the temporary name. */
  ghost predicate Ready(d0: Disk, d: Disk, temp: string, i: Inode, f: FileData) {
    Preparing(d0, d, temp, i) && d.files[i] == f && i in d.stable
  }

  function Renamed(d: Disk, target: string, temp: string): Disk { Do(d, Rename(temp, target)) }

  function Synced(d: Disk, target: string, temp: string): Disk { Do(Renamed(d, target, temp), FsyncDirectory) }

  /** Where an attempt may have been cut off. */
  ghost predicate Stage(d0: Disk, d: Disk, target: string, temp: string, i: Inode, f: FileData, durable: bool) {
    if durable then exists p :: Ready(d0, p, temp, i, f) && d == Synced(p, target, temp)
    else
      || d == d0
      || Preparing(d0, d, temp, i)
      || (exists p :: Preparing(d0, p, temp, i) && d == Do(p, Unlink(temp)))
      || (exists p :: Ready(d0, p, temp, i, f) && d == Renamed(p, target, temp))
  }

  lemma SeventhAndEighth(d0: Disk, target: string, temp: string, i: Inode, f: FileData)
    ensures var calls := ReplaceCalls(target, temp, i, f);
            && Run(d0, calls, 7) == Renamed(Run(d0, calls, 6), target, temp)
            && Run(d0, calls, 8) == Synced(Run(d0, calls, 6), target, temp)
  {
    RunUnfold(d0, ReplaceCalls(target, temp, i, f), 7);
    RunUnfold(d0, ReplaceCalls(target, temp, i, f), 8);
  }

  lemma LateStage(d0: Disk, target: string, temp: string, i: Inode, f: FileData, n: nat)
    requires 7 <= n <= 8
    ensures var p := Run(d0, ReplaceCalls(target, temp, i, f), 6);
            Ready(d0, p, temp, i, f) && Run(d0, ReplaceCalls(target, temp, i, f), n) == if n == 7 then Renamed(p, target, temp) else Synced(p, target, temp)
  {
    PreparedFile(d0, target, temp, i, f, 6);
    SeventhAndEighth(d0, target, temp, i, f);
  }

  /** After n of the calls. */
  lemma ReplaceStage(d0: Disk, target: string, temp: string, i: Inode, f: FileData, n: nat)
    requires n <= 8
    ensures var calls := ReplaceCalls(target, temp, i, f);
            var d, p := Run(d0, calls, n), Run(d0, calls, 6);
            && (n == 0 ==> d == d0) && (1 <= n <= 6 ==> Preparing(d0, d, temp, i))
            && (n >= 7 ==> Ready(d0, p, temp, i, f) && d == if n == 7 then Renamed(p, target, temp) else Synced(p, target, temp))
  {
    if 1 <= n <= 6 {
      PreparedFile(d0, target, temp, i, f, n);
    } else if n >= 7 {
      LateStage(d0, target, temp, i, f, n);
    }
  }

  /** The temporary name is gone after the rename. */
  lemma NothingToUnlink(d0: Disk, p: Disk, target: string, temp: string, i: Inode, f: FileData)
    requires temp != target && Ready(d0, p, temp, i, f)
    ensures Do(Renamed(p, target, temp), Unlink(temp)) == Renamed(p, target, temp)
    ensures Do(Synced(p, target, temp), Unlink(temp)) == Synced(p, target, temp)
  {
    assert temp !in Renamed(p, target, temp).names;
  }

  lemma AttemptPrefix(d0: Disk, target: string, temp: string, i: Inode, f: FileData, t: Trouble, n: nat)
    requires Effective(t) > 0
    ensures var calls, m := ReplaceCalls(target, temp, i, Attempted(f, t)), Effective(t);
            Run(d0, AttemptCalls(target, temp, i, f, t), n) == if n <= m then Run(d0, calls, n) else Do(Run(d0, calls, m), Unlink(temp))
  {
    RunPrefix(d0, ReplaceCalls(target, temp, i, Attempted(f, t)), Effective(t), Unlink(temp), n);
  }

  lemma AttemptStage(d0: Disk, target: string, temp: string, i: Inode, f: FileData, t: Trouble, n: nat)
    requires temp != target
    ensures Stage(d0, Run(d0, AttemptCalls(target, temp, i, f, t), n), target, temp, i, f, t.NoTrouble? && n >= 8)
  {
    var m := Effective(t);
    if m > 0 {
      AttemptPrefix(d0, target, temp, i, f, t, n);
      ReplaceStage(d0, target, temp, i, Attempted(f, t), if n <= m then n else m);
      if n > m >= 7 { NothingToUnlink(d0, Run(d0, ReplaceCalls(target, temp, i, f), 6), target, temp, i, f); }
    }
  }

  // ---------------------------------------------------------------- what stays certain

  /** Whatever a crash keeps, the name has durable content that is allowed, or is absent where that is allowed. */
  ghost predicate Certain(d: Disk, name: string, allowed: Option<FileData> -> bool) {
    forall b :: b in Bindings(d, name) ==>
      match b
      case None => allowed(None)
      case Some(i) => i in d.stable && i in d.files && allowed(Some(d.files[i]))
  }

  lemma CertainReads(d: Disk, name: string, allowed: Option<FileData> -> bool)
    requires WellFormedDisk(d) && Certain(d, name, allowed)
    ensures allowed(Reads(d, name)) && forall o :: MayRead(d, name, o) ==> allowed(o)
  {
    assert Binding(d, name) in Bindings(d, name);
  }

  lemma PreparingCertain(d0: Disk, d: Disk, target: string, temp: string, i: Inode, allowed: Option<FileData> -> bool)
    requires WellFormedDisk(d0) && Fresh(d0, i) && temp != target && Preparing(d0, d, temp, i) && Certain(d0, target, allowed)
    ensures Certain(d, target, allowed) && Certain(Do(d, Unlink(temp)), target, allowed)
  {
    assert Bindings(d, target) == Bindings(d0, target) && Binding(d, target) == Binding(d0, target);
    assert Bindings(Do(d, Unlink(temp)), target) == Bindings(d, target);
  }

  lemma ReadyCertain(d0: Disk, p: Disk, target: string, temp: string, i: Inode, f: FileData, allowed: Option<FileData> -> bool)
    requires WellFormedDisk(d0) && Fresh(d0, i) && temp != target && Ready(d0, p, temp, i, f) && Certain(d0, target, allowed) && allowed(Some(f))
    ensures Certain(Renamed(p, target, temp), target, allowed)
    ensures Certain(Synced(p, target, temp), target, o => o == Some(f))
  {
    PreparingCertain(d0, p, target, temp, i, allowed);
    assert Bindings(Renamed(p, target, temp), target) == Bindings(p, target) + {Some(i)};
    assert Bindings(Synced(p, target, temp), target) == {Some(i)};
  }

  lemma StageCertain(d0: Disk, d: Disk, target: string, temp: string, i: Inode, f: FileData, durable: bool, allowed: Option<FileData> -> bool)
    requires WellFormedDisk(d0) && Fresh(d0, i) && temp != target && Stage(d0, d, target, temp, i, f, durable)
    requires Certain(d0, target, allowed) && allowed(Some(f))
    ensures Certain(d, target, if durable then o => o == Some(f) else allowed)
  {
    if durable {
      var p :| Ready(d0, p, temp, i, f) && d == Synced(p, target, temp);
      ReadyCertain(d0, p, target, temp, i, f, allowed);
    } else if d == d0 {
    } else if Preparing(d0, d, temp, i) {
      PreparingCertain(d0, d, target, temp, i, allowed);
    } else if exists p :: Preparing(d0, p, temp, i) && d == Do(p, Unlink(temp)) {
      var p :| Preparing(d0, p, temp, i) && d == Do(p, Unlink(temp));
      PreparingCertain(d0, p, target, temp, i, allowed);
    } else {
      var p :| Ready(d0, p, temp, i, f) && d == Renamed(p, target, temp);
      ReadyCertain(d0, p, target, temp, i, f, allowed);
    }
  }

  /**
   Whatever fails and wherever the process dies, a target of which every possible content is allowed keeps to
   the allowed contents and the new one; after the directory sync it has the new one for certain.
   */
  lemma AttemptCertain(d0: Disk, target: string, temp: string, i: Inode, f: FileData, t: Trouble, n: nat, allowed: Option<FileData> -> bool)
    requires WellFormedDisk(d0) && Fresh(d0, i) && temp != target && Certain(d0, target, allowed) && allowed(Some(f))
    ensures var d := Run(d0, AttemptCalls(target, temp, i, f, t), n);
      WellFormedDisk(d) && Certain(d, target, if t.NoTrouble? && n >= 8 then o => o == Some(f) else allowed)
  {
    AttemptStage(d0, target, temp, i, f, t, n);
    StageCertain(d0, Run(d0, AttemptCalls(target, temp, i, f, t), n), target, temp, i, f, t.NoTrouble? && n >= 8, allowed);
    RunWellFormed(d0, AttemptCalls(target, temp, i, f, t), n);
  }

  lemma BindWellFormed(d: Disk, name: string, b: Option<Inode>)
    requires WellFormedDisk(d) && (b.Some? ==> b.value in d.files)
    ensures WellFormedDisk(Bind(d, name, b))
  {
    var e := Bind(d, name, b);
    forall n ensures Binding(e, n) in Bindings(e, n) && forall j :: Some(j) in Bindings(e, n) ==> j in e.files {
      assert Binding(d, n) in Bindings(d, n);
      if n != name { assert Binding(e, n) == Binding(d, n) && Bindings(e, n) == Bindings(d, n); }
    }
  }

  lemma SameNamesWellFormed(d: Disk, e: Disk)
    requires WellFormedDisk(d) && e.names == d.names && e.possible == d.possible && d.files.Keys <= e.files.Keys
    ensures WellFormedDisk(e)
  {
    forall n ensures Binding(e, n) in Bindings(e, n) && forall j :: Some(j) in Bindings(e, n) ==> j in e.files {
      assert Binding(d, n) in Bindings(d, n) && Binding(e, n) == Binding(d, n) && Bindings(e, n) == Bindings(d, n);
    }
  }

  lemma DoWellFormed(d: Disk, c: Call)
    requires WellFormedDisk(d)
    ensures WellFormedDisk(Do(d, c))
  {
    match c
    case Create(name, i) =>
      var e := Change(d, i, FileData([], PRIVATE));
      SameNamesWellFormed(d, e);
      BindWellFormed(e, name, Some(i));
    case Rename(source, target) =>
      if source in d.names {
        assert Binding(d, source) in Bindings(d, source);
        BindWellFormed(d, target, Some(d.names[source]));
        BindWellFormed(Bind(d, target, Some(d.names[source])), source, None);
      }
    case FsyncDirectory =>
      var e := Do(d, c);
      forall n ensures Binding(e, n) in Bindings(e, n) && forall j :: Some(j) in Bindings(e, n) ==> j in e.files {
        assert Binding(d, n) in Bindings(d, n) && Binding(e, n) == Binding(d, n) && Bindings(e, n) == {Binding(e, n)};
      }
    case Unlink(name) => BindWellFormed(d, name, None);
    case _ => SameNamesWellFormed(d, Do(d, c));
  }

  lemma {:induction false} RunWellFormed(d: Disk, calls: seq<Call>, n: nat)
    requires WellFormedDisk(d)
    ensures WellFormedDisk(Run(d, calls, n))
    decreases n
  {
    if calls != [] && n > 0 {
      DoWellFormed(d, calls[0]);
      RunWellFormed(Do(d, calls[0]), calls[1..], n - 1);
    }
  }

  /** Killed between the rename and the directory sync: the new file is shown, and a crash may undo that. */
  lemma KilledUnsynced(d0: Disk, target: string, temp: string, i: Inode, f: FileData)
    requires temp != target
    ensures var d := Run(d0, AttemptCalls(target, temp, i, f, NoTrouble), 7);
            Reads(d, target) == Some(f) && Bindings(d, target) == Bindings(d0, target) + {Some(i)}
  {
    AttemptPrefix(d0, target, temp, i, f, NoTrouble, 7);
    LateStage(d0, target, temp, i, f, 7);
    RenamedShows(d0, Run(d0, ReplaceCalls(target, temp, i, f), 6), target, temp, i, f);
  }

  lemma RenamedShows(d0: Disk, p: Disk, target: string, temp: string, i: Inode, f: FileData)
    requires temp != target && Ready(d0, p, temp, i, f)
    ensures Reads(Renamed(p, target, temp), target) == Some(f) && Bindings(Renamed(p, target, temp), target) == Bindings(d0, target) + {Some(i)}
  {
    assert Bindings(p, target) == Bindings(d0, target);
  }

  /** After the directory sync nothing is pending about any name. */
  lemma AttemptSyncs(d0: Disk, target: string, temp: string, i: Inode, f: FileData, n: nat)
    requires temp != target && n >= 8
    ensures Run(d0, AttemptCalls(target, temp, i, f, NoTrouble), n).possible == map[]
  {
    AttemptStage(d0, target, temp, i, f, NoTrouble, n);
  }

  // ---------------------------------------------------------------- crashes

  /** The disk after a crash: each name has one of its possible bindings, durable files have their content. */
  ghost predicate Rebooted(d: Disk, e: Disk) {
    && WellFormedDisk(e) && e.possible == map[] && e.stable == e.files.Keys
    && (forall n :: Binding(e, n) in Bindings(d, n))
    && (forall i :: i in e.files && i in d.stable && i in d.files ==> e.files[i] == d.files[i])
  }

  lemma RebootedCertain(d: Disk, e: Disk, name: string, allowed: Option<FileData> -> bool)
    requires Rebooted(d, e) && Certain(d, name, allowed)
    ensures Certain(e, name, allowed) && Bindings(e, name) == {Binding(e, name)}
  {
    assert Binding(e, name) in Bindings(d, name) && Bindings(e, name) == {Binding(e, name)};
  }

  // ---------------------------------------------------------------- other names

  ghost predicate OthersKept(d0: Disk, d: Disk, target: string, temp: string) {
    forall n :: n != target && n != temp ==>
      Reads(d, n) == Reads(d0, n) && forall o :: MayRead(d, n, o) ==> MayRead(d0, n, o)
  }

  /** Files other than the new one are untouched, and names other than two keep their bindings. */
  ghost predicate Contained(d0: Disk, d: Disk, target: string, temp: string, i: Inode) {
    && (forall n :: n != target && n != temp ==> Binding(d, n) == Binding(d0, n) && Bindings(d, n) <= Bindings(d0, n))
    && (forall j :: j != i && j in d0.files ==> j in d.files && d.files[j] == d0.files[j])
    && (forall j :: j != i ==> (j in d.stable <==> j in d0.stable))
  }

  lemma RenamedContained(d0: Disk, p: Disk, target: string, temp: string, i: Inode)
    requires WellFormedDisk(d0) && temp != target && Preparing(d0, p, temp, i)
    ensures Contained(d0, Renamed(p, target, temp), target, temp, i) && Contained(d0, Synced(p, target, temp), target, temp, i)
  {
    forall n | n != target && n != temp
      ensures Binding(Renamed(p, target, temp), n) == Binding(d0, n) == Binding(Synced(p, target, temp), n)
      ensures Bindings(Renamed(p, target, temp), n) == Bindings(d0, n) && Bindings(Synced(p, target, temp), n) <= Bindings(d0, n)
    {
      assert Binding(d0, n) in Bindings(d0, n) && Binding(p, n) == Binding(d0, n) && Bindings(p, n) == Bindings(d0, n);
    }
  }

  lemma UnlinkedContained(d0: Disk, p: Disk, target: string, temp: string, i: Inode)
    requires temp != target && Preparing(d0, p, temp, i)
    ensures Contained(d0, p, target, temp, i) && Contained(d0, Do(p, Unlink(temp)), target, temp, i)
  {
    forall n | n != target && n != temp
      ensures Binding(Do(p, Unlink(temp)), n) == Binding(d0, n) && Bindings(Do(p, Unlink(temp)), n) <= Bindings(d0, n)
    {
      assert Binding(p, n) == Binding(d0, n) && Bindings(p, n) == Bindings(d0, n);
    }
  }

  lemma StageContained(d0: Disk, d: Disk, target: string, temp: string, i: Inode, f: FileData, durable: bool)
    requires WellFormedDisk(d0) && Fresh(d0, i) && temp != target && Stage(d0, d, target, temp, i, f, durable)
    ensures Contained(d0, d, target, temp, i)
  {
    if durable {
      var p :| Ready(d0, p, temp, i, f) && d == Synced(p, target, temp);
      RenamedContained(d0, p, target, temp, i);
    } else if d == d0 {
    } else if Preparing(d0, d, temp, i) {
      UnlinkedContained(d0, d, target, temp, i);
    } else if exists p :: Preparing(d0, p, temp, i) && d == Do(p, Unlink(temp)) {
      var p :| Preparing(d0, p, temp, i) && d == Do(p, Unlink(temp));
      UnlinkedContained(d0, p, target, temp, i);
    } else {
      var p :| Ready(d0, p, temp, i, f) && d == Renamed(p, target, temp);
      RenamedContained(d0, p, target, temp, i);
    }
  }

  lemma NameKept(d0: Disk, d: Disk, target: string, temp: string, i: Inode, n: string)
    requires WellFormedDisk(d0) && Fresh(d0, i) && Contained(d0, d, target, temp, i) && n != target && n != temp
    ensures Reads(d, n) == Reads(d0, n) && forall o :: MayRead(d, n, o) ==> MayRead(d0, n, o)
  {
    assert Binding(d0, n) in Bindings(d0, n);
    forall o | MayRead(d, n, o) ensures MayRead(d0, n, o) {
      var b :| b in Bindings(d, n) && match b case None => o == None case Some(j) => if j in d.stable && j in d.files then o == Some(d.files[j]) else true;
      assert b in Bindings(d0, n);
      assert b.Some? ==> b.value != i && b.value in d0.files;
    }
  }

  lemma AttemptContained(d0: Disk, target: string, temp: string, i: Inode, f: FileData, t: Trouble, n: nat)
    requires WellFormedDisk(d0) && Fresh(d0, i) && temp != target
    ensures var d := Run(d0, AttemptCalls(target, temp, i, f, t), n); Contained(d0, d, target, temp, i) && OthersKept(d0, d, target, temp)
  {
    var d := Run(d0, AttemptCalls(target, temp, i, f, t), n);
    AttemptStage(d0, target, temp, i, f, t, n);
    StageContained(d0, d, target, temp, i, f, t.NoTrouble? && n >= 8);
    forall m | m != target && m != temp ensures Reads(d, m) == Reads(d0, m) && forall o :: MayRead(d, m, o) ==> MayRead(d0, m, o) {
      NameKept(d0, d, target, temp, i, m);
    }
  }

  // ---------------------------------------------------------------- crash atomicity

  /** Now and after a crash the target is the old file or the new one, and the new one once it is durable. */
  ghost predicate OldOrNew(d0: Disk, d: Disk, target: string, f: FileData, durable: bool) {
    forall o :: MayRead(d, target, o) || o == Reads(d, target) ==> o == Some(f) || (o == Reads(d0, target) && !durable)
  }

  /**
   Crash atomicity: whichever call fails and wherever the process dies, the target reads as the whole old file
   or the whole new one, with its mode and owner; once the directory is synced it reads as the new file; no
   other name changes.
   */
  lemma ReplaceIsAtomic(d0: Disk, target: string, temp: string, i: Inode, f: FileData, t: Trouble, n: nat)
    requires WellFormedDisk(d0) && Fresh(d0, i) && temp != target && Settled(d0, target)
    ensures var d := Run(d0, AttemptCalls(target, temp, i, f, t), n);
            OldOrNew(d0, d, target, f, t.NoTrouble? && n >= 8) && OthersKept(d0, d, target, temp)
  {
    var d := Run(d0, AttemptCalls(target, temp, i, f, t), n);
    var allowed := o => o == Reads(d0, target) || o == Some(f);
    AttemptCertain(d0, target, temp, i, f, t, n, allowed);
    CertainReads(d, target, if t.NoTrouble? && n >= 8 then o => o == Some(f) else allowed);
    AttemptContained(d0, target, temp, i, f, t, n);
  }

  /** A call that fails before the rename (on a full disk, say) leaves the target alone, and no temporary file. */
  lemma FailureLeavesTarget(d0: Disk, target: string, temp: string, i: Inode, f: FileData, t: Trouble)
    requires WellFormedDisk(d0) && Fresh(d0, i) && temp != target && Settled(d0, target) && Binding(d0, temp) == None
    requires t.FailsAt? && t.k <= 6
    ensures var d := Run(d0, AttemptCalls(target, temp, i, f, t), |AttemptCalls(target, temp, i, f, t)|);
            && (forall o :: MayRead(d, target, o) || o == Reads(d, target) ==> o == Reads(d0, target))
            && Binding(d, temp) == None && OthersKept(d0, d, target, temp)
  {
    var calls := AttemptCalls(target, temp, i, f, t);
    var d := Run(d0, calls, |calls|);
    AttemptContained(d0, target, temp, i, f, t, |calls|);
    if t.k == 0 {
      CertainReads(d, target, o => o == Reads(d0, target));
    } else {
      FailedEarly(d0, target, temp, i, f, t);
      var p :| Preparing(d0, p, temp, i) && d == Do(p, Unlink(temp));
      PreparingCertain(d0, p, target, temp, i, o => o == Reads(d0, target));
      RunWellFormed(d0, calls, |calls|);
      CertainReads(d, target, o => o == Reads(d0, target));
    }
  }

  lemma FailedEarly(d0: Disk, target: string, temp: string, i: Inode, f: FileData, t: Trouble)
    requires t.FailsAt? && 1 <= t.k <= 6
    ensures var calls := AttemptCalls(target, temp, i, f, t);
            exists p :: Preparing(d0, p, temp, i) && Run(d0, calls, |calls|) == Do(p, Unlink(temp))
  {
    AttemptPrefix(d0, target, temp, i, f, t, Effective(t) + 1);
    ReplaceStage(d0, target, temp, i, Attempted(f, t), Effective(t));
  }
}
