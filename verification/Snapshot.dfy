/** Immutable snapshots (deploy/bin/ops_helper.py, `ensure_snapshot_file` and `snapshot`) over interrupted tries. */
module Snapshot {
  import opened Results
  import opened AtomicFile

  datatype Verdict = Refused | Kept | Written

  /** Who runs the helper. */
  datatype User = User(euid: int, egid: int)

  /** `snapshot_file_exists` refuses a file of another owner or mode. */
  predicate Unsafe(found: Option<FileData>, u: User) {
    found.Some? && ((found.value.meta.uid != 0 && found.value.meta.uid != u.euid) || found.value.meta.mode != 0x180)
  }

  /** What `ensure_snapshot_file` decides about the file it finds. */
  function Decide(found: Option<FileData>, payload: seq<Byte>, u: User): Verdict {
    if found.None? then Written
    else if Unsafe(found, u) || found.value.bytes != payload then Refused
    else Kept
  }

  /** The file it writes when there is none. */
  function SnapshotFile(payload: seq<Byte>, u: User): FileData { FileData(payload, Meta(0x180, u.euid, u.egid)) }

  /** A file that is wanted, and what `atomic_replace` meets when it is written. */
  datatype Want = Want(path: string, payload: seq<Byte>)
  datatype Try = Try(temp: string, inode: Inode, trouble: Trouble)

  datatype Ended = Refusal | Cut | Finished(left: nat)

  function EnsureFile(d: Disk, w: Want, a: Try, u: User, n: nat): (Disk, Ended) {
    match Decide(Reads(d, w.path), w.payload, u)
    case Refused => (d, Refusal)
    case Kept => (d, Finished(n))
    case Written =>
      (AtomicFile.Run(d, AttemptCalls(w.path, a.temp, a.inode, SnapshotFile(w.payload, u), a.trouble), n),
       if a.trouble.NoTrouble? && n >= 9 then Finished(n - 9) else Cut)
  }

  /** `ensure_snapshot_file`, with n system calls left to the process. */
  method EnsureSnapshotFile(fs: FileSystem, w: Want, a: Try, u: User, n: nat) returns (r: Ended)
    modifies fs
    ensures (fs.disk, r) == EnsureFile(old(fs.disk), w, a, u, n)
  {
    var found := if w.path in fs.disk.names && fs.disk.names[w.path] in fs.disk.files then Some(fs.disk.files[fs.disk.names[w.path]]) else None;
    match Decide(found, w.payload, u)
    case Refused => r := Refusal;
    case Kept => r := Finished(n);
    case Written =>
      var finished, left := fs.AtomicReplace(w.path, a.temp, a.inode, SnapshotFile(w.payload, u), a.trouble, n);
      r := if finished then Finished(left) else Cut;
  }

  /** The part of `snapshot` that concerns the two files. */
  function TakenSnapshot(d: Disk, x: Want, y: Want, a: Try, b: Try, u: User, n: nat): (Disk, Ended) {
    if Unsafe(Reads(d, x.path), u) || Unsafe(Reads(d, y.path), u) then (d, Refusal)
    else
      var (e, r) := EnsureFile(d, x, a, u, n);
      if r.Finished? then EnsureFile(e, y, b, u, r.left) else (e, r)
  }

  method TakeSnapshot(fs: FileSystem, x: Want, y: Want, a: Try, b: Try, u: User, n: nat) returns (r: Ended)
    modifies fs
    ensures (fs.disk, r) == TakenSnapshot(old(fs.disk), x, y, a, b, u, n)
  {
    var d := fs.disk;
    if Unsafe(Reads(d, x.path), u) || Unsafe(Reads(d, y.path), u) { return Refusal; }
    r := EnsureSnapshotFile(fs, x, a, u, n);
    if r.Finished? { r := EnsureSnapshotFile(fs, y, b, u, r.left); }
  }

  // ---------------------------------------------------------------- one file

  /** Absent, or whole with the content that is wanted. */
  predicate AbsentOrWhole(o: Option<FileData>, w: Want, u: User) { o.None? || o == Some(SnapshotFile(w.payload, u)) }

  ghost predicate MaybeThere(d: Disk, w: Want, u: User) { Certain(d, w.path, o => AbsentOrWhole(o, w, u)) }

  ghost predicate CertainlyThere(d: Disk, w: Want, u: User) { Certain(d, w.path, o => o == Some(SnapshotFile(w.payload, u))) }

  lemma MaybeThereReads(d: Disk, w: Want, u: User)
    requires WellFormedDisk(d) && MaybeThere(d, w, u)
    ensures AbsentOrWhole(Reads(d, w.path), w, u)
  {
    CertainReads(d, w.path, o => AbsentOrWhole(o, w, u));
  }

  /** Both names are usable for a temporary file and its inode. */
  ghost predicate Usable(d: Disk, a: Try, x: Want, y: Want) { Fresh(d, a.inode) && a.temp != x.path && a.temp != y.path }

  lemma OtherCertain(d: Disk, e: Disk, target: string, temp: string, i: Inode, name: string, allowed: Option<FileData> -> bool)
    requires WellFormedDisk(d) && Fresh(d, i) && Contained(d, e, target, temp, i) && name != target && name != temp
    requires Certain(d, name, allowed)
    ensures Certain(e, name, allowed)
  {
  }

  /** Trying to have one of two files: the other keeps to what it may be. */
  lemma EnsureKeeps(d: Disk, w: Want, other: Want, a: Try, u: User, n: nat)
    requires WellFormedDisk(d) && MaybeThere(d, w, u) && Usable(d, a, w, other) && w.path != other.path
    ensures var (e, r) := EnsureFile(d, w, a, u, n);
      && !r.Refusal? && WellFormedDisk(e) && MaybeThere(e, w, u)
      && (r.Finished? ==> Reads(e, w.path) == Some(SnapshotFile(w.payload, u)))
      && (r.Finished? && Reads(d, w.path).None? ==> CertainlyThere(e, w, u))
      && (MaybeThere(d, other, u) ==> MaybeThere(e, other, u)) && (CertainlyThere(d, other, u) ==> CertainlyThere(e, other, u))
      && Reads(e, other.path) == Reads(d, other.path)
  {
    MaybeThereReads(d, w, u);
    if Reads(d, w.path).None? {
      var f := SnapshotFile(w.payload, u);
      var e := EnsureFile(d, w, a, u, n).0;
      AttemptCertain(d, w.path, a.temp, a.inode, f, a.trouble, n, o => AbsentOrWhole(o, w, u));
      AttemptContained(d, w.path, a.temp, a.inode, f, a.trouble, n);
      if a.trouble.NoTrouble? && n >= 8 { CertainReads(e, w.path, o => o == Some(f)); }
      if MaybeThere(d, other, u) { OtherCertain(d, e, w.path, a.temp, a.inode, other.path, o => AbsentOrWhole(o, other, u)); }
      if CertainlyThere(d, other, u) { OtherCertain(d, e, w.path, a.temp, a.inode, other.path, o => o == Some(SnapshotFile(other.payload, u))); }
    }
  }

  // ---------------------------------------------------------------- both files

  /** A finished replacement has synced the directory, and with it every name in it. */
  lemma SyncSettles(d: Disk, w: Want, other: Want, a: Try, u: User, n: nat)
    requires WellFormedDisk(d) && MaybeThere(d, w, u) && MaybeThere(d, other, u) && Usable(d, a, w, other) && w.path != other.path
    requires Reads(d, w.path).None? && EnsureFile(d, w, a, u, n).1.Finished?
    ensures Reads(d, other.path).Some? ==> CertainlyThere(EnsureFile(d, w, a, u, n).0, other, u)
  {
    EnsureKeeps(d, w, other, a, u, n);
    AttemptSyncs(d, w.path, a.temp, a.inode, SnapshotFile(w.payload, u), n);
    if Reads(d, other.path).Some? { SettledIsCertain(EnsureFile(d, w, a, u, n).0, other, u); }
  }

  lemma SettledIsCertain(e: Disk, w: Want, u: User)
    requires WellFormedDisk(e) && e.possible == map[] && MaybeThere(e, w, u) && Reads(e, w.path).Some?
    ensures CertainlyThere(e, w, u)
  {
    MaybeThereReads(e, w, u);
    assert Bindings(e, w.path) == {Binding(e, w.path)};
  }

  /** What is known of the two files between the tries. */
  ghost predicate Partial(d: Disk, x: Want, y: Want, u: User) {
    WellFormedDisk(d) && MaybeThere(d, x, u) && MaybeThere(d, y, u)
  }

  ghost predicate Durable(d: Disk, x: Want, y: Want, u: User) { CertainlyThere(d, x, u) && CertainlyThere(d, y, u) }

  /** The temporary names and inodes are fresh when they are made. */
  ghost predicate Tries(d: Disk, x: Want, y: Want, a: Try, b: Try, u: User, n: nat) {
    x.path != y.path && Usable(d, a, x, y) && Usable(EnsureFile(d, x, a, u, n).0, b, y, x)
  }

  /** One try: never refused, and finished it shows both files. */
  lemma TryKeeps(d: Disk, x: Want, y: Want, a: Try, b: Try, u: User, n: nat)
    requires Partial(d, x, y, u) && Tries(d, x, y, a, b, u, n)
    ensures var (e, r) := TakenSnapshot(d, x, y, a, b, u, n);
      && !r.Refusal? && Partial(e, x, y, u) && (Durable(d, x, y, u) ==> Durable(e, x, y, u))
      && (r.Finished? ==> Reads(e, x.path) == Some(SnapshotFile(x.payload, u)) && Reads(e, y.path) == Some(SnapshotFile(y.payload, u)))
  {
    MaybeThereReads(d, x, u);
    MaybeThereReads(d, y, u);
    EnsureKeeps(d, x, y, a, u, n);
    CertainStays(d, x, a, u, n);
    var (e, r) := EnsureFile(d, x, a, u, n);
    if r.Finished? {
      EnsureKeeps(e, y, x, b, u, r.left);
      CertainStays(e, y, b, u, r.left);
    }
  }

  lemma CertainStays(d: Disk, w: Want, a: Try, u: User, n: nat)
    requires WellFormedDisk(d)
    ensures CertainlyThere(d, w, u) ==> EnsureFile(d, w, a, u, n).0 == d
  {
    if CertainlyThere(d, w, u) { CertainReads(d, w.path, o => o == Some(SnapshotFile(w.payload, u))); }
  }

  /**
   A finished try has made both files durable exactly when it wrote one of them or both were durable before:
   files that are found are kept without syncing the directory.
   */
  lemma FinishedDurableIff(d: Disk, x: Want, y: Want, a: Try, b: Try, u: User, n: nat)
    requires Partial(d, x, y, u) && Tries(d, x, y, a, b, u, n) && TakenSnapshot(d, x, y, a, b, u, n).1.Finished?
    ensures Durable(TakenSnapshot(d, x, y, a, b, u, n).0, x, y, u) <==>
              Reads(d, x.path).None? || Reads(d, y.path).None? || Durable(d, x, y, u)
  {
    MaybeThereReads(d, x, u);
    MaybeThereReads(d, y, u);
    var (e, r) := EnsureFile(d, x, a, u, n);
    EnsureKeeps(d, x, y, a, u, n);
    EnsureKeeps(e, y, x, b, u, r.left);
    if Reads(d, x.path).None? { SyncSettles(d, x, y, a, u, n); }
    if Reads(e, y.path).None? { SyncSettles(e, y, x, b, u, r.left); }
  }

  /** Before the first try: neither file is there, and nothing about them is pending. */
  ghost predicate Untouched(d: Disk, x: Want, y: Want) {
    WellFormedDisk(d) && Bindings(d, x.path) == {None} && Bindings(d, y.path) == {None}
  }

  /** Killed between the last rename and its directory sync: the next try reports success, yet a crash may lose the file. */
  lemma FinishedMayBeLost(d: Disk, x: Want, y: Want, a: Try, b: Try, c: Try, u: User, n: nat)
    requires Untouched(d, x, y) && Tries(d, x, y, a, b, u, 16) && a.trouble.NoTrouble? && b.trouble.NoTrouble?
    ensures var killed := TakenSnapshot(d, x, y, a, b, u, 16).0;
      TakenSnapshot(killed, x, y, c, c, u, n) == (killed, Finished(n)) && MayRead(killed, y.path, None)
  {
    assert Binding(d, x.path) in Bindings(d, x.path) && Binding(d, y.path) in Bindings(d, y.path);
    var e := EnsureFile(d, x, a, u, 16).0;
    EnsureKeeps(d, x, y, a, u, 16);
    FirstWritten(d, x, y, a, u);
    KilledAfterRename(e, y, x, b, u);
    BothKept(EnsureFile(e, y, b, u, 7).0, x, y, c, u, n);
  }

  lemma FirstWritten(d: Disk, x: Want, y: Want, a: Try, u: User)
    requires Untouched(d, x, y) && Usable(d, a, x, y) && x.path != y.path && a.trouble.NoTrouble?
    ensures EnsureFile(d, x, a, u, 16).1 == Finished(7) && Bindings(EnsureFile(d, x, a, u, 16).0, y.path) == {None}
  {
    var e := EnsureFile(d, x, a, u, 16).0;
    assert Binding(d, x.path) in Bindings(d, x.path) && Binding(d, y.path) in Bindings(d, y.path);
    AttemptContained(d, x.path, a.temp, a.inode, SnapshotFile(x.payload, u), a.trouble, 16);
    AttemptSyncs(d, x.path, a.temp, a.inode, SnapshotFile(x.payload, u), 16);
    assert Binding(e, y.path) == Binding(d, y.path);
  }

  lemma KilledAfterRename(d: Disk, w: Want, other: Want, a: Try, u: User)
    requires WellFormedDisk(d) && Bindings(d, w.path) == {None} && Usable(d, a, w, other) && w.path != other.path && a.trouble.NoTrouble?
    requires MaybeThere(d, other, u)
    ensures var e := EnsureFile(d, w, a, u, 7).0;
      EnsureFile(d, w, a, u, 7).1 == Cut && Reads(e, w.path) == Some(SnapshotFile(w.payload, u)) && MayRead(e, w.path, None)
      && Reads(e, other.path) == Reads(d, other.path)
  {
    assert Binding(d, w.path) in Bindings(d, w.path);
    EnsureKeeps(d, w, other, a, u, 7);
    KilledUnsynced(d, w.path, a.temp, a.inode, SnapshotFile(w.payload, u));
    assert None in Bindings(EnsureFile(d, w, a, u, 7).0, w.path);
  }

  lemma BothKept(d: Disk, x: Want, y: Want, c: Try, u: User, n: nat)
    requires Reads(d, x.path) == Some(SnapshotFile(x.payload, u)) && Reads(d, y.path) == Some(SnapshotFile(y.payload, u))
    ensures TakenSnapshot(d, x, y, c, c, u, n) == (d, Finished(n))
  {
  }

  /** A file that is found belongs to somebody else than root and the user, or others may use it. */
  predicate Foreign(o: Option<FileData>, u: User) {
    o.Some? && !(o.value.meta == Meta(0x180, 0, o.value.meta.gid) || o.value.meta == Meta(0x180, u.euid, o.value.meta.gid))
  }

  predicate Differs(o: Option<FileData>, w: Want) { o.Some? && o.value.bytes != w.payload }

  /**
   `snapshot` refuses exactly when a file it finds is foreign, the first differs from what is wanted, or the second
   does and the first is there or could be written.
   */
  lemma TakeRefusedIff(d: Disk, x: Want, y: Want, a: Try, b: Try, u: User, n: nat)
    requires WellFormedDisk(d) && Usable(d, a, x, y) && x.path != y.path
    ensures TakenSnapshot(d, x, y, a, b, u, n).1.Refusal? <==>
      || Foreign(Reads(d, x.path), u) || Foreign(Reads(d, y.path), u) || Differs(Reads(d, x.path), x)
      || (Differs(Reads(d, y.path), y) && (Reads(d, x.path).Some? || (a.trouble.NoTrouble? && n >= 9)))
  {
    AttemptContained(d, x.path, a.temp, a.inode, SnapshotFile(x.payload, u), a.trouble, n);
  }

  // ---------------------------------------------------------------- any number of tries

  datatype Step = Tried(first: Try, second: Try, budget: nat) | Crash

  ghost predicate Next(d: Disk, s: Step, e: Disk, x: Want, y: Want, u: User) {
    match s
    case Tried(a, b, n) => Tries(d, x, y, a, b, u, n) && e == TakenSnapshot(d, x, y, a, b, u, n).0
    case Crash => Rebooted(d, e)
  }

  ghost predicate History(disks: seq<Disk>, steps: seq<Step>, x: Want, y: Want, u: User) {
    |disks| == |steps| + 1 && forall k :: 0 <= k < |steps| ==> Next(disks[k], steps[k], disks[k + 1], x, y, u)
  }

  lemma NextKeeps(d: Disk, s: Step, e: Disk, x: Want, y: Want, u: User)
    requires Next(d, s, e, x, y, u) && Partial(d, x, y, u)
    ensures Partial(e, x, y, u) && (Durable(d, x, y, u) ==> Durable(e, x, y, u))
  {
    match s
    case Tried(a, b, n) => TryKeeps(d, x, y, a, b, u, n);
    case Crash =>
      RebootedCertain(d, e, x.path, o => AbsentOrWhole(o, x, u));
      RebootedCertain(d, e, y.path, o => AbsentOrWhole(o, y, u));
      if Durable(d, x, y, u) {
        RebootedCertain(d, e, x.path, o => o == Some(SnapshotFile(x.payload, u)));
        RebootedCertain(d, e, y.path, o => o == Some(SnapshotFile(y.payload, u)));
      }
  }

  lemma {:induction false} HistoryKeeps(disks: seq<Disk>, steps: seq<Step>, x: Want, y: Want, u: User, j: nat, k: nat)
    requires History(disks, steps, x, y, u) && j <= k <= |steps| && Partial(disks[j], x, y, u)
    ensures Partial(disks[k], x, y, u) && (Durable(disks[j], x, y, u) ==> Durable(disks[k], x, y, u))
  {
    if j < k {
      HistoryKeeps(disks, steps, x, y, u, j, k - 1);
      assert Next(disks[k - 1], steps[k - 1], disks[k], x, y, u);
      NextKeeps(disks[k - 1], steps[k - 1], disks[k], x, y, u);
    }
  }

  /**
   However many tries were cut off or failed, and however often the machine crashed: each file is absent or whole,
   now and after a crash, and the next try with the same contents is not refused.
   */
  lemma SnapshotResumes(disks: seq<Disk>, steps: seq<Step>, x: Want, y: Want, u: User, k: nat, a: Try, b: Try, n: nat, o: Option<FileData>)
    requires History(disks, steps, x, y, u) && k <= |steps| && Untouched(disks[0], x, y) && Tries(disks[k], x, y, a, b, u, n)
    ensures !TakenSnapshot(disks[k], x, y, a, b, u, n).1.Refusal?
    ensures MayRead(disks[k], x.path, o) ==> AbsentOrWhole(o, x, u)
    ensures MayRead(disks[k], y.path, o) ==> AbsentOrWhole(o, y, u)
  {
    HistoryKeeps(disks, steps, x, y, u, 0, k);
    TryKeeps(disks[k], x, y, a, b, u, n);
    CertainReads(disks[k], x.path, o => AbsentOrWhole(o, x, u));
    CertainReads(disks[k], y.path, o => AbsentOrWhole(o, y, u));
  }

  /**
   Durable files are immutable: whatever contents a later try wants for the two paths, it changes nothing, and it
   succeeds exactly when they are the same.
   */
  lemma SnapshotImmutable(d: Disk, x: Want, y: Want, v: Want, w: Want, a: Try, b: Try, u: User, n: nat)
    requires WellFormedDisk(d) && Durable(d, x, y, u) && v.path == x.path && w.path == y.path
    ensures TakenSnapshot(d, v, w, a, b, u, n) == (d, if v == x && w == y then Finished(n) else Refusal)
  {
    CertainReads(d, x.path, o => o == Some(SnapshotFile(x.payload, u)));
    CertainReads(d, y.path, o => o == Some(SnapshotFile(y.payload, u)));
  }
}
