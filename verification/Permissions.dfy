/** Setting the modes of the artifact closure through open descriptors (deploy/bin/prepare-rag-permissions.py). */
module Permissions {
  import opened Results
  import opened Ordering
  import opened Texts
  import opened PermissionPaths

  const DIRECTORY_MODE := 493   // 0o755
  const FILE_MODE := 420        // 0o644
  const EXPECTED_FILE_COUNT := 11
  const EXPECTED_TOTAL_BYTES := 222_789_868

  // ---------------------------------------------------------------- the file tree

  datatype NodeKind = DirNode | RegularNode | LinkNode | OtherNode

  datatype Inode = Inode(kind: NodeKind, perm: nat, size: int, mtime: int, ctime: int, entries: map<string, nat>)

  /** `root` is the inode that the closure's root path names. */
  datatype Tree = Tree(root: nat, inodes: map<nat, Inode>)

  /** What `fstat` returns. */
  datatype Signature = Signature(ino: nat, kind: NodeKind, perm: nat, size: int, mtime: int, ctime: int)

  datatype Entry = Entry(path: string, kind: Kind, signature: Signature)

  /** What the closure verifier prints. */
  datatype Metadata = Metadata(count: int, totalBytes: int, files: seq<string>, fingerprint: seq<Entry>)

  datatype Refusal = VerifierFailed | NotApproved | InvalidFiles | InvalidPaths | InvalidFingerprint | Incomplete
                   | CannotOpen(path: string) | CannotInspect(path: string) | WrongType(path: string) | Changed(path: string)
                   | WrongMode(path: string) | OsError | ClosureChanged

  predicate Typed(kind: Kind, node: NodeKind) { if kind == Directory then node == DirNode else node == RegularNode }

  function ExpectedMode(kind: Kind): nat { if kind == Directory then DIRECTORY_MODE else FILE_MODE }

  function Stat(t: Tree, ino: nat): Option<Signature> {
    if ino !in t.inodes then None
    else
      var n := t.inodes[ino];
      Some(Signature(ino, n.kind, n.perm, n.size, n.mtime, n.ctime))
  }

  /** `open(name, flags, dir_fd=dir)` without following links. */
  function OpenIn(t: Tree, dir: nat, name: string, kind: Kind): Option<nat> {
    if dir !in t.inodes || t.inodes[dir].kind != DirNode || name !in t.inodes[dir].entries then None
    else
      var target := t.inodes[dir].entries[name];
      if target !in t.inodes || t.inodes[target].kind == LinkNode || (kind == Directory && t.inodes[target].kind != DirNode) then None
      else Some(target)
  }

  function OpenRoot(t: Tree): Option<nat> {
    if t.root in t.inodes && t.inodes[t.root].kind == DirNode then Some(t.root) else None
  }

  /** The inode a path names when no link is followed. */
  function Named(t: Tree, parts: seq<string>): Option<nat> {
    if parts == [] then OpenRoot(t)
    else
      var dir := Named(t, parts[..|parts| - 1]);
      if dir == None then None else OpenIn(t, dir.value, parts[|parts| - 1], File)
  }

  function Chmod(t: Tree, ino: nat, perm: nat, ctime: int): Tree {
    if ino !in t.inodes then t else t.(inodes := t.inodes[ino := t.inodes[ino].(perm := perm, ctime := ctime)])
  }

  /** Only the given inodes differ, and only in mode and change time. */
  ghost predicate OnlyModes(before: Tree, after: Tree, inos: set<nat>) {
    && after.root == before.root && after.inodes.Keys == before.inodes.Keys
    && forall ino :: ino in before.inodes ==>
         if ino in inos then after.inodes[ino] == before.inodes[ino].(perm := after.inodes[ino].perm, ctime := after.inodes[ino].ctime)
         else after.inodes[ino] == before.inodes[ino]
  }

  // ---------------------------------------------------------------- the verifier's answer

  ghost predicate DistinctFiles(files: seq<string>) { forall i, j :: 0 <= i < j < |files| ==> files[i] != files[j] }

  ghost predicate DistinctEntries(entries: seq<Entry>) { forall i, j :: 0 <= i < j < |entries| ==> entries[i].path != entries[j].path }

  predicate EntryFits(e: Entry, components: map<string, Kind>) {
    && (e.path == "." || RelativeParts(e.path).Some?)
    && e.path in components && components[e.path] == e.kind
  }

  ghost predicate EntriesFit(entries: seq<Entry>, components: map<string, Kind>) {
    DistinctEntries(entries) && forall i :: 0 <= i < |entries| ==> EntryFits(entries[i], components)
  }

  /** The answer describes the approved closure: its eleven files and each of their components. */
  ghost predicate Valid(m: Option<Metadata>) {
    && m.Some? && m.value.count == EXPECTED_FILE_COUNT && m.value.totalBytes == EXPECTED_TOTAL_BYTES
    && |m.value.files| == EXPECTED_FILE_COUNT && DistinctFiles(m.value.files)
    && AllCanonical(m.value.files) && !Conflicting(m.value.files)
    && |m.value.fingerprint| == |ComponentsOf(m.value.files)| && EntriesFit(m.value.fingerprint, ComponentsOf(m.value.files))
  }

  function ByPath(entries: seq<Entry>): (m: map<string, Entry>) {
    if entries == [] then map[]
    else
      var last := entries[|entries| - 1];
      ByPath(entries[..|entries| - 1])[last.path := last]
  }

  ghost predicate HasPath(entries: seq<Entry>, path: string) { exists i :: 0 <= i < |entries| && entries[i].path == path }

  lemma HasPathLast(entries: seq<Entry>, path: string)
    requires entries != []
    ensures HasPath(entries, path) <==> HasPath(entries[..|entries| - 1], path) || entries[|entries| - 1].path == path
  {
    var rest := entries[..|entries| - 1];
    assert forall i :: 0 <= i < |rest| ==> rest[i] == entries[i];
    if HasPath(rest, path) {
      var i :| 0 <= i < |rest| && rest[i].path == path;
      assert entries[i].path == path;
    }
  }

  lemma {:induction false} ByPathKeys(entries: seq<Entry>)
    ensures forall path :: path in ByPath(entries) <==> HasPath(entries, path)
  {
    if entries != [] {
      ByPathKeys(entries[..|entries| - 1]);
      forall path ensures path in ByPath(entries) <==> HasPath(entries, path) { HasPathLast(entries, path); }
    }
  }

  lemma {:induction false} ByPathSize(entries: seq<Entry>)
    requires DistinctEntries(entries)
    ensures |ByPath(entries)| == |entries|
  {
    if entries != [] {
      var rest, last := entries[..|entries| - 1], entries[|entries| - 1];
      ByPathSize(rest);
      ByPathKeys(rest);
      assert last.path !in ByPath(rest);
    }
  }

  lemma {:induction false} ByPathAt(entries: seq<Entry>, i: nat)
    requires DistinctEntries(entries) && i < |entries|
    ensures entries[i].path in ByPath(entries) && ByPath(entries)[entries[i].path] == entries[i]
  {
    var n := |entries| - 1;
    if i < n {
      assert entries[i].path != entries[n].path;
      ByPathAt(entries[..n], i);
    }
  }

  lemma ByPathFacts(entries: seq<Entry>)
    requires DistinctEntries(entries)
    ensures |ByPath(entries)| == |entries|
    ensures forall path :: path in ByPath(entries) <==> HasPath(entries, path)
    ensures forall i :: 0 <= i < |entries| ==> entries[i].path in ByPath(entries) && ByPath(entries)[entries[i].path] == entries[i]
  {
    ByPathKeys(entries);
    ByPathSize(entries);
    forall i | 0 <= i < |entries| ensures entries[i].path in ByPath(entries) && ByPath(entries)[entries[i].path] == entries[i] { ByPathAt(entries, i); }
  }

  lemma SameSizeSubset(a: set<string>, b: set<string>)
    requires a <= b && |a| == |b|
    ensures a == b
  {
    assert |b - a| == |b| - |a|;
  }

  /** A fitting fingerprint of the right length is complete, so the check for completeness never fails. */
  lemma FitsMeansComplete(entries: seq<Entry>, components: map<string, Kind>)
    requires EntriesFit(entries, components) && |entries| == |components|
    ensures ByPath(entries).Keys == components.Keys
    ensures forall path :: path in components ==> ByPath(entries)[path].path == path && ByPath(entries)[path].kind == components[path]
  {
    ByPathFacts(entries);
    forall path | path in ByPath(entries)
      ensures path in components && ByPath(entries)[path].path == path && ByPath(entries)[path].kind == components[path]
    {
      var i :| 0 <= i < |entries| && entries[i].path == path;
      assert EntryFits(entries[i], components);
    }
    SameSizeSubset(ByPath(entries).Keys, components.Keys);
  }

  predicate HasRepeat(files: seq<string>) { exists i, j | 0 <= i < j < |files| :: files[i] == files[j] }

  lemma FitsInFront(a: seq<Entry>, b: seq<Entry>, components: map<string, Kind>)
    ensures EntriesFit(a + b, components) ==> EntriesFit(a, components)
  {
    var all := a + b;
    if EntriesFit(all, components) {
      forall i, j | 0 <= i < j < |a| ensures a[i].path != a[j].path { assert all[i].path != all[j].path; }
      forall i | 0 <= i < |a| ensures EntryFits(a[i], components) { assert EntryFits(all[i], components); }
    }
  }

  /** When one more entry fits. */
  lemma FitsOneMore(a: seq<Entry>, e: Entry, components: map<string, Kind>)
    requires EntriesFit(a, components)
    ensures EntriesFit(a + [e], components) <==> EntryFits(e, components) && e.path !in ByPath(a)
  {
    var all := a + [e];
    ByPathFacts(a);
    assert all[|a|] == e;
    if e.path in ByPath(a) {
      var j :| 0 <= j < |a| && a[j].path == e.path;
      assert all[j].path == all[|a|].path;
    }
  }

  /** The loop over the fingerprint. */
  method ReadFingerprint(entries: seq<Entry>, components: map<string, Kind>) returns (r: Option<map<string, Entry>>)
    ensures r.Some? <==> EntriesFit(entries, components)
    ensures r.Some? ==> r.value == ByPath(entries)
  {
    var fingerprint: map<string, Entry> := map[];
    for i := 0 to |entries|
      invariant fingerprint == ByPath(entries[..i]) && EntriesFit(entries[..i], components)
    {
      var entry := entries[i];
      FitsOneMore(entries[..i], entry, components);
      assert entries[..i + 1] == entries[..i] + [entry];
      assert entries == entries[..i + 1] + entries[i + 1..];
      FitsInFront(entries[..i + 1], entries[i + 1..], components);
      if (entry.path != "." && RelativeParts(entry.path).None?) || entry.path in fingerprint
         || entry.path !in components || components[entry.path] != entry.kind
      {
        return None;
      }
      assert entries[..i + 1][..i] == entries[..i];
      fingerprint := fingerprint[entry.path := entry];
    }
    assert entries[..|entries|] == entries;
    r := Some(fingerprint);
  }

  /** `_verified_entries`: the files in order, and the fingerprint by path. */
  method VerifiedEntries(m: Option<Metadata>) returns (r: Result<(seq<string>, map<string, Entry>), Refusal>)
    ensures r.Ok? <==> Valid(m)
    ensures r.Ok? ==> r.value == (Sorted(Elements(m.value.files)), ByPath(m.value.fingerprint))
    ensures r != Err(Incomplete)
  {
    if m == None { return Err(VerifierFailed); }
    var meta := m.value;
    if meta.count != EXPECTED_FILE_COUNT || meta.totalBytes != EXPECTED_TOTAL_BYTES { return Err(NotApproved); }
    if |meta.files| != EXPECTED_FILE_COUNT || HasRepeat(meta.files) { return Err(InvalidFiles); }
    var components := ExpectedComponents(meta.files);
    if components.Err? { return Err(InvalidPaths); }
    if |meta.fingerprint| != |components.value| { return Err(InvalidFingerprint); }
    var fingerprint := ReadFingerprint(meta.fingerprint, components.value);
    if fingerprint == None { return Err(InvalidFingerprint); }
    FitsMeansComplete(meta.fingerprint, components.value);
    if fingerprint.value.Keys != components.value.Keys { return Err(Incomplete); }
    r := Ok((Sorted(Elements(meta.files)), fingerprint.value));
  }
}
