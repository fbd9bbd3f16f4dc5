/** What the canonical paths, the opened components and a secured closure are, outright (deploy/bin/prepare-rag-permissions.py). */
module PermissionExact {
  import opened Results
  import opened Ordering
  import opened Texts
  import opened PermissionPaths
  import opened Permissions
  import opened PermissionRun

  /** A path has the given parts exactly when it is their join and none of them is special. */
  lemma CanonicalIff(value: string, parts: seq<string>)
    ensures RelativeParts(value) == Some(parts) <==>
      && '\\' !in value && '\0' !in value
      && (forall i :: 0 <= i < |parts| ==> parts[i] != "" && parts[i] != "." && parts[i] != ".." && '/' !in parts[i])
      && value == if parts == [] then "." else Join(parts, '/')
  {
    var fits := (forall i :: 0 <= i < |parts| ==> parts[i] != "" && parts[i] != "." && parts[i] != ".." && '/' !in parts[i])
                && value == if parts == [] then "." else Join(parts, '/');
    SplitNothing(".", '/');
    if RelativeParts(value) == Some(parts) {
      forall i | 0 <= i < |parts| ensures parts[i] != "" && parts[i] != "." && parts[i] != ".." && '/' !in parts[i] { assert PlainPart(parts[i]); }
    }
    if fits && parts != [] {
      SplitJoin(parts, '/');
      SplitNothing("", '/');
      assert parts[0] != [""][0] && parts[0] != ["."][0];
    }
  }

  // ---------------------------------------------------------------- what is opened

  /** The entry of the directory is the descriptor's inode, and it is no link. */
  predicate HasEntry(t: Tree, dir: nat, name: string, ino: nat) {
    && dir in t.inodes && t.inodes[dir].kind == DirNode && name in t.inodes[dir].entries && t.inodes[dir].entries[name] == ino
    && ino in t.inodes && t.inodes[ino].kind != LinkNode
  }

  /** The descriptor is for the inode that the path's parent holds under its name, as the entry says. */
  predicate OpensOne(t: Tree, fp: map<string, Entry>, descriptors: map<string, nat>, path: string) {
    && path in descriptors && path in fp && ParentOf(path) in descriptors
    && HasEntry(t, descriptors[ParentOf(path)], NameOf(path), descriptors[path])
    && Matches(t, descriptors[path], fp[path])
  }

  ghost predicate Opens(t: Tree, fp: map<string, Entry>, descriptors: map<string, nat>, paths: seq<string>) {
    forall i :: 0 <= i < |paths| ==> OpensOne(t, fp, descriptors, paths[i])
  }

  lemma OpenInIff(t: Tree, dir: nat, name: string, e: Entry, ino: nat)
    requires Matches(t, ino, e)
    ensures OpenIn(t, dir, name, e.kind) == Some(ino) <==> HasEntry(t, dir, name, ino)
  {
  }

  lemma {:induction false} OpenEachOpens(t: Tree, fp: map<string, Entry>, paths: seq<string>, descriptors: map<string, nat>)
    requires NoRepeats(paths) && OpenEach(t, fp, paths, descriptors).Some? && forall i :: 0 <= i < |paths| ==> paths[i] !in descriptors
    ensures var r := OpenEach(t, fp, paths, descriptors).value;
      Opens(t, fp, r, paths) && forall path :: path in descriptors ==> path in r && r[path] == descriptors[path]
    decreases |paths|
  {
    if paths != [] {
      var path, rest := paths[0], paths[1..];
      var ino := OpenIn(t, descriptors[ParentOf(path)], NameOf(path), fp[path].kind).value;
      var more := descriptors[path := ino];
      assert forall i :: 0 <= i < |rest| ==> rest[i] == paths[i + 1];
      OpenEachOpens(t, fp, rest, more);
      var r := OpenEach(t, fp, rest, more).value;
      OpenInIff(t, descriptors[ParentOf(path)], NameOf(path), fp[path], ino);
      assert OpensOne(t, fp, r, path);
      forall i | 0 <= i < |paths| ensures OpensOne(t, fp, r, paths[i]) { if i > 0 { assert paths[i] == rest[i - 1]; } }
    }
  }

  /** Some of the descriptors, those of the paths that were opened so far. */
  ghost predicate Among(some: map<string, nat>, all: map<string, nat>) {
    forall path :: path in some ==> path in all && all[path] == some[path]
  }

  lemma {:induction false} OpensCompletes(t: Tree, fp: map<string, Entry>, order: seq<string>, i: nat, some: map<string, nat>, all: map<string, nat>)
    requires ParentsBefore(fp.Keys, order) && i <= |order| && some.Keys == {"."} + Elements(order[..i]) && Among(some, all)
    requires Opens(t, fp, all, order)
    ensures OpenEach(t, fp, order[i..], some).Some? && Among(OpenEach(t, fp, order[i..], some).value, all)
    decreases |order| - i
  {
    if i < |order| {
      var path := order[i];
      OrderStep(fp.Keys, order, i);
      assert OpensOne(t, fp, all, path);
      OpenInIff(t, all[ParentOf(path)], NameOf(path), fp[path], all[path]);
      OpensCompletes(t, fp, order, i + 1, some[path := all[path]], all);
      assert order[i..][1..] == order[i + 1..];
    }
  }

  /** The root is a directory, and each other component is what its parent's inode holds under its name. */
  ghost predicate OpensAll(t: Tree, fp: map<string, Entry>, descriptors: map<string, nat>) {
    && descriptors.Keys == fp.Keys && "." in fp && descriptors["."] == t.root && Matches(t, t.root, fp["."]) && t.inodes[t.root].kind == DirNode
    && forall path :: path in fp && path != "." ==> OpensOne(t, fp, descriptors, path)
  }

  lemma OpenedOpens(t: Tree, fp: map<string, Entry>)
    requires ParentClosed(fp.Keys) && OpenAll(t, fp).Some?
    ensures OpensAll(t, fp, OpenAll(t, fp).value)
  {
    var order, r := OpeningOrder(fp.Keys), OpenAll(t, fp).value;
    ParentFirst(fp.Keys);
    OrderDistinct(fp.Keys);
    OpenAllFacts(t, fp);
    forall i | 0 <= i < |order| ensures order[i] != "." { assert ReadyAt(fp.Keys, order, i); }
    var start := map["." := t.root];
    assert "." in start && start["."] == t.root;
    OpenEachOpens(t, fp, order, start);
    forall path | path in fp && path != "." ensures OpensOne(t, fp, r, path) {
      assert path in Elements(order);
      var i :| 0 <= i < |order| && order[i] == path;
    }
  }

  lemma OpensOpened(t: Tree, fp: map<string, Entry>, descriptors: map<string, nat>)
    requires ParentClosed(fp.Keys) && OpensAll(t, fp, descriptors)
    ensures OpenAll(t, fp) == Some(descriptors)
  {
    var order := OpeningOrder(fp.Keys);
    ParentFirst(fp.Keys);
    forall i | 0 <= i < |order| ensures OpensOne(t, fp, descriptors, order[i]) { assert ReadyAt(fp.Keys, order, i); }
    assert order[..0] == [] && order[0..] == order;
    assert OpenRoot(t) == Some(t.root) && Elements(order[..0]) == {};
    OpensCompletes(t, fp, order, 0, map["." := t.root], descriptors);
    OpenAllFacts(t, fp);
    var r := OpenAll(t, fp).value;
    assert r.Keys == descriptors.Keys && Among(r, descriptors);
    assert r == descriptors;
  }

  /**
   The components are opened exactly when the root is a directory and each other one is what its parent's inode
   holds under its name, no link, with the numbers of its entry; the descriptors are then these inodes.
   */
  lemma OpenedIff(t: Tree, fp: map<string, Entry>, descriptors: map<string, nat>)
    requires ParentClosed(fp.Keys)
    ensures OpenAll(t, fp) == Some(descriptors) <==> OpensAll(t, fp, descriptors)
  {
    if OpenAll(t, fp).Some? { OpenedOpens(t, fp); }
    if OpensAll(t, fp, descriptors) { OpensOpened(t, fp, descriptors); }
  }

  /** The inodes from the root along the parts, each the entry of the one before, and no link among them. */
  ghost predicate Walks(t: Tree, parts: seq<string>, walk: seq<nat>) {
    && |walk| == |parts| + 1 && walk[0] == t.root && t.root in t.inodes && t.inodes[t.root].kind == DirNode
    && forall i :: 0 <= i < |parts| ==> HasEntry(t, walk[i], parts[i], walk[i + 1])
  }

  lemma {:induction false} WalkTo(t: Tree, parts: seq<string>, ino: nat) returns (walk: seq<nat>)
    requires Named(t, parts) == Some(ino)
    ensures Walks(t, parts, walk) && walk[|parts|] == ino
    decreases |parts|
  {
    if parts == [] {
      walk := [ino];
    } else {
      var n := |parts| - 1;
      var before := WalkTo(t, parts[..n], Named(t, parts[..n]).value);
      walk := before + [ino];
      forall i | 0 <= i < |parts| ensures HasEntry(t, walk[i], parts[i], walk[i + 1]) {
        if i < n { assert HasEntry(t, before[i], parts[..n][i], before[i + 1]); }
      }
    }
  }

  lemma {:induction false} WalkNames(t: Tree, parts: seq<string>, walk: seq<nat>)
    requires Walks(t, parts, walk)
    ensures Named(t, parts) == Some(walk[|parts|])
    decreases |parts|
  {
    if parts != [] {
      var n := |parts| - 1;
      forall i | 0 <= i < n ensures HasEntry(t, walk[..n + 1][i], parts[..n][i], walk[..n + 1][i + 1]) {
        assert HasEntry(t, walk[i], parts[i], walk[i + 1]);
      }
      WalkNames(t, parts[..n], walk[..n + 1]);
      assert HasEntry(t, walk[n], parts[n], walk[n + 1]);
    }
  }

  /** A path names an inode exactly when it can be walked to from the root without following a link. */
  lemma NamedIff(t: Tree, parts: seq<string>, ino: nat)
    ensures Named(t, parts) == Some(ino) <==> exists walk :: Walks(t, parts, walk) && walk[|parts|] == ino
  {
    if Named(t, parts) == Some(ino) { var walk := WalkTo(t, parts, ino); }
    forall walk | Walks(t, parts, walk) ensures Named(t, parts) == Some(walk[|parts|]) { WalkNames(t, parts, walk); }
  }

  // ---------------------------------------------------------------- what is secured

  /** The entry is for the inode, a directory with mode 0755 or a regular file with mode 0644. */
  predicate SecuredEntry(e: Entry, ino: nat) {
    e.signature.ino == ino &&
    match e.kind
    case Directory => e.signature.kind == DirNode && e.signature.perm == 0x1ED
    case File => e.signature.kind == RegularNode && e.signature.perm == 0x1A4
  }

  lemma SecuredEntryIff(e: Entry, ino: nat)
    ensures SecuredEntry(e, ino) <==> Describes(ino, e) && e.signature.perm == ExpectedMode(e.kind)
  {
  }

  ghost predicate EachSecured(entries: seq<Entry>, descriptors: map<string, nat>) {
    forall i :: 0 <= i < |entries| ==> entries[i].path in descriptors && SecuredEntry(entries[i], descriptors[entries[i].path])
  }

  lemma SecuredByPath(entries: seq<Entry>, descriptors: map<string, nat>)
    requires DistinctEntries(entries) && ByPath(entries).Keys == descriptors.Keys
    ensures AllDescribed(descriptors, ByPath(entries)) && ModesRight(ByPath(entries)) <==> EachSecured(entries, descriptors)
  {
    var fp := ByPath(entries);
    ByPathFacts(entries);
    forall path | path in fp ensures SecuredEntry(fp[path], descriptors[path]) <==> Describes(descriptors[path], fp[path]) && fp[path].signature.perm == ExpectedMode(fp[path].kind) {
      SecuredEntryIff(fp[path], descriptors[path]);
    }
    if EachSecured(entries, descriptors) {
      forall path | path in fp ensures SecuredEntry(fp[path], descriptors[path]) {
        var i :| 0 <= i < |entries| && entries[i].path == path;
      }
    }
  }

  /** A secured closure has an entry for each component and no other, and every entry is for its descriptor. */
  lemma SecuredIff(verifier: Tree -> Option<Metadata>, seen: Tree, descriptors: map<string, nat>)
    ensures Secured(verifier, seen, descriptors) <==>
      && Valid(verifier(seen))
      && (forall path :: path in descriptors <==> path == "." || IsPrefix(verifier(seen).value.files, path))
      && EachSecured(verifier(seen).value.fingerprint, descriptors)
  {
    if Valid(verifier(seen)) {
      var m := verifier(seen).value;
      FitsMeansComplete(m.fingerprint, ComponentsOf(m.files));
      ComponentsCover(m.files);
      forall path ensures path in ComponentsOf(m.files) <==> path == "." || IsPrefix(m.files, path) { PrefixIsComponent(m.files, path); }
      if forall path :: path in descriptors <==> path == "." || IsPrefix(m.files, path) {
        assert descriptors.Keys == ComponentsOf(m.files).Keys;
        SecuredByPath(m.fingerprint, descriptors);
      }
    }
  }
}
