/** The fingerprint of the whole artifact tree, taken with a worklist (backend/main.py). */
module TreeFingerprint {
  import opened Results
  import opened Ordering
  import opened Texts
  import opened PermissionPaths
  import opened Fingerprints
  import Permissions
  import Readiness

  /** The tree at one instant; a child may be gone when it is looked at, and a directory unreadable. */
  datatype Node =
    | Gone
    | Leaf(kind: NodeKind, numbers: seq<int>)
    | Folder(numbers: seq<int>, readable: bool, children: seq<(string, Node)>)

  /** Children have plain, different names; no leaf is a directory. */
  predicate WellNamed(node: Node)
    decreases node
  {
    match node
    case Gone => true
    case Leaf(kind, _) => kind != Permissions.DirNode
    case Folder(_, _, cs) =>
      && (forall i | 0 <= i < |cs| :: PlainPart(cs[i].0) && WellNamed(cs[i].1))
      && forall i, j | 0 <= i < j < |cs| :: cs[i].0 != cs[j].0
  }

  function Child(node: Node, name: string): Option<Node> {
    if node.Folder? && node.readable then ChildIn(node.children, name) else None
  }

  function ChildIn(cs: seq<(string, Node)>, name: string): Option<Node> {
    if cs == [] then None else if cs[0].0 == name then Some(cs[0].1) else ChildIn(cs[1..], name)
  }

  /** What stands at a path. */
  function At(root: Node, parts: seq<string>): Option<Node> {
    if parts == [] then Some(root)
    else
      var dir := At(root, parts[..|parts| - 1]);
      if dir == None then None else Child(dir.value, parts[|parts| - 1])
  }

  /** The kind written for a node; a root that is no directory and no link is "invalid". */
  function KindName(path: string, node: Node): string {
    match node
    case Gone => "missing"
    case Folder(_, _, _) => "directory"
    case Leaf(kind, _) =>
      if kind == Permissions.LinkNode then "symlink"
      else if kind == Permissions.RegularNode && path != "." then "file"
      else "invalid"
  }

  function EntryOf(path: string, node: Node): Entry {
    Readiness.Entry(path, KindName(path, node), if node.Gone? then [] else node.numbers)
  }

  function Marker(path: string): string { path + "/<unreadable>" }

  function MarkerEntry(path: string): Entry { Readiness.Entry(Marker(path), "error", []) }

  predicate Unreadable(root: Node, parts: seq<string>) {
    At(root, parts).Some? && At(root, parts).value.Folder? && !At(root, parts).value.readable
  }

  ghost predicate Holds(entries: map<string, Entry>, e: Entry) { e.path in entries && entries[e.path] == e }

  predicate Stands(root: Node, parts: seq<string>) { PlainParts(parts) && At(root, parts).Some? }

  predicate Unread(root: Node, parts: seq<string>) { PlainParts(parts) && Unreadable(root, parts) }

  ghost predicate Entered(root: Node, entries: map<string, Entry>, parts: seq<string>)
    requires Stands(root, parts)
  {
    Holds(entries, EntryOf(PathOf(parts), At(root, parts).value))
  }

  ghost predicate Mentioned(entries: map<string, Entry>, parts: seq<string>) { Holds(entries, MarkerEntry(PathOf(parts))) }

  /** The entries are those of what stands at each path, and a mark for each directory that cannot be read. */
  ghost predicate Snapshot(root: Node, entries: map<string, Entry>) {
    && (forall parts :: Stands(root, parts) ==> Entered(root, entries, parts))
    && (forall parts :: Unread(root, parts) ==> Mentioned(entries, parts))
    && OnlyOf(root, entries)
  }

  /** What `_rag_tree_fingerprint` returns for a tree. */
  ghost predicate TreeReading(root: Node, r: seq<Entry>) {
    WellNamed(root) && exists entries :: Snapshot(root, entries) && r == InOrder(entries)
  }

  ghost predicate OnlyOf(root: Node, entries: map<string, Entry>) {
    forall key :: key in entries ==> FromTree(root, entries[key]) && entries[key].path == key
  }

  ghost predicate FromTree(root: Node, e: Entry) { exists parts :: ComesFrom(root, parts, e) }

  predicate ComesFrom(root: Node, parts: seq<string>, e: Entry) {
    && PlainParts(parts)
    && ((At(root, parts).Some? && e == EntryOf(PathOf(parts), At(root, parts).value)) || (Unreadable(root, parts) && e == MarkerEntry(PathOf(parts))))
  }

  // ---------------------------------------------------------------- one key, one entry

  lemma ChildOfGone(root: Node, parts: seq<string>, name: string)
    requires Unreadable(root, parts)
    ensures At(root, parts + [name]) == None
  {
    assert (parts + [name])[..|parts|] == parts;
  }

  lemma MarkerPath(parts: seq<string>)
    requires PlainParts(parts) && parts != []
    ensures PlainParts(parts + ["<unreadable>"]) && Marker(PathOf(parts)) == PathOf(parts + ["<unreadable>"])
  {
    JoinConcat(parts, ["<unreadable>"], '/');
    assert PlainPart("<unreadable>");
  }

  lemma NoDotFirst(parts: seq<string>, tail: string)
    requires PlainParts(parts)
    ensures PathOf(parts) != "./" + tail
  {
    SplitNothing(".", '/');
    SplitAt(".", '/', tail);
    assert "./" + tail == "." + ['/'] + tail;
    assert Split("./" + tail, '/')[0] == ".";
    if parts != [] {
      SplitJoin(parts, '/');
      assert parts[0] != ".";
    }
  }

  lemma RootMarker(parts: seq<string>)
    requires PlainParts(parts)
    ensures PathOf(parts) != Marker(".")
  {
    NoDotFirst(parts, "<unreadable>");
    assert Marker(".") == "./" + "<unreadable>";
  }

  /** Two entries from one tree with the same path are the same entry. */
  lemma OneEntry(root: Node, a: Entry, b: Entry)
    requires FromTree(root, a) && FromTree(root, b) && a.path == b.path
    ensures a == b
  {
    var p :| ComesFrom(root, p, a);
    var q :| ComesFrom(root, q, b);
    SamePlace(root, p, q);
  }

  lemma SamePlace(root: Node, p: seq<string>, q: seq<string>)
    requires PlainParts(p) && PlainParts(q)
    ensures PathOf(p) == PathOf(q) ==> p == q
    ensures Unreadable(root, q) && At(root, p).Some? ==> PathOf(p) != Marker(PathOf(q))
    ensures Unreadable(root, p) && At(root, q).Some? ==> PathOf(q) != Marker(PathOf(p))
    ensures Marker(PathOf(p)) == Marker(PathOf(q)) ==> p == q
  {
    PathOfInjective(p, q);
    RootMarker(p);
    RootMarker(q);
    if Unreadable(root, q) && q != [] {
      MarkerPath(q);
      ChildOfGone(root, q, "<unreadable>");
      PathOfInjective(p, q + ["<unreadable>"]);
    }
    if Unreadable(root, p) && p != [] {
      MarkerPath(p);
      ChildOfGone(root, p, "<unreadable>");
      PathOfInjective(q, p + ["<unreadable>"]);
    }
    MarkerInjective(PathOf(p), PathOf(q));
  }

  lemma MarkerInjective(a: string, b: string)
    ensures Marker(a) == Marker(b) ==> a == b
  {
    assert Marker(a)[..|Marker(a)| - 13] == a && Marker(b)[..|Marker(b)| - 13] == b;
  }

  // ---------------------------------------------------------------- the worklist

  function Size(node: Node): nat
    decreases node, 0
  {
    match node
    case Folder(_, _, cs) => 1 + SizeAll(cs)
    case _ => 1
  }

  function SizeAll(cs: seq<(string, Node)>): nat
    decreases cs, 1
  {
    if cs == [] then 0 else SizeOf(cs[0]) + SizeAll(cs[1..])
  }

  function SizeOf(c: (string, Node)): nat
    decreases c, 1
  {
    Size(c.1)
  }

  /** Paths of directories that are still to be read, with what is there. */
  type Worklist = seq<(seq<string>, Node)>

  function Work(pending: Worklist): nat {
    if pending == [] then 0 else Work(pending[..|pending| - 1]) + Size(pending[|pending| - 1].1)
  }

  ghost predicate Waiting(pending: Worklist, parts: seq<string>) { exists i :: 0 <= i < |pending| && pending[i].0 <= parts }

  ghost predicate Pending(root: Node, pending: Worklist) {
    forall i :: 0 <= i < |pending| ==>
      PlainParts(pending[i].0) && pending[i].1.Folder? && At(root, pending[i].0) == Some(pending[i].1) && WellNamed(pending[i].1)
  }

  /** Whatever is not yet entered lies strictly below a directory that is still to be read. */
  ghost predicate Progress(root: Node, pending: Worklist, entries: map<string, Entry>) {
    && Pending(root, pending) && OnlyOf(root, entries)
    && (forall parts :: Stands(root, parts) ==> Entered(root, entries, parts) || WaitingAbove(pending, parts))
    && (forall parts :: Unread(root, parts) ==> Mentioned(entries, parts) || Waiting(pending, parts))
  }

  ghost predicate WaitingAbove(pending: Worklist, parts: seq<string>) {
    exists i :: 0 <= i < |pending| && pending[i].0 < parts
  }

  /** The state while the children of one directory are entered: the first n are done, and the directory itself is no longer waiting. */
  ghost predicate Entering(root: Node, dir: seq<string>, cs: seq<(string, Node)>, n: nat, pending: Worklist, entries: map<string, Entry>) {
    && Pending(root, pending) && OnlyOf(root, entries)
    && (forall parts :: Stands(root, parts) ==> Entered(root, entries, parts) || WaitingAbove(pending, parts) || LaterChild(dir, cs, n, parts))
    && (forall parts :: Unread(root, parts) ==> Mentioned(entries, parts) || Waiting(pending, parts) || LaterChild(dir, cs, n, parts))
  }

  /** The path leads through a child that is not yet entered. */
  ghost predicate LaterChild(dir: seq<string>, cs: seq<(string, Node)>, n: nat, parts: seq<string>) {
    exists i :: n <= i < |cs| && dir + [cs[i].0] <= parts
  }

  lemma {:induction false} ChildInAt(cs: seq<(string, Node)>, i: nat)
    requires i < |cs| && forall j, k :: 0 <= j < k < |cs| ==> cs[j].0 != cs[k].0
    ensures ChildIn(cs, cs[i].0) == Some(cs[i].1)
  {
    if i > 0 {
      assert cs[0].0 != cs[i].0;
      assert forall j :: 0 <= j < |cs[1..]| ==> cs[1..][j] == cs[j + 1];
      ChildInAt(cs[1..], i - 1);
    }
  }

  lemma {:induction false} ChildInSome(cs: seq<(string, Node)>, name: string) returns (i: nat)
    requires ChildIn(cs, name).Some?
    ensures i < |cs| && cs[i].0 == name && ChildIn(cs, name) == Some(cs[i].1)
  {
    if cs[0].0 == name {
      i := 0;
    } else {
      var j := ChildInSome(cs[1..], name);
      i := j + 1;
    }
  }

  /** Whatever stands below a readable directory stands at or below one of its children. */
  lemma {:induction false} BelowChild(root: Node, dir: seq<string>, parts: seq<string>) returns (i: nat)
    requires At(root, dir).Some? && At(root, dir).value.Folder? && At(root, dir).value.readable
    requires dir < parts && At(root, parts).Some?
    ensures i < |At(root, dir).value.children| && dir + [At(root, dir).value.children[i].0] <= parts
    decreases |parts|
  {
    var up := parts[..|parts| - 1];
    if up == dir {
      i := ChildInSome(At(root, dir).value.children, parts[|parts| - 1]);
      assert parts == dir + [parts[|parts| - 1]];
    } else {
      assert dir < up;
      i := BelowChild(root, dir, up);
    }
  }

  /** Nothing stands below what is not a readable directory. */
  lemma {:induction false} NothingBelow(root: Node, dir: seq<string>, parts: seq<string>)
    requires At(root, dir).Some? && !(At(root, dir).value.Folder? && At(root, dir).value.readable) && dir < parts
    ensures At(root, parts) == None
    decreases |parts|
  {
    var up := parts[..|parts| - 1];
    if up != dir {
      assert dir < up;
      NothingBelow(root, dir, up);
    }
  }

  lemma AtChild(root: Node, dir: seq<string>, i: nat)
    requires At(root, dir).Some? && At(root, dir).value.Folder? && At(root, dir).value.readable && i < |At(root, dir).value.children|
    requires WellNamed(At(root, dir).value)
    ensures At(root, dir + [At(root, dir).value.children[i].0]) == Some(At(root, dir).value.children[i].1)
    ensures WellNamed(At(root, dir).value.children[i].1)
  {
    var cs := At(root, dir).value.children;
    ChildInAt(cs, i);
    assert (dir + [cs[i].0])[..|dir|] == dir;
  }

  /** Entering what the tree has keeps everything that is entered. */
  lemma EnterKeeps(root: Node, entries: map<string, Entry>, e: Entry, other: Entry)
    requires OnlyOf(root, entries) && FromTree(root, e)
    ensures OnlyOf(root, entries[e.path := e]) && Holds(entries[e.path := e], e)
    ensures Holds(entries, other) ==> Holds(entries[e.path := e], other)
  {
    if Holds(entries, other) && other.path == e.path { OneEntry(root, e, other); }
  }

  lemma WaitingLast(pending: Worklist, dir: seq<string>, node: Node, parts: seq<string>)
    ensures WaitingAbove(pending + [(dir, node)], parts) <==> WaitingAbove(pending, parts) || dir < parts
    ensures Waiting(pending + [(dir, node)], parts) <==> Waiting(pending, parts) || dir <= parts
  {
    var more := pending + [(dir, node)];
    assert forall i :: 0 <= i < |pending| ==> more[i] == pending[i];
    assert more[|pending|] == (dir, node);
    if WaitingAbove(pending, parts) { var i :| 0 <= i < |pending| && pending[i].0 < parts; assert more[i].0 < parts; }
    if Waiting(pending, parts) { var i :| 0 <= i < |pending| && pending[i].0 <= parts; assert more[i].0 <= parts; }
  }

  lemma PendingLast(root: Node, pending: Worklist, dir: seq<string>, node: Node)
    requires Pending(root, pending + [(dir, node)])
    ensures Pending(root, pending) && PlainParts(dir) && node.Folder? && At(root, dir) == Some(node) && WellNamed(node)
  {
    var more := pending + [(dir, node)];
    assert forall i :: 0 <= i < |pending| ==> more[i] == pending[i];
    assert more[|pending|] == (dir, node);
  }

  /** A directory that cannot be read gets its mark. */
  lemma MarkStep(root: Node, pending: Worklist, dir: seq<string>, node: Node, entries: map<string, Entry>)
    requires node.Folder? && !node.readable && Progress(root, pending + [(dir, node)], entries)
    ensures Progress(root, pending, entries[Marker(PathOf(dir)) := MarkerEntry(PathOf(dir))])
  {
    PendingLast(root, pending, dir, node);
    var e := MarkerEntry(PathOf(dir));
    assert Unreadable(root, dir) && ComesFrom(root, dir, e);
    EnterKeeps(root, entries, e, e);
    forall parts | Stands(root, parts) ensures Entered(root, entries[e.path := e], parts) || WaitingAbove(pending, parts) {
      WaitingLast(pending, dir, node, parts);
      EnterKeeps(root, entries, e, EntryOf(PathOf(parts), At(root, parts).value));
      if dir < parts { NothingBelow(root, dir, parts); }
    }
    forall parts | Unread(root, parts) ensures Mentioned(entries[e.path := e], parts) || Waiting(pending, parts) {
      WaitingLast(pending, dir, node, parts);
      EnterKeeps(root, entries, e, MarkerEntry(PathOf(parts)));
      if dir < parts { NothingBelow(root, dir, parts); }
      assert dir <= parts && !(dir < parts) ==> dir == parts;
    }
  }

  /** A readable directory is replaced by its children. */
  lemma OpenStep(root: Node, pending: Worklist, dir: seq<string>, node: Node, entries: map<string, Entry>)
    requires node.Folder? && node.readable && Progress(root, pending + [(dir, node)], entries)
    ensures Entering(root, dir, node.children, 0, pending, entries)
  {
    PendingLast(root, pending, dir, node);
    forall parts | Stands(root, parts)
      ensures Entered(root, entries, parts) || WaitingAbove(pending, parts) || LaterChild(dir, node.children, 0, parts)
    {
      WaitingLast(pending, dir, node, parts);
      if dir < parts { var i := BelowChild(root, dir, parts); assert LaterChild(dir, node.children, 0, parts); }
    }
    forall parts | Unread(root, parts)
      ensures Mentioned(entries, parts) || Waiting(pending, parts) || LaterChild(dir, node.children, 0, parts)
    {
      WaitingLast(pending, dir, node, parts);
      if dir < parts { var i := BelowChild(root, dir, parts); assert LaterChild(dir, node.children, 0, parts); }
      assert dir <= parts && !(dir < parts) ==> dir == parts;
    }
  }

  function Pushed(pending: Worklist, path: seq<string>, child: Node): Worklist {
    if child.Folder? then pending + [(path, child)] else pending
  }

  lemma LaterStep(dir: seq<string>, cs: seq<(string, Node)>, n: nat, parts: seq<string>)
    requires n < |cs|
    ensures LaterChild(dir, cs, n, parts) <==> LaterChild(dir, cs, n + 1, parts) || dir + [cs[n].0] <= parts
  {
  }

  /** Entering the n-th child is entering what stands at its path. */
  lemma ChildEntry(root: Node, dir: seq<string>, node: Node, n: nat)
    requires PlainParts(dir) && node.Folder? && node.readable && At(root, dir) == Some(node) && WellNamed(node) && n < |node.children|
    ensures var path, child := dir + [node.children[n].0], node.children[n].1;
      Stands(root, path) && At(root, path) == Some(child) && WellNamed(child) && FromTree(root, EntryOf(PathOf(path), child))
  {
    var path, child := dir + [node.children[n].0], node.children[n].1;
    AtChild(root, dir, n);
    assert PlainPart(node.children[n].0) && PlainParts(path);
    assert ComesFrom(root, path, EntryOf(PathOf(path), child));
  }

  lemma ChildStepStands(root: Node, dir: seq<string>, node: Node, n: nat, pending: Worklist, entries: map<string, Entry>, parts: seq<string>)
    requires PlainParts(dir) && node.Folder? && node.readable && At(root, dir) == Some(node) && WellNamed(node)
    requires n < |node.children| && Entering(root, dir, node.children, n, pending, entries) && Stands(root, parts)
    ensures var path, child := dir + [node.children[n].0], node.children[n].1;
      var e := EntryOf(PathOf(path), child);
      Entered(root, entries[e.path := e], parts) || WaitingAbove(Pushed(pending, path, child), parts) || LaterChild(dir, node.children, n + 1, parts)
  {
    var path, child := dir + [node.children[n].0], node.children[n].1;
    var e := EntryOf(PathOf(path), child);
    ChildEntry(root, dir, node, n);
    EnterKeeps(root, entries, e, e);
    EnterKeeps(root, entries, e, EntryOf(PathOf(parts), At(root, parts).value));
    LaterStep(dir, node.children, n, parts);
    WaitingLast(pending, path, child, parts);
    if path < parts && !(child.Folder? && child.readable) { NothingBelow(root, path, parts); }
    assert path <= parts && !(path < parts) ==> path == parts;
  }

  lemma ChildStepUnread(root: Node, dir: seq<string>, node: Node, n: nat, pending: Worklist, entries: map<string, Entry>, parts: seq<string>)
    requires PlainParts(dir) && node.Folder? && node.readable && At(root, dir) == Some(node) && WellNamed(node)
    requires n < |node.children| && Entering(root, dir, node.children, n, pending, entries) && Unread(root, parts)
    ensures var path, child := dir + [node.children[n].0], node.children[n].1;
      var e := EntryOf(PathOf(path), child);
      Mentioned(entries[e.path := e], parts) || Waiting(Pushed(pending, path, child), parts) || LaterChild(dir, node.children, n + 1, parts)
  {
    var path, child := dir + [node.children[n].0], node.children[n].1;
    var e := EntryOf(PathOf(path), child);
    ChildEntry(root, dir, node, n);
    EnterKeeps(root, entries, e, MarkerEntry(PathOf(parts)));
    LaterStep(dir, node.children, n, parts);
    WaitingLast(pending, path, child, parts);
    if path < parts && !(child.Folder? && child.readable) { NothingBelow(root, path, parts); }
    assert path <= parts && !(path < parts) ==> path == parts;
  }

  lemma PushedPending(root: Node, pending: Worklist, path: seq<string>, child: Node)
    requires Pending(root, pending) && PlainParts(path) && At(root, path) == Some(child) && WellNamed(child)
    ensures Pending(root, Pushed(pending, path, child))
  {
  }

  /** One child is entered, and put on the worklist when it is a directory. */
  lemma ChildStep(root: Node, dir: seq<string>, node: Node, n: nat, pending: Worklist, entries: map<string, Entry>, path: seq<string>, child: Node)
    requires node.Folder? && node.readable && At(root, dir) == Some(node) && WellNamed(node) && PlainParts(dir)
    requires n < |node.children| && Entering(root, dir, node.children, n, pending, entries)
    requires path == dir + [node.children[n].0] && child == node.children[n].1
    ensures Entering(root, dir, node.children, n + 1, Pushed(pending, path, child), entries[PathOf(path) := EntryOf(PathOf(path), child)])
  {
    var e := EntryOf(PathOf(path), child);
    ChildEntry(root, dir, node, n);
    EnterKeeps(root, entries, e, e);
    PushedPending(root, pending, path, child);
    forall parts | Stands(root, parts)
      ensures Entered(root, entries[e.path := e], parts) || WaitingAbove(Pushed(pending, path, child), parts) || LaterChild(dir, node.children, n + 1, parts)
    {
      ChildStepStands(root, dir, node, n, pending, entries, parts);
    }
    forall parts | Unread(root, parts)
      ensures Mentioned(entries[e.path := e], parts) || Waiting(Pushed(pending, path, child), parts) || LaterChild(dir, node.children, n + 1, parts)
    {
      ChildStepUnread(root, dir, node, n, pending, entries, parts);
    }
  }

  /** The inner loop: the children of one directory. */
  method EnterChildren(root: Node, dir: seq<string>, node: Node, waiting: Worklist, start: map<string, Entry>)
    returns (pending: Worklist, entries: map<string, Entry>)
    requires node.Folder? && node.readable && At(root, dir) == Some(node) && WellNamed(node) && PlainParts(dir)
    requires Entering(root, dir, node.children, 0, waiting, start)
    ensures Progress(root, pending, entries) && Work(pending) <= Work(waiting) + SizeAll(node.children)
    ensures "." in start ==> "." in entries
  {
    pending, entries := waiting, start;
    for n := 0 to |node.children|
      invariant Entering(root, dir, node.children, n, pending, entries) && ("." in start ==> "." in entries)
      invariant Work(pending) + SizeAll(node.children[n..]) <= Work(waiting) + SizeAll(node.children)
    {
      var (name, child) := node.children[n];
      var path := dir + [name];
      ChildStep(root, dir, node, n, pending, entries, path, child);
      entries := entries[PathOf(path) := EntryOf(PathOf(path), child)];
      assert (pending + [(path, child)])[..|pending|] == pending;
      if child.Folder? { pending := pending + [(path, child)]; }
    }
  }

  lemma LastTaken(root: Node, pending: Worklist, entries: map<string, Entry>)
    requires pending != [] && Progress(root, pending, entries)
    ensures var rest, last := pending[..|pending| - 1], pending[|pending| - 1];
      Progress(root, rest + [(last.0, last.1)], entries) && Work(pending) == Work(rest) + Size(last.1)
  {
    LastApart(pending);
  }

  lemma LastApart(pending: Worklist)
    requires pending != []
    ensures pending == pending[..|pending| - 1] + [(pending[|pending| - 1].0, pending[|pending| - 1].1)]
  {
  }

  /** One turn of the worklist loop: the directory that was taken from it is read. */
  method ReadDirectory(root: Node, pending: Worklist, dir: seq<string>, node: Node, entries: map<string, Entry>)
    returns (rest: Worklist, found: map<string, Entry>)
    requires Progress(root, pending + [(dir, node)], entries) && "." in entries
    ensures Progress(root, rest, found) && "." in found && Work(rest) < Work(pending) + Size(node)
  {
    PendingLast(root, pending, dir, node);
    if !node.readable {
      rest := pending;
      MarkStep(root, rest, dir, node, entries);
      found := entries[Marker(PathOf(dir)) := MarkerEntry(PathOf(dir))];
    } else {
      OpenStep(root, pending, dir, node, entries);
      rest, found := EnterChildren(root, dir, node, pending, entries);
    }
  }

  /** `_rag_tree_fingerprint`: it has the entry of everything in the tree, and nothing else. */
  method FingerprintTree(root: Node) returns (r: seq<Entry>, ghost entries: map<string, Entry>)
    requires WellNamed(root)
    ensures Snapshot(root, entries) && r == InOrder(entries) && r != [] && TreeReading(root, r)
  {
    var found := map["." := EntryOf(".", root)];
    StartOf(root);
    var pending := StartList(root);
    while pending != []
      invariant Progress(root, pending, found) && "." in found
      decreases Work(pending)
    {
      LastTaken(root, pending, found);
      var last := pending[|pending| - 1];
      pending, found := ReadDirectory(root, pending[..|pending| - 1], last.0, last.1, found);
    }
    Finished(root, found);
    InOrderNonempty(found);
    r, entries := InOrder(found), found;
  }

  function StartList(root: Node): Worklist { if root.Folder? then [([], root)] else [] }

  lemma StartOf(root: Node)
    requires WellNamed(root)
    ensures Progress(root, StartList(root), map["." := EntryOf(".", root)])
  {
    var entries, pending := map["." := EntryOf(".", root)], StartList(root);
    assert At(root, []) == Some(root) && ComesFrom(root, [], EntryOf(".", root));
    assert Stands(root, []) && Entered(root, entries, []);
    forall parts | Stands(root, parts) && parts != [] ensures root.Folder? && WaitingAbove(pending, parts) {
      assert [] < parts;
      if !(root.Folder? && root.readable) { NothingBelow(root, [], parts); }
      assert pending[0].0 < parts;
    }
    forall parts | Unread(root, parts) ensures Waiting(pending, parts) {
      if parts == [] {
        assert pending[0].0 <= parts;
      } else {
        assert Stands(root, parts) && WaitingAbove(pending, parts);
        var i :| 0 <= i < |pending| && pending[i].0 < parts;
        assert pending[i].0 <= parts;
      }
    }
  }

  lemma Finished(root: Node, entries: map<string, Entry>)
    requires Progress(root, [], entries)
    ensures Snapshot(root, entries)
  {
  }

  // ---------------------------------------------------------------- what an equal fingerprint means

  lemma NoErrorKind(path: string, node: Node)
    ensures EntryOf(path, node).kind != "error"
  {
    assert KindName(path, node)[0] != 'e';
  }

  /** What one of the trees has at a path, the other has as well. */
  lemma SameThing(a: Node, b: Node, entries: map<string, Entry>, parts: seq<string>)
    requires Snapshot(a, entries) && Snapshot(b, entries) && Stands(a, parts)
    ensures Stands(b, parts) && EntryOf(PathOf(parts), At(a, parts).value) == EntryOf(PathOf(parts), At(b, parts).value)
  {
    var e := EntryOf(PathOf(parts), At(a, parts).value);
    assert Entered(a, entries, parts) && FromTree(b, e);
    var q :| ComesFrom(b, q, e);
    NoErrorKind(PathOf(parts), At(a, parts).value);
    PathOfInjective(parts, q);
  }

  lemma SameMark(a: Node, b: Node, entries: map<string, Entry>, parts: seq<string>)
    requires Snapshot(a, entries) && Snapshot(b, entries) && Unread(a, parts)
    ensures Unread(b, parts)
  {
    var e := MarkerEntry(PathOf(parts));
    assert Mentioned(entries, parts) && FromTree(b, e);
    var q :| ComesFrom(b, q, e);
    if At(b, q).Some? { NoErrorKind(PathOf(q), At(b, q).value); }
    MarkerInjective(PathOf(parts), PathOf(q));
    PathOfInjective(parts, q);
  }

  /** The same kind of thing with the same numbers; a root that is no directory is a link or something else. */
  predicate SameNode(atRoot: bool, x: Node, y: Node) {
    match (x, y)
    case (Gone, Gone) => true
    case (Folder(m, _, _), Folder(n, _, _)) => m == n
    case (Leaf(k, m), Leaf(l, n)) =>
      && m == n && (k == Permissions.LinkNode <==> l == Permissions.LinkNode)
      && (!atRoot ==> (k == Permissions.RegularNode <==> l == Permissions.RegularNode))
    case _ => false
  }

  lemma SameEntry(path: string, x: Node, y: Node)
    requires EntryOf(path, x) == EntryOf(path, y)
    ensures SameNode(path == ".", x, y)
  {
    var k, l := KindName(path, x), KindName(path, y);
    assert k[0] == l[0];
  }

  lemma RootPath(parts: seq<string>)
    requires PlainParts(parts)
    ensures PathOf(parts) == "." <==> parts == []
  {
    PathOfInjective(parts, []);
  }

  /**
   Equal fingerprints mean equal trees: the same paths exist, with the same kinds and numbers, and the same
   directories cannot be read.
   */
  lemma TreeFingerprintDetermines(a: Node, b: Node, m: map<string, Entry>, n: map<string, Entry>, parts: seq<string>)
    requires WellNamed(a) && WellNamed(b) && Snapshot(a, m) && Snapshot(b, n) && InOrder(m) == InOrder(n) && PlainParts(parts)
    ensures At(a, parts).Some? <==> At(b, parts).Some?
    ensures At(a, parts).Some? ==> SameNode(parts == [], At(a, parts).value, At(b, parts).value)
    ensures Unreadable(a, parts) <==> Unreadable(b, parts)
  {
    InOrderInjective(m, n);
    RootPath(parts);
    if Stands(a, parts) {
      SameThing(a, b, m, parts);
      SameEntry(PathOf(parts), At(a, parts).value, At(b, parts).value);
    }
    if Stands(b, parts) { SameThing(b, a, m, parts); }
    if Unread(a, parts) { SameMark(a, b, m, parts); }
    if Unread(b, parts) { SameMark(b, a, m, parts); }
  }
}
