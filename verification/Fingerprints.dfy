/** The two fingerprints that key the readiness cache (backend/main.py). */
module Fingerprints {
  import opened Results
  import opened Ordering
  import opened Texts
  import opened PermissionPaths
  import Permissions
  import Readiness

  type Entry = Readiness.Entry
  type NodeKind = Permissions.NodeKind

  /** `tuple(entries[key] for key in sorted(entries))`. */
  function InOrder(entries: map<string, Entry>): (r: seq<Entry>)
    ensures |r| == |Sorted(entries.Keys)| && forall i :: 0 <= i < |r| ==> Sorted(entries.Keys)[i] in entries && r[i] == entries[Sorted(entries.Keys)[i]]
  {
    var keys := Sorted(entries.Keys);
    assert forall i :: 0 <= i < |keys| ==> keys[i] in Elements(keys);
    seq(|keys|, i requires 0 <= i < |keys| => entries[keys[i]])
  }

  /** Each entry carries its own key. */
  ghost predicate Keyed(entries: map<string, Entry>) { forall key :: key in entries ==> entries[key].path == key }

  lemma InOrderHas(entries: map<string, Entry>, e: Entry)
    requires Keyed(entries)
    ensures e in InOrder(entries) <==> e.path in entries && entries[e.path] == e
  {
    var keys := Sorted(entries.Keys);
    if e.path in entries && entries[e.path] == e {
      assert e.path in Elements(keys);
      var i :| 0 <= i < |keys| && keys[i] == e.path;
      assert InOrder(entries)[i] == e;
    }
  }

  /** A fingerprint determines its entries. */
  lemma InOrderInjective(a: map<string, Entry>, b: map<string, Entry>)
    requires Keyed(a) && Keyed(b) && InOrder(a) == InOrder(b)
    ensures a == b
  {
    forall key ensures key in a ==> key in b && b[key] == a[key] {
      if key in a { InOrderHas(a, a[key]); InOrderHas(b, a[key]); }
    }
    forall key ensures key in b ==> key in a {
      if key in b { InOrderHas(a, b[key]); InOrderHas(b, b[key]); }
    }
  }

  lemma InOrderNonempty(entries: map<string, Entry>)
    requires "." in entries
    ensures InOrder(entries) != []
  {
    assert "." in Elements(Sorted(entries.Keys));
  }

  // ---------------------------------------------------------------- the closure

  datatype Info = Info(kind: NodeKind, numbers: seq<int>)

  function KindText(kind: Kind): string { if kind == Directory then "directory" else "file" }

  function EntryFor(path: string, kind: Kind, info: Info): Entry { Readiness.Entry(path, KindText(kind), info.numbers) }

  predicate Fits(kind: Kind, info: Info) { Permissions.Typed(kind, info.kind) }

  /** The kinds of the entries. */
  ghost predicate HasKinds(entries: map<string, Entry>, components: map<string, Kind>) {
    entries.Keys == components.Keys && forall path :: path in entries ==> entries[path].path == path && entries[path].kind == KindText(components[path])
  }

  /** Every `lstat` of a path gives the same: nobody changes the tree. */
  ghost predicate Still(look: (nat, string) -> Option<Info>) { forall n, m, path :: look(n, path) == look(m, path) }

  /** Each entry is one that a look at its path gave. */
  ghost predicate Seen(look: (nat, string) -> Option<Info>, entries: map<string, Entry>, components: map<string, Kind>) {
    && HasKinds(entries, components)
    && forall path :: path in entries ==> SeenAt(look, path, components[path], entries[path])
  }

  ghost predicate SeenAt(look: (nat, string) -> Option<Info>, path: string, kind: Kind, e: Entry) {
    exists n :: LooksLike(look(n, path), path, kind, e)
  }

  predicate LooksLike(info: Option<Info>, path: string, kind: Kind, e: Entry) {
    info.Some? && Fits(kind, info.value) && e == EntryFor(path, kind, info.value)
  }

  /** In a still tree: every component is there with its kind. */
  ghost predicate Sound(look: (nat, string) -> Option<Info>, components: map<string, Kind>) {
    forall path :: path in components ==> look(0, path).Some? && Fits(components[path], look(0, path).value)
  }

  /** The lists of files that `_verified_metadata` lets through; NUL characters are not looked for. */
  predicate Listed(files: seq<string>) {
    forall i | 0 <= i < |files| :: '\\' !in files[i] && PlainParts(Split(files[i], '/'))
  }

  /** Listed, and without the NUL characters that `lstat` refuses. */
  predicate Readable(files: seq<string>) { AllCanonical(files) && "." !in files }

  /** What `_rag_closure_fingerprint` may return for the looks it takes; None stands for an exception. */
  ghost predicate ClosureReading(look: (nat, string) -> Option<Info>, files: seq<string>, r: Option<seq<Entry>>) {
    && (r.Some? ==> exists entries :: ReadAs(look, files, entries, r.value))
    && (Still(look) && Listed(files) ==> (r.Some? <==> Readable(files) && !Conflicting(files) && Sound(look, ComponentsOf(files))))
  }

  ghost predicate ReadAs(look: (nat, string) -> Option<Info>, files: seq<string>, entries: map<string, Entry>, r: seq<Entry>) {
    && "." in entries && r == InOrder(entries)
    && (Listed(files) ==> Readable(files) && Seen(look, entries, ComponentsOf(files)))
  }

  lemma SeenStep(look: (nat, string) -> Option<Info>, entries: map<string, Entry>, components: map<string, Kind>, n: nat, path: string, kind: Kind, e: Entry)
    requires Seen(look, entries, components) && LooksLike(look(n, path), path, kind, e)
    ensures Seen(look, entries[path := e], components[path := kind])
  {
  }

  /** One look at a component: it must be there with its kind, and as it was when it was seen before. */
  method LookOnce(look: (nat, string) -> Option<Info>, n: nat, path: string, kind: Kind, entries: map<string, Entry>, ghost components: map<string, Kind>)
    returns (r: Option<map<string, Entry>>)
    requires Seen(look, entries, components)
    ensures r.Some? ==> Seen(look, r.value, components[path := kind]) && (path in components ==> components[path] == kind)
    ensures r == None && Still(look) ==>
      look(0, path) == None || !Fits(kind, look(0, path).value) || (path in components && components[path] != kind)
  {
    var info := look(n, path);
    assert Still(look) ==> look(0, path) == info;
    if info == None || !Fits(kind, info.value) { return None; }
    var entry := EntryFor(path, kind, info.value);
    if path in entries && entries[path] != entry {
      StillAgrees(look, path, kind, entries, components, entry, n);
      return None;
    }
    SeenStep(look, entries, components, n, path, kind, entry);
    SameKind(entries, components, path, kind, entry);
    r := Some(entries[path := entry]);
  }

  lemma SameKind(entries: map<string, Entry>, components: map<string, Kind>, path: string, kind: Kind, e: Entry)
    requires HasKinds(entries, components) && e.kind == KindText(kind) && (path in entries ==> entries[path] == e)
    ensures path in components ==> components[path] == kind
  {
    assert KindText(Directory)[0] == 'd' && KindText(File)[0] == 'f';
  }

  /** What is known about the next prefix of a path. */
  lemma NextPrefix(components: map<string, Kind>, parts: seq<string>, index: nat)
    requires PlainParts(parts) && index < |parts|
    ensures var key, marked := Prefix(parts, index + 1), Marked(components, parts, index);
      && PathOf(parts[..index + 1]) == key
      && (key in marked <==> key in components) && (key in components ==> marked[key] == components[key])
      && key in Marked(components, parts, |parts|) && Marked(components, parts, |parts|)[key] == KindAt(parts, index + 1)
      && (AgreesAll(components, parts) ==> Agrees(components, parts, index + 1))
  {
    var key := Prefix(parts, index + 1);
    forall k | 1 <= k <= index ensures key != Prefix(parts, k) { PrefixesDiffer(parts, k, index + 1); }
    MarkedElsewhere(components, parts, index, key);
    MarkedPrefix(components, parts, |parts|, index + 1);
  }

  /** The inner loop of `_rag_closure_fingerprint`; `n` counts the looks. */
  method LookAlong(look: (nat, string) -> Option<Info>, parts: seq<string>, start: map<string, Entry>, ghost components: map<string, Kind>, n0: nat)
    returns (r: Option<map<string, Entry>>, n: nat)
    requires PlainParts(parts) && Seen(look, start, components)
    ensures r.Some? ==> Seen(look, r.value, Marked(components, parts, |parts|)) && AgreesAll(components, parts)
    ensures Still(look) && Sound(look, Marked(components, parts, |parts|)) && AgreesAll(components, parts) ==> r.Some?
  {
    var entries := start;
    n := n0;
    for index := 0 to |parts|
      invariant Seen(look, entries, Marked(components, parts, index))
      invariant AgreesUpTo(components, parts, index)
    {
      var key := PathOf(parts[..index + 1]);
      var kind := if index == |parts| - 1 then File else Directory;
      NextPrefix(components, parts, index);
      var more := LookOnce(look, n, key, kind, entries, Marked(components, parts, index));
      n := n + 1;
      if more == None { return None, n; }
      entries := more.value;
    }
    r := Some(entries);
  }

  /** A different entry for a known path: the tree changed, or the path is listed with two kinds. */
  lemma StillAgrees(look: (nat, string) -> Option<Info>, path: string, kind: Kind, entries: map<string, Entry>, components: map<string, Kind>, e: Entry, n: nat)
    requires Seen(look, entries, components) && path in entries && LooksLike(look(n, path), path, kind, e) && entries[path] != e
    ensures Still(look) ==> components[path] != kind
  {
    assert SeenAt(look, path, components[path], entries[path]);
    if Still(look) {
      var m :| LooksLike(look(m, path), path, components[path], entries[path]);
      assert look(m, path) == look(n, path);
    }
  }

  /**
   `_rag_closure_fingerprint`: a successful one has an entry for "." and every prefix of the files, each as some
   look at its path gave it; in a still tree it succeeds exactly when each component is there with its kind.
   */
  method ClosureFingerprint(look: (nat, string) -> Option<Info>, files: seq<string>) returns (r: Option<seq<Entry>>, ghost entries: map<string, Entry>)
    requires Readable(files)
    ensures ClosureReading(look, files, r)
    ensures r.Some? ==> !Conflicting(files) && Seen(look, entries, ComponentsOf(files)) && r.value == InOrder(entries) && r.value != []
    ensures Still(look) ==> (r.Some? <==> !Conflicting(files) && Sound(look, ComponentsOf(files)))
  {
    entries := map[];
    var root := look(0, ".");
    var n := 1;
    ComponentsHaveRoot(files);
    if root == None || !Fits(Directory, root.value) { return None, entries; }
    var found := map["." := EntryFor(".", Directory, root.value)];
    assert LooksLike(look(0, "."), ".", Directory, found["."]);
    for i := 0 to |files|
      invariant Seen(look, found, ComponentsOf(files[..i])) && Consistent(files[..i])
    {
      var parts := Split(files[i], '/');
      FileStep(look, files, i);
      var more, m := LookAlong(look, parts, found, ComponentsOf(files[..i]), n);
      if more == None { return None, entries; }
      found, n := more.value, m;
    }
    assert files[..|files|] == files;
    CoveredIsFree(files, ComponentsOf(files));
    entries := found;
    InOrderNonempty(found);
    r := Some(InOrder(found));
    assert ReadAs(look, files, entries, r.value);
    if Still(look) { SeenIsSound(look, found, ComponentsOf(files)); }
  }

  lemma PlainSplit(value: string)
    requires RelativeParts(value).Some? && value != "."
    ensures Split(value, '/') == PartsOf(value) && PlainParts(PartsOf(value))
  {
  }

  /** How one more file changes what is expected. */
  lemma FileStep(look: (nat, string) -> Option<Info>, files: seq<string>, i: nat)
    requires AllCanonical(files) && i < |files| && files[i] != "." && Consistent(files[..i])
    ensures Split(files[i], '/') == PartsOf(files[i]) && PlainParts(PartsOf(files[i]))
    ensures ComponentsOf(files[..i + 1]) == Marked(ComponentsOf(files[..i]), PartsOf(files[i]), |PartsOf(files[i])|)
    ensures AgreesAll(ComponentsOf(files[..i]), PartsOf(files[i])) ==> Consistent(files[..i + 1])
    ensures !AgreesAll(ComponentsOf(files[..i]), PartsOf(files[i])) ==> Conflicting(files)
    ensures !Conflicting(files) && Sound(look, ComponentsOf(files)) ==> Sound(look, ComponentsOf(files[..i + 1]))
  {
    PlainSplit(files[i]);
    OneMoreFile(files, i);
    ConsistentStep(files[..i], files[i]);
    StillConflicting(files, i + 1);
    SoundPart(look, files, i);
  }

  lemma SeenIsSound(look: (nat, string) -> Option<Info>, entries: map<string, Entry>, components: map<string, Kind>)
    requires Still(look) && Seen(look, entries, components)
    ensures Sound(look, components)
  {
    forall path | path in components ensures look(0, path).Some? && Fits(components[path], look(0, path).value) {
      assert SeenAt(look, path, components[path], entries[path]);
      var n :| LooksLike(look(n, path), path, components[path], entries[path]);
      assert look(n, path) == look(0, path);
    }
  }

  lemma {:induction false} ComponentsHaveRoot(files: seq<string>)
    requires AllCanonical(files)
    ensures "." in ComponentsOf(files) && ComponentsOf(files)["."] == Directory
  {
    if files != [] {
      var rest, parts := files[..|files| - 1], PartsOf(files[|files| - 1]);
      ComponentsHaveRoot(rest);
      forall k | 1 <= k <= |parts| ensures Prefix(parts, k) != "." { PrefixesDiffer(parts, k, 0); }
      MarkedElsewhere(ComponentsOf(rest), parts, |parts|, ".");
    }
  }

  /** Without conflicts, the components of the first files are components of all. */
  lemma SoundPart(look: (nat, string) -> Option<Info>, files: seq<string>, i: nat)
    requires AllCanonical(files) && i < |files|
    ensures !Conflicting(files) && Sound(look, ComponentsOf(files)) ==> Sound(look, ComponentsOf(files[..i + 1]))
  {
    StillConflicting(files, i + 1);
    if !Conflicting(files) && Sound(look, ComponentsOf(files)) {
      ComponentsCover(files);
      ComponentsCover(files[..i + 1]);
      forall path | path in ComponentsOf(files[..i + 1]) ensures path in ComponentsOf(files) && ComponentsOf(files)[path] == ComponentsOf(files[..i + 1])[path] {
        if path != "." {
          var j :| 0 <= j < i + 1 && IsPrefixOf(PartsOf(files[..i + 1][j]), path);
          assert files[..i + 1][j] == files[j];
          assert CoversFile(PartsOf(files[j]), ComponentsOf(files)) && CoversFile(PartsOf(files[..i + 1][j]), ComponentsOf(files[..i + 1]));
        }
      }
    }
  }

  /** Equal closure fingerprints of two still trees: every component shows the same numbers in both. */
  lemma ClosureFingerprintDetermines(before: (nat, string) -> Option<Info>, after: (nat, string) -> Option<Info>, files: seq<string>,
                                     a: map<string, Entry>, b: map<string, Entry>, path: string)
    requires AllCanonical(files) && Still(before) && Still(after)
    requires Seen(before, a, ComponentsOf(files)) && Seen(after, b, ComponentsOf(files)) && InOrder(a) == InOrder(b)
    requires path in ComponentsOf(files)
    ensures before(0, path).Some? && after(0, path).Some? && before(0, path).value.numbers == after(0, path).value.numbers
  {
    InOrderInjective(a, b);
    assert SeenAt(before, path, ComponentsOf(files)[path], a[path]) && SeenAt(after, path, ComponentsOf(files)[path], b[path]);
    var n :| LooksLike(before(n, path), path, ComponentsOf(files)[path], a[path]);
    var m :| LooksLike(after(m, path), path, ComponentsOf(files)[path], b[path]);
    assert before(n, path) == before(0, path) && after(m, path) == after(0, path);
  }
}
