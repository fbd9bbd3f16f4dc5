/** The paths of the artifact closure (deploy/bin/prepare-rag-permissions.py). */
module PermissionPaths {
  import opened Results
  import opened Ordering
  import opened Texts

  datatype Kind = Directory | File

  datatype PathError = Noncanonical | Conflict

  // ---------------------------------------------------------------- canonical paths

  predicate PlainPart(part: string) { part != "" && part != "." && part != ".." && '/' !in part }

  predicate PlainParts(parts: seq<string>) { forall i | 0 <= i < |parts| :: PlainPart(parts[i]) }

  /** `_relative_parts`; the path "." is accepted and has no parts. */
  function RelativeParts(value: string): (r: Option<seq<string>>)
    ensures r.Some? ==> PlainParts(r.value) && PathOf(r.value) == value
  {
    if value == "" || '\\' in value || '\0' in value then None
    else if value == "." then Some([])
    else if PlainParts(Split(value, '/')) then
      JoinSplit(value, '/');
      Some(Split(value, '/'))
    else None
  }

  /** `PurePosixPath(*parts).as_posix()`. */
  function PathOf(parts: seq<string>): string { if parts == [] then "." else Join(parts, '/') }

  /** Paths and lists of plain parts correspond. */
  lemma PathOfInjective(a: seq<string>, b: seq<string>)
    requires PlainParts(a) && PlainParts(b)
    ensures PathOf(a) == PathOf(b) ==> a == b
  {
    if a != [] { SplitJoin(a, '/'); }
    if b != [] { SplitJoin(b, '/'); }
    SplitNothing(".", '/');
  }

  // ---------------------------------------------------------------- components

  /** The path of the first k parts. */
  function Prefix(parts: seq<string>, k: nat): string
    requires k <= |parts|
  {
    PathOf(parts[..k])
  }

  function KindAt(parts: seq<string>, k: nat): Kind { if k == |parts| then File else Directory }

  /** The components with the first n prefixes of a path added. */
  function Marked(components: map<string, Kind>, parts: seq<string>, n: nat): map<string, Kind>
    requires n <= |parts|
  {
    if n == 0 then components else Marked(components, parts, n - 1)[Prefix(parts, n) := KindAt(parts, n)]
  }

  function PartsOf(value: string): seq<string> {
    match RelativeParts(value) case Some(parts) => parts case None => []
  }

  function ComponentsOf(files: seq<string>): map<string, Kind> {
    if files == [] then map["." := Directory]
    else
      var last := PartsOf(files[|files| - 1]);
      Marked(ComponentsOf(files[..|files| - 1]), last, |last|)
  }

  predicate AllCanonical(files: seq<string>) { forall i | 0 <= i < |files| :: RelativeParts(files[i]).Some? }

  predicate ProperPrefix(a: seq<string>, b: seq<string>) { |a| < |b| && a == b[..|a|] }

  /** One listed file lies below another. */
  ghost predicate Conflicting(files: seq<string>) {
    exists i, j :: 0 <= i < |files| && 0 <= j < |files| && PartsOf(files[i]) != [] && ProperPrefix(PartsOf(files[i]), PartsOf(files[j]))
  }

  /** Every prefix of a listed file is a component of its kind. */
  ghost predicate CoversAll(files: seq<string>, components: map<string, Kind>) {
    && "." in components && components["."] == Directory
    && forall i :: 0 <= i < |files| ==> CoversFile(PartsOf(files[i]), components)
  }

  ghost predicate CoversFile(parts: seq<string>, components: map<string, Kind>) {
    forall k :: 1 <= k <= |parts| ==> Prefix(parts, k) in components && components[Prefix(parts, k)] == KindAt(parts, k)
  }

  ghost predicate IsPrefix(files: seq<string>, path: string) {
    exists i :: 0 <= i < |files| && IsPrefixOf(PartsOf(files[i]), path)
  }

  ghost predicate IsPrefixOf(parts: seq<string>, path: string) {
    exists k :: 1 <= k <= |parts| && path == Prefix(parts, k)
  }

  /** Every component is "." or a prefix of a listed file. */
  ghost predicate CoversOnly(files: seq<string>, components: map<string, Kind>) {
    forall path :: path in components ==> path == "." || IsPrefix(files, path)
  }

  predicate Agrees(components: map<string, Kind>, parts: seq<string>, k: nat)
    requires k <= |parts|
  {
    Prefix(parts, k) in components ==> components[Prefix(parts, k)] == KindAt(parts, k)
  }

  /** None of the first n prefixes of the path is a component of another kind. */
  ghost predicate AgreesUpTo(components: map<string, Kind>, parts: seq<string>, n: nat)
    requires n <= |parts|
  {
    forall k :: 1 <= k <= n ==> Agrees(components, parts, k)
  }

  ghost predicate AgreesAll(components: map<string, Kind>, parts: seq<string>) { AgreesUpTo(components, parts, |parts|) }

  lemma PrefixesDiffer(parts: seq<string>, j: nat, k: nat)
    requires PlainParts(parts) && j <= |parts| && k <= |parts|
    ensures j != k ==> Prefix(parts, j) != Prefix(parts, k)
  {
    PathOfInjective(parts[..j], parts[..k]);
    assert |parts[..j]| == j && |parts[..k]| == k;
  }

  lemma {:induction false} MarkedPrefix(components: map<string, Kind>, parts: seq<string>, n: nat, k: nat)
    requires PlainParts(parts) && 1 <= k <= n <= |parts|
    ensures Prefix(parts, k) in Marked(components, parts, n) && Marked(components, parts, n)[Prefix(parts, k)] == KindAt(parts, k)
  {
    if k < n {
      MarkedPrefix(components, parts, n - 1, k);
      PrefixesDiffer(parts, k, n);
    }
  }

  lemma {:induction false} MarkedElsewhere(components: map<string, Kind>, parts: seq<string>, n: nat, path: string)
    requires n <= |parts| && forall k :: 1 <= k <= n ==> path != Prefix(parts, k)
    ensures path in Marked(components, parts, n) <==> path in components
    ensures path in components ==> Marked(components, parts, n)[path] == components[path]
  {
    if n > 0 { MarkedElsewhere(components, parts, n - 1, path); }
  }

  /** The inner loop: the prefixes of one path, unless one is known with another kind. */
  method AddPath(components: map<string, Kind>, parts: seq<string>) returns (r: Option<map<string, Kind>>)
    requires PlainParts(parts)
    ensures r.Some? <==> AgreesAll(components, parts)
    ensures r.Some? ==> r.value == Marked(components, parts, |parts|)
  {
    var m := components;
    for index := 0 to |parts|
      invariant m == Marked(components, parts, index)
      invariant AgreesUpTo(components, parts, index)
    {
      var path := PathOf(parts[..index + 1]);
      assert path == Prefix(parts, index + 1);
      var kind := if index == |parts| - 1 then File else Directory;
      forall k | 1 <= k <= index ensures path != Prefix(parts, k) { PrefixesDiffer(parts, k, index + 1); }
      MarkedElsewhere(components, parts, index, path);
      if path in m && m[path] != kind {
        assert !Agrees(components, parts, index + 1);
        return None;
      }
      m := m[path := kind];
    }
    r := Some(m);
  }

  lemma CoversFileStep(parts: seq<string>, known: seq<string>, components: map<string, Kind>)
    requires PlainParts(parts) && CoversFile(known, components)
    requires AgreesAll(components, parts)
    ensures CoversFile(known, Marked(components, parts, |parts|))
  {
    var m := Marked(components, parts, |parts|);
    forall k | 1 <= k <= |known| ensures Prefix(known, k) in m && m[Prefix(known, k)] == KindAt(known, k) {
      if j :| 1 <= j <= |parts| && Prefix(parts, j) == Prefix(known, k) {
        MarkedPrefix(components, parts, |parts|, j);
        assert Agrees(components, parts, j);
      } else {
        MarkedElsewhere(components, parts, |parts|, Prefix(known, k));
      }
    }
  }

  lemma CoversOnlyStep(files: seq<string>, value: string, components: map<string, Kind>, path: string)
    requires CoversOnly(files, components) && path in Marked(components, PartsOf(value), |PartsOf(value)|)
    ensures path == "." || IsPrefix(files + [value], path)
  {
    var parts, more := PartsOf(value), files + [value];
    assert more[|files|] == value;
    if !IsPrefixOf(parts, path) {
      MarkedElsewhere(components, parts, |parts|, path);
      if path != "." {
        var i :| 0 <= i < |files| && IsPrefixOf(PartsOf(files[i]), path);
        assert more[i] == files[i];
      }
    }
  }

  lemma CoversStep(files: seq<string>, value: string, components: map<string, Kind>)
    requires RelativeParts(value).Some? && CoversAll(files, components) && CoversOnly(files, components)
    requires AgreesAll(components, PartsOf(value))
    ensures CoversAll(files + [value], Marked(components, PartsOf(value), |PartsOf(value)|))
    ensures CoversOnly(files + [value], Marked(components, PartsOf(value), |PartsOf(value)|))
  {
    var parts, more := PartsOf(value), files + [value];
    var m := Marked(components, parts, |parts|);
    forall k | 1 <= k <= |parts| ensures Prefix(parts, k) != "." { PrefixesDiffer(parts, k, 0); }
    MarkedElsewhere(components, parts, |parts|, ".");
    forall i | 0 <= i < |more| ensures CoversFile(PartsOf(more[i]), m) {
      if i < |files| {
        CoversFileStep(parts, PartsOf(files[i]), components);
      } else {
        forall k | 1 <= k <= |parts| ensures Prefix(parts, k) in m && m[Prefix(parts, k)] == KindAt(parts, k) {
          MarkedPrefix(components, parts, |parts|, k);
        }
      }
    }
    forall path | path in m ensures path == "." || IsPrefix(more, path) { CoversOnlyStep(files, value, components, path); }
  }

  lemma SamePathOtherKind(parts: seq<string>, k: nat, others: seq<string>, j: nat)
    requires PlainParts(parts) && PlainParts(others) && 1 <= k <= |parts| && 1 <= j <= |others|
    requires Prefix(parts, k) == Prefix(others, j) && KindAt(parts, k) != KindAt(others, j)
    ensures ProperPrefix(parts, others) || ProperPrefix(others, parts)
  {
    PathOfInjective(parts[..k], others[..j]);
    assert |parts[..k]| == k && |others[..j]| == j;
    assert k == |parts| ==> parts[..k] == parts;
    assert j == |others| ==> others[..j] == others;
  }

  lemma BelowConflicts(files: seq<string>, i: nat, j: nat)
    requires i < |files| && j < |files| && PartsOf(files[i]) != [] && ProperPrefix(PartsOf(files[i]), PartsOf(files[j]))
    ensures Conflicting(files)
  {
  }

  /** A disagreement about a component means that one file lies below another. */
  lemma DisagreementConflicts(files: seq<string>, value: string, components: map<string, Kind>, k: nat)
    requires AllCanonical(files) && RelativeParts(value).Some? && CoversAll(files, components) && CoversOnly(files, components)
    requires 1 <= k <= |PartsOf(value)| && !Agrees(components, PartsOf(value), k)
    ensures Conflicting(files + [value])
  {
    var parts, more := PartsOf(value), files + [value];
    PrefixesDiffer(parts, k, 0);
    var i :| 0 <= i < |files| && IsPrefixOf(PartsOf(files[i]), Prefix(parts, k));
    var others := PartsOf(files[i]);
    var j :| 1 <= j <= |others| && Prefix(parts, k) == Prefix(others, j);
    assert CoversFile(others, components);
    SamePathOtherKind(parts, k, others, j);
    assert more[i] == files[i] && more[|files|] == value;
    if ProperPrefix(parts, others) { BelowConflicts(more, |files|, i); } else { BelowConflicts(more, i, |files|); }
  }

  /** Complete components leave no file below another. */
  lemma CoveredIsFree(files: seq<string>, components: map<string, Kind>)
    requires AllCanonical(files) && CoversAll(files, components)
    ensures !Conflicting(files)
  {
    forall i, j | 0 <= i < |files| && 0 <= j < |files| && PartsOf(files[i]) != []
      ensures !ProperPrefix(PartsOf(files[i]), PartsOf(files[j]))
    {
      var a, b := PartsOf(files[i]), PartsOf(files[j]);
      assert a[..|a|] == a;
      assert CoversFile(a, components) && CoversFile(b, components);
      assert components[Prefix(a, |a|)] == File;
      assert |a| < |b| ==> components[Prefix(b, |a|)] == Directory;
    }
  }

  /** The files are canonical, and their components are complete. */
  ghost predicate Consistent(files: seq<string>) {
    AllCanonical(files) && CoversAll(files, ComponentsOf(files)) && CoversOnly(files, ComponentsOf(files))
  }

  lemma ConsistentStep(files: seq<string>, value: string)
    requires Consistent(files) && RelativeParts(value).Some?
    ensures AgreesAll(ComponentsOf(files), PartsOf(value)) ==> Consistent(files + [value])
    ensures !AgreesAll(ComponentsOf(files), PartsOf(value)) ==> Conflicting(files + [value])
  {
    if AgreesAll(ComponentsOf(files), PartsOf(value)) {
      CoversStep(files, value, ComponentsOf(files));
      assert (files + [value])[..|files|] == files;
    } else {
      var k :| 1 <= k <= |PartsOf(value)| && !Agrees(ComponentsOf(files), PartsOf(value), k);
      DisagreementConflicts(files, value, ComponentsOf(files), k);
    }
  }

  lemma OneMoreFile(files: seq<string>, i: nat)
    requires i < |files|
    ensures files[..i + 1] == files[..i] + [files[i]] && ComponentsOf(files[..i + 1]) == Marked(ComponentsOf(files[..i]), PartsOf(files[i]), |PartsOf(files[i])|)
  {
    assert files[..i + 1] == files[..i] + [files[i]];
    assert files[..i + 1][..i] == files[..i];
  }

  /** `_expected_components`: "." and every prefix; it fails exactly when a path is not canonical or one file lies below another. */
  method ExpectedComponents(files: seq<string>) returns (r: Result<map<string, Kind>, PathError>)
    ensures r.Ok? <==> AllCanonical(files) && !Conflicting(files)
    ensures r.Ok? ==> r.value == ComponentsOf(files) && CoversAll(files, r.value) && CoversOnly(files, r.value)
    ensures r == Err(Noncanonical) ==> !AllCanonical(files)
    ensures r == Err(Conflict) ==> Conflicting(files)
  {
    var components := map["." := Directory];
    assert CoversOnly(files[..0], components);
    for i := 0 to |files|
      invariant components == ComponentsOf(files[..i]) && Consistent(files[..i])
    {
      var parts := RelativeParts(files[i]);
      if parts == None { return Err(Noncanonical); }
      OneMoreFile(files, i);
      ConsistentStep(files[..i], files[i]);
      StillConflicting(files, i + 1);
      var added := AddPath(components, parts.value);
      if added == None { return Err(Conflict); }
      components := added.value;
    }
    assert files[..|files|] == files;
    CoveredIsFree(files, components);
    r := Ok(components);
  }

  lemma StillConflicting(files: seq<string>, n: nat)
    requires n <= |files|
    ensures Conflicting(files[..n]) ==> Conflicting(files)
  {
    assert forall i :: 0 <= i < n ==> files[..n][i] == files[i];
    forall i, j | 0 <= i < n && 0 <= j < n && PartsOf(files[..n][i]) != [] && ProperPrefix(PartsOf(files[..n][i]), PartsOf(files[..n][j]))
      ensures Conflicting(files)
    {
      assert files[..n][i] == files[i] && files[..n][j] == files[j];
    }
  }

  /** Without a file below another, the components are exactly "." and the prefixes. */
  lemma {:induction false} ComponentsCover(files: seq<string>)
    requires AllCanonical(files) && !Conflicting(files)
    ensures Consistent(files)
  {
    if files != [] {
      var rest, last := files[..|files| - 1], files[|files| - 1];
      StillConflicting(files, |rest|);
      ComponentsCover(rest);
      assert files == rest + [last];
      ConsistentStep(rest, last);
    }
  }

  // ---------------------------------------------------------------- opening parents first

  function Depth(path: string): nat { |Split(path, '/')| }

  function ParentOf(path: string): string {
    var parts := Split(path, '/');
    if |parts| == 1 then "." else Join(parts[..|parts| - 1], '/')
  }

  function NameOf(path: string): string {
    var parts := Split(path, '/');
    parts[|parts| - 1]
  }

  /** Every component but "." lies directly in another one. */
  ghost predicate ParentClosed(paths: set<string>) {
    "." in paths && forall path {:trigger HasParent(paths, path)} :: path in paths && path != "." ==> HasParent(paths, path)
  }

  predicate HasParent(paths: set<string>, path: string) {
    ParentOf(path) in paths && (ParentOf(path) == "." || Depth(ParentOf(path)) < Depth(path))
  }

  lemma ParentOfPrefix(parts: seq<string>, k: nat)
    requires PlainParts(parts) && 1 <= k <= |parts|
    ensures ParentOf(Prefix(parts, k)) == Prefix(parts, k - 1)
    ensures k > 1 ==> Depth(Prefix(parts, k - 1)) < Depth(Prefix(parts, k))
  {
    SplitJoin(parts[..k], '/');
    assert parts[..k][..k - 1] == parts[..k - 1];
    if k > 1 { SplitJoin(parts[..k - 1], '/'); }
  }

  lemma ComponentsParentClosed(files: seq<string>)
    requires AllCanonical(files) && !Conflicting(files)
    ensures ParentClosed(ComponentsOf(files).Keys)
  {
    var components := ComponentsOf(files);
    ComponentsCover(files);
    forall path | path in components && path != "." ensures HasParent(components.Keys, path)
    {
      var i :| 0 <= i < |files| && IsPrefixOf(PartsOf(files[i]), path);
      var parts := PartsOf(files[i]);
      var k :| 1 <= k <= |parts| && path == Prefix(parts, k);
      ParentOfPrefix(parts, k);
      assert CoversFile(parts, components);
    }
  }

  /** `sorted(paths, key=depth)`, which is stable. */
  function SortByDepth(paths: seq<string>): seq<string> {
    if paths == [] then [] else InsertByDepth(paths[0], SortByDepth(paths[1..]))
  }

  function InsertByDepth(path: string, sorted: seq<string>): seq<string> {
    if sorted == [] || Depth(path) <= Depth(sorted[0]) then [path] + sorted else [sorted[0]] + InsertByDepth(path, sorted[1..])
  }

  ghost predicate Deepening(paths: seq<string>) {
    forall i, j :: 0 <= i < j < |paths| ==> Depth(paths[i]) <= Depth(paths[j])
  }

  lemma {:induction false} InsertedByDepth(path: string, sorted: seq<string>)
    requires Deepening(sorted)
    ensures Deepening(InsertByDepth(path, sorted))
    ensures forall x :: x in InsertByDepth(path, sorted) <==> x == path || x in sorted
  {
    if sorted != [] && Depth(path) > Depth(sorted[0]) {
      var rest, r := sorted[1..], InsertByDepth(path, sorted[1..]);
      assert sorted == [sorted[0]] + rest;
      InsertedByDepth(path, rest);
      forall i | 0 <= i < |r| ensures Depth(sorted[0]) <= Depth(r[i]) {
        assert r[i] in r;
        if r[i] in rest {
          var j :| 0 <= j < |rest| && rest[j] == r[i];
          assert rest[j] == sorted[j + 1];
        }
      }
    }
  }

  lemma {:induction false} SortedByDepth(paths: seq<string>)
    ensures Deepening(SortByDepth(paths))
    ensures forall x :: x in SortByDepth(paths) <==> x in paths
  {
    if paths != [] {
      SortedByDepth(paths[1..]);
      InsertedByDepth(paths[0], SortByDepth(paths[1..]));
      assert paths == [paths[0]] + paths[1..];
    }
  }

  /** The order of opening: by depth and then by path. */
  function OpeningOrder(paths: set<string>): seq<string> { SortByDepth(Sorted(paths - {"."})) }

  lemma OrderCovers(paths: set<string>)
    ensures Deepening(OpeningOrder(paths)) && Elements(OpeningOrder(paths)) == paths - {"."}
  {
    SortedByDepth(Sorted(paths - {"."}));
    assert forall x :: x in Sorted(paths - {"."}) <==> x in Elements(Sorted(paths - {"."}));
  }

  lemma DeeperIsLater(paths: seq<string>, i: nat, j: nat)
    requires Deepening(paths) && i < |paths| && j < |paths|
    ensures Depth(paths[i]) < Depth(paths[j]) ==> i < j
  {
    if j < i { assert Depth(paths[j]) <= Depth(paths[i]); }
  }

  /** The component at a place of the order lies in "." or in one that comes before it. */
  predicate ReadyAt(paths: set<string>, order: seq<string>, i: nat)
    requires i < |order|
  {
    && order[i] in paths && order[i] != "." && ParentOf(order[i]) in paths
    && (ParentOf(order[i]) == "." || ParentOf(order[i]) in order[..i])
  }

  ghost predicate ParentsBefore(paths: set<string>, order: seq<string>) {
    forall i {:trigger ReadyAt(paths, order, i)} :: 0 <= i < |order| ==> ReadyAt(paths, order, i)
  }

  /** In the order of opening, parents come first. */
  lemma ParentFirst(paths: set<string>)
    requires ParentClosed(paths)
    ensures ParentsBefore(paths, OpeningOrder(paths)) && Elements(OpeningOrder(paths)) == paths - {"."}
  {
    var order := OpeningOrder(paths);
    OrderCovers(paths);
    forall i | 0 <= i < |order| ensures ReadyAt(paths, order, i) { ReadyInOrder(paths, order, i); }
  }

  lemma ReadyInOrder(paths: set<string>, order: seq<string>, i: nat)
    requires ParentClosed(paths) && Deepening(order) && Elements(order) == paths - {"."} && i < |order|
    ensures ReadyAt(paths, order, i)
  {
    assert order[i] in Elements(order) && HasParent(paths, order[i]);
    var parent := ParentOf(order[i]);
    if parent != "." {
      assert parent in Elements(order);
      var j :| 0 <= j < |order| && order[j] == parent;
      DeeperIsLater(order, j, i);
      assert order[..i][j] == parent;
    }
  }
}
