/** Enforcing the modes of the artifact closure while others may change the tree (deploy/bin/prepare-rag-permissions.py). */
module PermissionRun {
  import opened Results
  import opened Ordering
  import opened PermissionPaths
  import opened Permissions

  // ---------------------------------------------------------------- what a run without interference does

  predicate Matches(t: Tree, ino: nat, e: Entry) {
    Stat(t, ino) == Some(e.signature) && Typed(e.kind, e.signature.kind)
  }

  function OpenEach(t: Tree, fp: map<string, Entry>, paths: seq<string>, descriptors: map<string, nat>): Option<map<string, nat>>
    decreases |paths|
  {
    if paths == [] then Some(descriptors)
    else
      var path := paths[0];
      if path !in fp || ParentOf(path) !in descriptors then None
      else
        var ino := OpenIn(t, descriptors[ParentOf(path)], NameOf(path), fp[path].kind);
        if ino == None || !Matches(t, ino.value, fp[path]) then None
        else OpenEach(t, fp, paths[1..], descriptors[path := ino.value])
  }

  function OpenAll(t: Tree, fp: map<string, Entry>): Option<map<string, nat>> {
    if "." !in fp || OpenRoot(t) == None || !Matches(t, OpenRoot(t).value, fp["."]) then None
    else OpenEach(t, fp, OpeningOrder(fp.Keys), map["." := OpenRoot(t).value])
  }

  ghost predicate ModesRight(fp: map<string, Entry>) {
    forall path :: path in fp ==> fp[path].signature.perm == ExpectedMode(fp[path].kind)
  }

  /** What `--check` accepts in a tree that nobody changes. */
  ghost predicate CheckPasses(verifier: Tree -> Option<Metadata>, t: Tree) {
    Valid(verifier(t)) && OpenAll(t, ByPath(verifier(t).value.fingerprint)).Some? && ModesRight(ByPath(verifier(t).value.fingerprint))
  }

  /** Each descriptor refers to what the fingerprint describes. */
  ghost predicate AllMatch(t: Tree, descriptors: map<string, nat>, fp: map<string, Entry>) {
    descriptors.Keys == fp.Keys && forall path :: path in fp ==> Matches(t, descriptors[path], fp[path])
  }

  lemma {:induction false} OpenEachFacts(t: Tree, fp: map<string, Entry>, paths: seq<string>, descriptors: map<string, nat>)
    requires OpenEach(t, fp, paths, descriptors).Some?
    requires forall path :: path in descriptors ==> path in fp && Matches(t, descriptors[path], fp[path])
    ensures var r := OpenEach(t, fp, paths, descriptors).value;
      && r.Keys == descriptors.Keys + Elements(paths)
      && forall path :: path in r ==> path in fp && Matches(t, r[path], fp[path])
    decreases |paths|
  {
    if paths != [] {
      var ino := OpenIn(t, descriptors[ParentOf(paths[0])], NameOf(paths[0]), fp[paths[0]].kind).value;
      OpenEachFacts(t, fp, paths[1..], descriptors[paths[0] := ino]);
      assert paths == [paths[0]] + paths[1..];
    }
  }

  lemma OpenAllFacts(t: Tree, fp: map<string, Entry>)
    requires OpenAll(t, fp).Some?
    ensures AllMatch(t, OpenAll(t, fp).value, fp)
  {
    OrderCovers(fp.Keys);
    OpenEachFacts(t, fp, OpeningOrder(fp.Keys), map["." := OpenRoot(t).value]);
  }

  lemma {:induction false} OpenEachKeeps(t: Tree, fp: map<string, Entry>, paths: seq<string>, descriptors: map<string, nat>, path: string)
    requires OpenEach(t, fp, paths, descriptors).Some? && path in descriptors && path !in paths
    ensures path in OpenEach(t, fp, paths, descriptors).value && OpenEach(t, fp, paths, descriptors).value[path] == descriptors[path]
    decreases |paths|
  {
    if paths != [] {
      var ino := OpenIn(t, descriptors[ParentOf(paths[0])], NameOf(paths[0]), fp[paths[0]].kind).value;
      OpenEachKeeps(t, fp, paths[1..], descriptors[paths[0] := ino], path);
    }
  }

  lemma SameOpen(t: Tree, u: Tree, inos: set<nat>, dir: nat, name: string, kind: Kind, other: Kind)
    requires OnlyModes(t, u, inos) && OpenIn(t, dir, name, kind).Some?
    requires other == Directory ==> u.inodes[OpenIn(t, dir, name, kind).value].kind == DirNode
    ensures OpenIn(u, dir, name, other) == OpenIn(t, dir, name, kind)
  {
  }

  lemma OrderDistinct(paths: set<string>)
    ensures forall i, j :: 0 <= i < j < |OpeningOrder(paths)| ==> OpeningOrder(paths)[i] != OpeningOrder(paths)[j]
  {
    SortKeepsDistinct(Sorted(paths - {"."}));
  }

  lemma {:induction false} InsertKeepsDistinct(path: string, sorted: seq<string>)
    requires Deepening(sorted) && NoRepeats(sorted) && path !in sorted
    ensures NoRepeats(InsertByDepth(path, sorted))
  {
    if sorted != [] && Depth(path) > Depth(sorted[0]) {
      assert sorted == [sorted[0]] + sorted[1..];
      InsertKeepsDistinct(path, sorted[1..]);
      InsertedByDepth(path, sorted[1..]);
      var r := InsertByDepth(path, sorted[1..]);
      forall i | 0 <= i < |r| ensures r[i] != sorted[0] {
        assert r[i] in r;
        assert forall j :: 0 <= j < |sorted[1..]| ==> sorted[1..][j] == sorted[j + 1];
      }
    }
  }

  lemma {:induction false} SortKeepsDistinct(paths: seq<string>)
    requires Increasing(paths) || NoRepeats(paths)
    ensures NoRepeats(SortByDepth(paths))
  {
    assert Increasing(paths) ==> NoRepeats(paths) by {
      if Increasing(paths) { forall i, j | 0 <= i < j < |paths| ensures paths[i] != paths[j] { assert Lt(paths[i], paths[j]); } }
    }
    if paths != [] {
      assert forall j :: 0 <= j < |paths[1..]| ==> paths[1..][j] == paths[j + 1];
      SortKeepsDistinct(paths[1..]);
      SortedByDepth(paths[1..]);
      InsertKeepsDistinct(paths[0], SortByDepth(paths[1..]));
    }
  }

  /** After a change of modes the same descriptors are opened, if they match the new fingerprint. */
  lemma {:induction false} OpenEachAgain(t: Tree, u: Tree, inos: set<nat>, fp: map<string, Entry>, fq: map<string, Entry>,
                                         paths: seq<string>, descriptors: map<string, nat>)
    requires OnlyModes(t, u, inos) && fq.Keys == fp.Keys && OpenEach(t, fp, paths, descriptors).Some?
    requires AllMatch(u, OpenEach(t, fp, paths, descriptors).value, fq)
    requires forall i, j :: 0 <= i < j < |paths| ==> paths[i] != paths[j]
    ensures OpenEach(u, fq, paths, descriptors) == OpenEach(t, fp, paths, descriptors)
    decreases |paths|
  {
    if paths != [] {
      var path, parent := paths[0], ParentOf(paths[0]);
      var ino := OpenIn(t, descriptors[parent], NameOf(path), fp[path].kind).value;
      assert path !in paths[1..] by { assert forall j :: 0 <= j < |paths[1..]| ==> paths[1..][j] == paths[j + 1]; }
      OpenEachKeeps(t, fp, paths[1..], descriptors[path := ino], path);
      assert Matches(u, ino, fq[path]);
      SameOpen(t, u, inos, descriptors[parent], NameOf(path), fp[path].kind, fq[path].kind);
      OpenEachAgain(t, u, inos, fp, fq, paths[1..], descriptors[path := ino]);
    }
  }

  lemma OpenAllAgain(t: Tree, u: Tree, inos: set<nat>, fp: map<string, Entry>, fq: map<string, Entry>)
    requires OnlyModes(t, u, inos) && fq.Keys == fp.Keys && OpenAll(t, fp).Some? && AllMatch(u, OpenAll(t, fp).value, fq)
    ensures OpenAll(u, fq) == OpenAll(t, fp)
  {
    var order, start := OpeningOrder(fp.Keys), map["." := OpenRoot(t).value];
    OrderDistinct(fp.Keys);
    OrderCovers(fp.Keys);
    assert "." !in order by { assert "." !in Elements(order); }
    OpenEachKeeps(t, fp, order, start, ".");
    assert Matches(u, OpenRoot(t).value, fq["."]);
    OpenEachAgain(t, u, inos, fp, fq, order, start);
  }

  lemma EnforcingOrder(fp: map<string, Entry>)
    ensures forall path :: path in SettingOrder(fp) <==> path in fp
  {
    var dirs, files := Directories(fp), (set path | path in fp && fp[path].kind == File);
    assert forall path :: path in Sorted(dirs) <==> path in Elements(Sorted(dirs));
    assert forall path :: path in Sorted(files) <==> path in Elements(Sorted(files));
    forall path | path in fp ensures path in dirs || path in files { assert fp[path].kind == Directory || fp[path].kind == File; }
  }

  /** Paths of one inode have one kind, and their inodes exist. */
  lemma KindOfInode(t: Tree, fp: map<string, Entry>, descriptors: map<string, nat>, p: string, q: string)
    requires AllMatch(t, descriptors, fp) && p in fp && q in fp
    ensures descriptors[p] in t.inodes && descriptors[q] in t.inodes
    ensures descriptors[p] == descriptors[q] ==> fp[p].kind == fp[q].kind
  {
    assert Matches(t, descriptors[p], fp[p]) && Matches(t, descriptors[q], fp[q]);
  }

  lemma OnlyModesMore(t: Tree, u: Tree, v: Tree, inos: set<nat>, ino: nat)
    requires OnlyModes(t, u, inos) && OnlyModes(u, v, {ino}) && ino in inos
    ensures OnlyModes(t, v, inos)
  {
  }

  ghost predicate ModesUpTo(t: Tree, fp: map<string, Entry>, descriptors: map<string, nat>, order: seq<string>, n: nat)
    requires descriptors.Keys == fp.Keys && n <= |order|
  {
    forall j :: 0 <= j < n ==> order[j] in fp && ModeIs(t, descriptors[order[j]], fp[order[j]].kind)
  }

  lemma AllModesSet(t: Tree, fp: map<string, Entry>, descriptors: map<string, nat>, order: seq<string>)
    requires descriptors.Keys == fp.Keys && (forall path :: path in order <==> path in fp) && ModesUpTo(t, fp, descriptors, order, |order|)
    ensures ModesAre(t, fp, descriptors)
  {
  }

  /** Setting one more mode keeps those that are set. */
  lemma ModesSoFar(t: Tree, u: Tree, v: Tree, fp: map<string, Entry>, descriptors: map<string, nat>, order: seq<string>, i: nat)
    requires i < |order| && order[i] in fp && AllMatch(t, descriptors, fp) && ModesUpTo(u, fp, descriptors, order, i)
    requires OnlyModes(t, u, descriptors.Values) && OnlyModes(u, v, {descriptors[order[i]]})
    requires descriptors[order[i]] in u.inodes ==> v.inodes[descriptors[order[i]]].perm == ExpectedMode(fp[order[i]].kind)
    ensures ModesUpTo(v, fp, descriptors, order, i + 1)
  {
    forall j | 0 <= j < i + 1 ensures order[j] in fp && ModeIs(v, descriptors[order[j]], fp[order[j]].kind) {
      KindOfInode(t, fp, descriptors, order[i], order[j]);
    }
  }

  predicate ModeIs(t: Tree, ino: nat, kind: Kind) { ino in t.inodes && t.inodes[ino].perm == ExpectedMode(kind) }

  ghost predicate ModesAre(t: Tree, fp: map<string, Entry>, descriptors: map<string, nat>)
    requires descriptors.Keys == fp.Keys
  {
    forall path :: path in fp ==> ModeIs(t, descriptors[path], fp[path].kind)
  }

  /** The entry is about the inode of the descriptor. */
  predicate Describes(ino: nat, e: Entry) { e.signature.ino == ino && Typed(e.kind, e.signature.kind) }

  ghost predicate AllDescribed(descriptors: map<string, nat>, fp: map<string, Entry>) {
    descriptors.Keys == fp.Keys && forall path :: path in fp ==> Describes(descriptors[path], fp[path])
  }

  ghost predicate DescribedUpTo(descriptors: map<string, nat>, fp: map<string, Entry>, paths: seq<string>, n: nat)
    requires n <= |paths|
  {
    forall j :: 0 <= j < n ==> paths[j] in fp && paths[j] in descriptors && Describes(descriptors[paths[j]], fp[paths[j]])
  }

  lemma DescribedAll(descriptors: map<string, nat>, fp: map<string, Entry>, paths: seq<string>)
    requires descriptors.Keys == fp.Keys && (forall path :: path in paths <==> path in fp) && DescribedUpTo(descriptors, fp, paths, |paths|)
    ensures AllDescribed(descriptors, fp)
  {
  }

  lemma MatchAll(t: Tree, descriptors: map<string, nat>, fp: map<string, Entry>, paths: seq<string>)
    requires descriptors.Keys == fp.Keys && (forall path :: path in paths <==> path in fp) && MatchUpTo(t, fp, descriptors, paths, |paths|)
    ensures AllMatch(t, descriptors, fp)
  {
  }

  /** The verifier saw every path of the closure name the inode that is open for it, with the required mode. */
  ghost predicate Secured(verifier: Tree -> Option<Metadata>, seen: Tree, descriptors: map<string, nat>) {
    SecuredAs(verifier(seen), descriptors)
  }

  ghost predicate SecuredAs(m: Option<Metadata>, descriptors: map<string, nat>) {
    && Valid(m)
    && var post := ByPath(m.value.fingerprint);
       ModesRight(post) && AllDescribed(descriptors, post)
  }

  /** When nothing is found wrong with the entries of a verification. */
  lemma SecuredIf(m: Option<Metadata>, post: map<string, Entry>, descriptors: map<string, nat>)
    requires Valid(m) && post == ByPath(m.value.fingerprint) && AllDescribed(descriptors, post)
    requires forall path :: path in post ==> post[path].signature.perm == ExpectedMode(post[path].kind)
    ensures SecuredAs(m, descriptors)
  {
  }

  /** The descriptors are those of the closure that the verifier describes. */
  ghost predicate Opened(verifier: Tree -> Option<Metadata>, t: Tree, files: seq<string>, fp: map<string, Entry>, descriptors: map<string, nat>) {
    && Valid(verifier(t)) && files == Sorted(Elements(verifier(t).value.files)) && fp == ByPath(verifier(t).value.fingerprint)
    && AllMatch(t, descriptors, fp)
  }

  /** The tree is as the verification wants it. */
  ghost predicate SecuredBy(verifier: Tree -> Option<Metadata>, t: Tree, files: seq<string>, fp: map<string, Entry>, descriptors: map<string, nat>) {
    Opened(verifier, t, files, fp, descriptors) && ModesRight(fp)
  }

  lemma ValidIsParentClosed(m: Option<Metadata>)
    requires Valid(m)
    ensures ParentClosed(ByPath(m.value.fingerprint).Keys)
  {
    FitsMeansComplete(m.value.fingerprint, ComponentsOf(m.value.files));
    ComponentsParentClosed(m.value.files);
  }

  lemma PassesAfter(verifier: Tree -> Option<Metadata>, t: Tree, u: Tree, inos: set<nat>, fp: map<string, Entry>)
    requires OnlyModes(t, u, inos) && OpenAll(t, fp).Some? && Secured(verifier, u, OpenAll(t, fp).value)
    requires AllMatch(u, OpenAll(t, fp).value, ByPath(verifier(u).value.fingerprint))
    ensures CheckPasses(verifier, u)
  {
    OpenAllFacts(t, fp);
    OpenAllAgain(t, u, inos, fp, ByPath(verifier(u).value.fingerprint));
  }

  lemma PassingIsSecured(verifier: Tree -> Option<Metadata>, t: Tree, files: seq<string>, fp: map<string, Entry>, descriptors: map<string, nat>)
    requires CheckPasses(verifier, t) && files == Sorted(Elements(verifier(t).value.files)) && fp == ByPath(verifier(t).value.fingerprint)
    requires OpenAll(t, fp) == Some(descriptors)
    ensures SecuredBy(verifier, t, files, fp, descriptors)
  {
    OpenAllFacts(t, fp);
  }

  /** The verifier reports what it sees. */
  ghost predicate Truthful(verifier: Tree -> Option<Metadata>) {
    forall t, i :: verifier(t).Some? && 0 <= i < |verifier(t).value.fingerprint| ==> Reports(t, verifier(t).value.fingerprint[i])
  }

  predicate Reports(t: Tree, e: Entry) {
    && Named(t, PartsOf(e.path)) == Some(e.signature.ino)
    && Stat(t, e.signature.ino) == Some(e.signature) && Typed(e.kind, e.signature.kind)
  }

  /**
   With a truthful verifier: in the tree that it saw last, the closure is "." and the prefixes of its files, and
   each of these paths names the inode that was opened for it, of the right kind and with the required mode.
   */
  lemma SecuredClosure(verifier: Tree -> Option<Metadata>, seen: Tree, descriptors: map<string, nat>, path: string)
    requires Truthful(verifier) && Secured(verifier, seen, descriptors)
    ensures path in descriptors <==> path == "." || IsPrefix(verifier(seen).value.files, path)
    ensures path in descriptors ==>
      && Named(seen, PartsOf(path)) == Some(descriptors[path]) && descriptors[path] in seen.inodes
      && path in ComponentsOf(verifier(seen).value.files)
      && Typed(ComponentsOf(verifier(seen).value.files)[path], seen.inodes[descriptors[path]].kind)
      && seen.inodes[descriptors[path]].perm == ExpectedMode(ComponentsOf(verifier(seen).value.files)[path])
  {
    var m := verifier(seen).value;
    FitsMeansComplete(m.fingerprint, ComponentsOf(m.files));
    ComponentsCover(m.files);
    ByPathFacts(m.fingerprint);
    PrefixIsComponent(m.files, path);
    if path in descriptors {
      var i :| 0 <= i < |m.fingerprint| && m.fingerprint[i].path == path;
      assert Reports(seen, m.fingerprint[i]);
      assert Describes(descriptors[path], ByPath(m.fingerprint)[path]);
    }
  }

  lemma PrefixIsComponent(files: seq<string>, path: string)
    requires Consistent(files)
    ensures path in ComponentsOf(files) <==> path == "." || IsPrefix(files, path)
  {
    if IsPrefix(files, path) {
      var i :| 0 <= i < |files| && IsPrefixOf(PartsOf(files[i]), path);
      assert CoversFile(PartsOf(files[i]), ComponentsOf(files));
    }
  }

  /** The verifier's verdict and its list of files do not depend on modes. */
  ghost predicate Steady(verifier: Tree -> Option<Metadata>) {
    forall t, u, inos :: OnlyModes(t, u, inos) && Valid(verifier(t)) ==> Valid(verifier(u)) && verifier(u).value.files == verifier(t).value.files
  }

  lemma FingerprintEntry(m: Metadata, path: string)
    requires Valid(Some(m)) && path in ByPath(m.fingerprint)
    ensures ByPath(m.fingerprint)[path] in m.fingerprint && ByPath(m.fingerprint)[path].path == path
    ensures path in ComponentsOf(m.files) && ByPath(m.fingerprint)[path].kind == ComponentsOf(m.files)[path]
    ensures RelativeParts(path).Some?
  {
    ByPathFacts(m.fingerprint);
    FitsMeansComplete(m.fingerprint, ComponentsOf(m.files));
    var i :| 0 <= i < |m.fingerprint| && m.fingerprint[i].path == path;
    assert EntryFits(m.fingerprint[i], ComponentsOf(m.files));
  }

  /** Opening a component from its parent finds what its path names. */
  lemma NamedStep(t: Tree, path: string)
    requires path != "." && RelativeParts(path).Some? && RelativeParts(ParentOf(path)).Some?
    ensures PartsOf(path) != []
    ensures Named(t, PartsOf(path)) ==
      if Named(t, PartsOf(ParentOf(path))) == None then None else OpenIn(t, Named(t, PartsOf(ParentOf(path))).value, NameOf(path), File)
  {
    var parts := PartsOf(path);
    assert parts == Texts.Split(path, '/');
    assert ParentOf(path) == PathOf(parts[..|parts| - 1]);
    PathOfInjective(parts[..|parts| - 1], PartsOf(ParentOf(path)));
  }

  /** The descriptors opened so far are what the paths name. */
  ghost predicate NamedAll(t: Tree, descriptors: map<string, nat>) {
    forall path :: path in descriptors ==> Named(t, PartsOf(path)) == Some(descriptors[path])
  }

  ghost predicate ReportsAll(t: Tree, fp: map<string, Entry>) {
    forall path :: path in fp ==> fp[path].path == path && RelativeParts(path).Some? && Reports(t, fp[path])
  }

  lemma TruthfulOpensOne(t: Tree, fp: map<string, Entry>, path: string, descriptors: map<string, nat>)
    requires ReportsAll(t, fp) && NamedAll(t, descriptors)
    requires path in fp && path != "." && ParentOf(path) in descriptors && ParentOf(path) in fp
    ensures OpenIn(t, descriptors[ParentOf(path)], NameOf(path), fp[path].kind) == Some(fp[path].signature.ino)
    ensures Matches(t, fp[path].signature.ino, fp[path]) && NamedAll(t, descriptors[path := fp[path].signature.ino])
  {
    NamedStep(t, path);
    assert Reports(t, fp[path]) && RelativeParts(ParentOf(path)).Some?;
  }

  lemma OrderStep(paths: set<string>, order: seq<string>, i: nat)
    requires ParentsBefore(paths, order) && i < |order|
    ensures order[i] in paths && order[i] != "." && ParentOf(order[i]) in paths && ParentOf(order[i]) in {"."} + Elements(order[..i])
    ensures order[i..] == [order[i]] + order[i + 1..] && Elements(order[..i + 1]) == Elements(order[..i]) + {order[i]}
  {
    assert ReadyAt(paths, order, i);
    assert order[..i + 1] == order[..i] + [order[i]];
  }

  lemma OpenEachStep(t: Tree, fp: map<string, Entry>, path: string, rest: seq<string>, descriptors: map<string, nat>)
    requires path in fp && ParentOf(path) in descriptors
    requires OpenIn(t, descriptors[ParentOf(path)], NameOf(path), fp[path].kind) == Some(fp[path].signature.ino)
    requires Matches(t, fp[path].signature.ino, fp[path])
    ensures OpenEach(t, fp, [path] + rest, descriptors) == OpenEach(t, fp, rest, descriptors[path := fp[path].signature.ino])
  {
    assert ([path] + rest)[1..] == rest;
  }

  lemma {:induction false} TruthfulOpensEach(t: Tree, fp: map<string, Entry>, order: seq<string>, i: nat, descriptors: map<string, nat>)
    requires ParentsBefore(fp.Keys, order) && ReportsAll(t, fp) && NamedAll(t, descriptors) && i <= |order|
    requires descriptors.Keys == {"."} + Elements(order[..i])
    ensures OpenEach(t, fp, order[i..], descriptors).Some?
    decreases |order| - i
  {
    if i < |order| {
      var path := order[i];
      OrderStep(fp.Keys, order, i);
      var more := descriptors[path := fp[path].signature.ino];
      TruthfulOpensOne(t, fp, path, descriptors);
      TruthfulOpensEach(t, fp, order, i + 1, more);
      OpenEachStep(t, fp, path, order[i + 1..], descriptors);
    }
  }

  lemma TruthfulReports(verifier: Tree -> Option<Metadata>, t: Tree)
    requires Truthful(verifier) && Valid(verifier(t))
    ensures ReportsAll(t, ByPath(verifier(t).value.fingerprint)) && ParentClosed(ByPath(verifier(t).value.fingerprint).Keys)
  {
    var m := verifier(t).value;
    ValidIsParentClosed(verifier(t));
    forall path | path in ByPath(m.fingerprint)
      ensures ByPath(m.fingerprint)[path].path == path && RelativeParts(path).Some? && Reports(t, ByPath(m.fingerprint)[path])
    {
      FingerprintEntry(m, path);
      var i :| 0 <= i < |m.fingerprint| && m.fingerprint[i] == ByPath(m.fingerprint)[path];
      assert Reports(t, m.fingerprint[i]);
    }
  }

  /** What a truthful verifier describes can be opened. */
  lemma TruthfulOpens(verifier: Tree -> Option<Metadata>, t: Tree)
    requires Truthful(verifier) && Valid(verifier(t))
    ensures OpenAll(t, ByPath(verifier(t).value.fingerprint)).Some?
  {
    var fp := ByPath(verifier(t).value.fingerprint);
    TruthfulReports(verifier, t);
    var root := fp["."].signature.ino;
    assert Reports(t, fp["."]);
    var order := OpeningOrder(fp.Keys);
    ParentFirst(fp.Keys);
    assert order[..0] == [] && order[0..] == order;
    TruthfulOpensEach(t, fp, order, 0, map["." := root]);
  }

  lemma {:induction false} SameNames(t: Tree, u: Tree, inos: set<nat>, parts: seq<string>)
    requires OnlyModes(t, u, inos)
    ensures Named(u, parts) == Named(t, parts)
  {
    if parts != [] { SameNames(t, u, inos, parts[..|parts| - 1]); }
  }

  /** After the modes are set, a truthful and steady verifier describes the open descriptors. */
  lemma SteadyAfter(verifier: Tree -> Option<Metadata>, t: Tree, u: Tree, descriptors: map<string, nat>, path: string)
    requires Truthful(verifier) && Valid(verifier(t)) && Valid(verifier(u)) && verifier(u).value.files == verifier(t).value.files
    requires OnlyModes(t, u, descriptors.Values) && AllMatch(t, descriptors, ByPath(verifier(t).value.fingerprint))
    requires ModesAre(u, ByPath(verifier(t).value.fingerprint), descriptors)
    ensures path in ByPath(verifier(u).value.fingerprint) <==> path in descriptors
    ensures path in descriptors ==> Matches(u, descriptors[path], ByPath(verifier(u).value.fingerprint)[path])
    ensures path in descriptors ==> ByPath(verifier(u).value.fingerprint)[path].signature.perm == ExpectedMode(ByPath(verifier(u).value.fingerprint)[path].kind)
  {
    var m, n := verifier(t).value, verifier(u).value;
    FitsMeansComplete(m.fingerprint, ComponentsOf(m.files));
    FitsMeansComplete(n.fingerprint, ComponentsOf(n.files));
    TruthfulReports(verifier, t);
    TruthfulReports(verifier, u);
    if path in descriptors {
      SameNames(t, u, descriptors.Values, PartsOf(path));
      assert Reports(t, ByPath(m.fingerprint)[path]) && Reports(u, ByPath(n.fingerprint)[path]);
      assert Matches(t, descriptors[path], ByPath(m.fingerprint)[path]);
      assert ModeIs(u, descriptors[path], ByPath(m.fingerprint)[path].kind);
    }
  }

  lemma SteadyIsSecured(verifier: Tree -> Option<Metadata>, t: Tree, u: Tree, descriptors: map<string, nat>)
    requires Truthful(verifier) && Valid(verifier(t)) && Valid(verifier(u)) && verifier(u).value.files == verifier(t).value.files
    requires OnlyModes(t, u, descriptors.Values) && AllMatch(t, descriptors, ByPath(verifier(t).value.fingerprint))
    requires ModesAre(u, ByPath(verifier(t).value.fingerprint), descriptors)
    ensures AllMatch(u, descriptors, ByPath(verifier(u).value.fingerprint)) && ModesRight(ByPath(verifier(u).value.fingerprint))
  {
    forall path ensures path in ByPath(verifier(u).value.fingerprint) <==> path in descriptors { SteadyAfter(verifier, t, u, descriptors, path); }
    forall path | path in descriptors ensures Matches(u, descriptors[path], ByPath(verifier(u).value.fingerprint)[path]) { SteadyAfter(verifier, t, u, descriptors, path); }
    forall path | path in descriptors
      ensures ByPath(verifier(u).value.fingerprint)[path].signature.perm == ExpectedMode(ByPath(verifier(u).value.fingerprint)[path].kind)
    {
      SteadyAfter(verifier, t, u, descriptors, path);
    }
  }

  /** The modes that were set are what the next verification wants. */
  lemma SteadyAgain(verifier: Tree -> Option<Metadata>, t: Tree, u: Tree, files: seq<string>, fp: map<string, Entry>, descriptors: map<string, nat>)
    requires Truthful(verifier) && Steady(verifier) && Opened(verifier, t, files, fp, descriptors)
    requires OnlyModes(t, u, descriptors.Values) && ModesAre(u, fp, descriptors)
    ensures Valid(verifier(u)) && files == Sorted(Elements(verifier(u).value.files))
    ensures AllMatch(u, descriptors, ByPath(verifier(u).value.fingerprint)) && ModesRight(ByPath(verifier(u).value.fingerprint))
  {
    assert Valid(verifier(u)) && verifier(u).value.files == verifier(t).value.files;
    SteadyIsSecured(verifier, t, u, descriptors);
  }

  /** What `enforce` reports of a closure: how many directories and files it has. */
  function Counts(files: seq<string>): (nat, nat) {
    (|set path | path in ComponentsOf(files) && ComponentsOf(files)[path] == Directory|, |files|)
  }

  lemma PartOfComponents(a: seq<string>, b: seq<string>, path: string)
    requires Consistent(a) && Consistent(b) && Elements(a) == Elements(b) && path in ComponentsOf(a)
    ensures path in ComponentsOf(b) && ComponentsOf(b)[path] == ComponentsOf(a)[path]
  {
    if path != "." {
      var i :| 0 <= i < |a| && IsPrefixOf(PartsOf(a[i]), path);
      assert a[i] in Elements(b);
      var j :| 0 <= j < |b| && b[j] == a[i];
      assert CoversFile(PartsOf(a[i]), ComponentsOf(a)) && CoversFile(PartsOf(b[j]), ComponentsOf(b));
    }
  }

  /** The order in which the files are listed does not matter. */
  lemma SameFilesSameComponents(a: seq<string>, b: seq<string>)
    requires Consistent(a) && Consistent(b) && Elements(a) == Elements(b)
    ensures ComponentsOf(a) == ComponentsOf(b)
  {
    forall path | path in ComponentsOf(a) ensures path in ComponentsOf(b) && ComponentsOf(b)[path] == ComponentsOf(a)[path] { PartOfComponents(a, b, path); }
    forall path | path in ComponentsOf(b) ensures path in ComponentsOf(a) { PartOfComponents(b, a, path); }
  }

  /** The counts, as they are computed from the fingerprint. */
  lemma CountsOf(m: Option<Metadata>, post: Option<Metadata>)
    requires Valid(m) && Valid(post) && Sorted(Elements(m.value.files)) == Sorted(Elements(post.value.files))
    ensures var fp := ByPath(m.value.fingerprint);
      (|Directories(fp)|, |Sorted(Elements(m.value.files))|) == Counts(post.value.files)
  {
    var files, fp, components := m.value.files, ByPath(m.value.fingerprint), ComponentsOf(m.value.files);
    FitsMeansComplete(m.value.fingerprint, components);
    assert Elements(files) == Elements(Sorted(Elements(files))) == Elements(post.value.files);
    ComponentsCover(files);
    ComponentsCover(post.value.files);
    SameFilesSameComponents(files, post.value.files);
    assert Directories(fp) == (set path | path in components && components[path] == Directory);
    SortedSize(files);
  }

  lemma SortedSize(files: seq<string>)
    requires DistinctFiles(files)
    ensures |Sorted(Elements(files))| == |files|
  {
    ElementsSize(files);
    var sorted := Sorted(Elements(files));
    forall i, j | 0 <= i < j < |sorted| ensures sorted[i] != sorted[j] { assert Lt(sorted[i], sorted[j]); }
    ElementsSize(sorted);
  }

  lemma {:induction false} ElementsSize(s: seq<string>)
    requires NoRepeats(s)
    ensures |Elements(s)| == |s|
  {
    if s == [] {
      assert Elements(s) == {};
    } else {
      ElementsSize(s[1..]);
      assert s == [s[0]] + s[1..];
      assert Elements(s) == {s[0]} + Elements(s[1..]);
    }
  }

  // ---------------------------------------------------------------- the calls that were made

  /** A call that succeeded, and what it was told. */
  datatype Call = Verified | Inspected(signature: Signature) | ModeSet(ino: nat, perm: nat)

  /** The modes that were set, in order. */
  ghost function Settings(calls: seq<Call>): seq<(nat, nat)> {
    if calls == [] then []
    else
      var last := calls[|calls| - 1];
      Settings(calls[..|calls| - 1]) + if last.ModeSet? then [(last.ino, last.perm)] else []
  }

  lemma CallsAssoc(a: seq<Call>, b: seq<Call>, c: seq<Call>)
    ensures a + b + c == a + (b + c)
  {
  }

  lemma SettingsMore(calls: seq<Call>, c: Call)
    ensures Settings(calls + [c]) == Settings(calls) + if c.ModeSet? then [(c.ino, c.perm)] else []
  {
    assert (calls + [c])[..|calls|] == calls;
  }

  function Directories(fp: map<string, Entry>): set<string> { set path | path in fp && fp[path].kind == Directory }

  function SettingOrder(fp: map<string, Entry>): seq<string> {
    Sorted(Directories(fp)) + Sorted(set path | path in fp && fp[path].kind == File)
  }

  predicate SetAt(setting: (nat, nat), fp: map<string, Entry>, descriptors: map<string, nat>, path: string) {
    path in fp && path in descriptors && setting == (descriptors[path], ExpectedMode(fp[path].kind))
  }

  /** The required modes are set on the descriptors in order, up to some point. */
  ghost predicate SetSoFar(settings: seq<(nat, nat)>, fp: map<string, Entry>, descriptors: map<string, nat>, order: seq<string>) {
    |settings| <= |order| && forall i :: 0 <= i < |settings| ==> SetAt(settings[i], fp, descriptors, order[i])
  }

  lemma SetSoFarMore(base: seq<(nat, nat)>, settings: seq<(nat, nat)>, fp: map<string, Entry>, descriptors: map<string, nat>,
                     order: seq<string>, setting: (nat, nat))
    requires |settings| < |order| && SetSoFar(settings, fp, descriptors, order) && SetAt(setting, fp, descriptors, order[|settings|])
    ensures SetSoFar(settings + [setting], fp, descriptors, order) && base + settings + [setting] == base + (settings + [setting])
  {
  }

  /** After some settings more modes were set as required, all of them if it was completed. */
  ghost predicate SetMore(before: seq<(nat, nat)>, after: seq<(nat, nat)>, fp: map<string, Entry>, descriptors: map<string, nat>,
                          order: seq<string>, completed: bool)
  {
    && before <= after && SetSoFar(after[|before|..], fp, descriptors, order)
    && (completed ==> |after| == |before| + |order|)
  }

  predicate ModeInspected(c: Call, fp: map<string, Entry>, descriptors: map<string, nat>, path: string) {
    path in fp && path in descriptors && c.Inspected? && c.signature.ino == descriptors[path] && c.signature.perm == ExpectedMode(fp[path].kind)
  }

  /** Each of the descriptors was inspected and had the required mode. */
  ghost predicate ModesInspected(calls: seq<Call>, fp: map<string, Entry>, descriptors: map<string, nat>, paths: seq<string>) {
    |calls| == |paths| && forall i :: 0 <= i < |paths| ==> ModeInspected(calls[i], fp, descriptors, paths[i])
  }

  predicate EntryInspected(c: Call, post: map<string, Entry>, descriptors: map<string, nat>, path: string) {
    path in post && path in descriptors && c == Inspected(post[path].signature) && post[path].signature.ino == descriptors[path]
  }

  /** Each of the descriptors was inspected and found as the entry for its path says. */
  ghost predicate EntriesInspected(calls: seq<Call>, post: map<string, Entry>, descriptors: map<string, nat>, paths: seq<string>) {
    |calls| == |paths| && forall i :: 0 <= i < |paths| ==> EntryInspected(calls[i], post, descriptors, paths[i])
  }

  lemma ModesInspectedMore(calls: seq<Call>, fp: map<string, Entry>, descriptors: map<string, nat>, paths: seq<string>, i: nat, c: Call)
    requires i < |paths| && ModesInspected(calls, fp, descriptors, paths[..i]) && ModeInspected(c, fp, descriptors, paths[i])
    ensures ModesInspected(calls + [c], fp, descriptors, paths[..i + 1])
  {
    assert paths[..i + 1] == paths[..i] + [paths[i]];
  }

  lemma EntriesInspectedMore(calls: seq<Call>, post: map<string, Entry>, descriptors: map<string, nat>, paths: seq<string>, i: nat, c: Call)
    requires i < |paths| && EntriesInspected(calls, post, descriptors, paths[..i]) && EntryInspected(c, post, descriptors, paths[i])
    ensures EntriesInspected(calls + [c], post, descriptors, paths[..i + 1])
  {
    assert paths[..i + 1] == paths[..i] + [paths[i]];
  }

  lemma SortedPaths(paths: set<string>)
    ensures forall path :: path in Sorted(paths) <==> path in paths
  {
    assert forall path :: path in Sorted(paths) <==> path in Elements(Sorted(paths));
  }

  ghost predicate MatchUpTo(t: Tree, post: map<string, Entry>, descriptors: map<string, nat>, paths: seq<string>, n: nat)
    requires descriptors.Keys == post.Keys && n <= |paths|
  {
    forall j :: 0 <= j < n ==> paths[j] in post && Matches(t, descriptors[paths[j]], post[paths[j]])
  }

  /** All modes were inspected, then the closure verified, then all descriptors compared with the new entries. */
  ghost predicate Rechecked(calls: seq<Call>, fp: map<string, Entry>, post: map<string, Entry>, descriptors: map<string, nat>) {
    var paths := Sorted(fp.Keys);
    var n := |paths|;
    && |calls| == 2 * n + 1 && ModesInspected(calls[..n], fp, descriptors, paths) && calls[n] == Verified
    && EntriesInspected(calls[n + 1..], post, descriptors, paths)
  }

  lemma RecheckedBy(checked: seq<Call>, compared: seq<Call>, fp: map<string, Entry>, post: map<string, Entry>, descriptors: map<string, nat>)
    requires ModesInspected(checked, fp, descriptors, Sorted(fp.Keys)) && EntriesInspected(compared, post, descriptors, Sorted(fp.Keys))
    ensures Rechecked(checked + [Verified] + compared, fp, post, descriptors)
  {
    var told := checked + [Verified] + compared;
    assert told[..|checked|] == checked && told[|checked| + 1..] == compared;
  }

  predicate EndsWith(calls: seq<Call>, last: seq<Call>) { |last| <= |calls| && calls[|calls| - |last|..] == last }

  /** The descriptors are for what the verification said of the closure. */
  ghost predicate OpenedFor(verifier: Tree -> Option<Metadata>, first: Tree, fp: map<string, Entry>, descriptors: map<string, nat>) {
    Valid(verifier(first)) && fp == ByPath(verifier(first).value.fingerprint) && AllDescribed(descriptors, fp)
  }

  // ---------------------------------------------------------------- the host

  class Host {
    var tree: Tree
    var steps: nat
    ghost var calls: seq<Call>
    /** What others do to the tree before each call, and which calls fail. */
    const env: (nat, Tree) -> Tree
    const fails: nat -> bool
    const times: nat -> int
    /** The closure verifier, run at one instant. */
    const verifier: Tree -> Option<Metadata>

    constructor (tree: Tree, env: (nat, Tree) -> Tree, fails: nat -> bool, times: nat -> int, verifier: Tree -> Option<Metadata>)
      ensures this.tree == tree && this.env == env && this.fails == fails && this.times == times && this.verifier == verifier
      ensures calls == []
    {
      calls := [];
      this.tree, this.steps, this.env, this.fails, this.times, this.verifier := tree, 0, env, fails, times, verifier;
    }

    ghost predicate Quiet() { forall n, t :: env(n, t) == t }

    ghost predicate Reliable() { forall n :: !fails(n) }

    method Enter() returns (failed: bool)
      modifies this
      ensures calls == old(calls) && tree == env(old(steps), old(tree)) && failed == fails(old(steps)) && steps == old(steps) + 1
      ensures Quiet() ==> tree == old(tree)
      ensures Reliable() ==> !failed
    {
      tree := env(steps, tree);
      failed := fails(steps);
      steps := steps + 1;
    }

    method RunVerifier() returns (m: Option<Metadata>)
      modifies this
      ensures tree == env(old(steps), old(tree)) && steps == old(steps) + 1 && m == if fails(old(steps)) then None else verifier(tree)
      ensures Quiet() ==> tree == old(tree)
      ensures m.Some? ==> m == verifier(tree)
      ensures Reliable() ==> m == verifier(tree)
      ensures calls == old(calls) + if m.Some? then [Verified] else []
      ensures Settings(calls) == Settings(old(calls))
    {
      var failed := Enter();
      m := if failed then None else verifier(tree);
      if m.Some? {
        calls := calls + [Verified];
        SettingsMore(old(calls), Verified);
      }
    }

    method OpenAt(dir: Option<nat>, name: string, kind: Kind) returns (r: Option<nat>)
      modifies this
      ensures tree == env(old(steps), old(tree)) && steps == old(steps) + 1 && (fails(old(steps)) ==> r == None)
      ensures !fails(old(steps)) ==> r == if dir == None then OpenRoot(tree) else OpenIn(tree, dir.value, name, kind)
      ensures Quiet() ==> tree == old(tree)
      ensures r.Some? ==> r == if dir == None then OpenRoot(tree) else OpenIn(tree, dir.value, name, kind)
      ensures Reliable() ==> r == if dir == None then OpenRoot(tree) else OpenIn(tree, dir.value, name, kind)
      ensures calls == old(calls)
    {
      var failed := Enter();
      r := if failed then None else if dir == None then OpenRoot(tree) else OpenIn(tree, dir.value, name, kind);
    }

    method Fstat(ino: nat) returns (r: Option<Signature>)
      modifies this
      ensures tree == env(old(steps), old(tree)) && steps == old(steps) + 1 && r == if fails(old(steps)) then None else Stat(tree, ino)
      ensures Quiet() ==> tree == old(tree)
      ensures r.Some? ==> r == Stat(tree, ino)
      ensures Reliable() ==> r == Stat(tree, ino)
      ensures calls == old(calls) + if r.Some? then [Inspected(r.value)] else []
      ensures Settings(calls) == Settings(old(calls))
    {
      var failed := Enter();
      r := if failed then None else Stat(tree, ino);
      if r.Some? {
        calls := calls + [Inspected(r.value)];
        SettingsMore(old(calls), Inspected(r.value));
      }
    }

    method Fchmod(ino: nat, perm: nat) returns (failed: bool)
      modifies this
      ensures failed == fails(old(steps)) && steps == old(steps) + 1
      ensures var now := env(old(steps), old(tree)); tree == if failed then now else Chmod(now, ino, perm, times(steps))
      ensures Quiet() ==> OnlyModes(old(tree), tree, {ino})
      ensures Quiet() && !failed && ino in old(tree).inodes ==> tree.inodes[ino].perm == perm
      ensures Reliable() ==> !failed
      ensures Settings(calls) == Settings(old(calls)) + if failed then [] else [(ino, perm)]
    {
      failed := Enter();
      if !failed {
        tree := Chmod(tree, ino, perm, times(steps));
        calls := calls + [ModeSet(ino, perm)];
        SettingsMore(old(calls), ModeSet(ino, perm));
      }
    }

    /** `_compare_fingerprint`: None when the descriptor still refers to what the entry describes. */
    method CompareFingerprint(ino: nat, e: Entry) returns (r: Option<Refusal>)
      modifies this
      ensures Quiet() ==> tree == old(tree)
      ensures r == None ==> Matches(tree, ino, e)
      ensures Reliable() && Matches(tree, ino, e) ==> r == None
      ensures r == None ==> calls == old(calls) + [Inspected(e.signature)]
      ensures Settings(calls) == Settings(old(calls))
    {
      var info := Fstat(ino);
      if info == None { return Some(CannotInspect(e.path)); }
      if !Typed(e.kind, info.value.kind) { return Some(WrongType(e.path)); }
      if info.value != e.signature { return Some(Changed(e.path)); }
      r := None;
    }

    /** `_opened_verified_entries`: a descriptor for every component, the parent's always there before. */
    method OpenedVerifiedEntries(fp: map<string, Entry>) returns (r: Result<map<string, nat>, Refusal>)
      requires ParentClosed(fp.Keys)
      modifies this
      ensures Quiet() ==> tree == old(tree)
      ensures Quiet() && r.Ok? ==> OpenAll(tree, fp) == Some(r.value)
      ensures Quiet() && Reliable() && OpenAll(tree, fp).Some? ==> r.Ok?
      ensures r.Ok? ==> AllDescribed(r.value, fp)
      ensures Settings(calls) == Settings(old(calls))
    {
      var root := OpenAt(None, ".", Directory);
      if root == None { return Err(CannotOpen(".")); }
      var wrong := CompareFingerprint(root.value, fp["."]);
      if wrong != None { return Err(wrong.value); }
      ParentFirst(fp.Keys);
      r := OpenInOrder(fp, OpeningOrder(fp.Keys), root.value);
    }

    /** The loop over the components. */
    method OpenInOrder(fp: map<string, Entry>, order: seq<string>, root: nat) returns (r: Result<map<string, nat>, Refusal>)
      requires ParentsBefore(fp.Keys, order) && Elements(order) == fp.Keys - {"."} && "." in fp && Describes(root, fp["."])
      modifies this
      ensures Quiet() ==> tree == old(tree)
      ensures Quiet() && r.Ok? ==> OpenEach(tree, fp, order, map["." := root]) == Some(r.value)
      ensures Quiet() && Reliable() && OpenEach(tree, fp, order, map["." := root]).Some? ==> r.Ok?
      ensures r.Ok? ==> AllDescribed(r.value, fp)
      ensures Settings(calls) == Settings(old(calls))
    {
      var descriptors: map<string, nat> := map["." := root];
      assert order[0..] == order;
      for i := 0 to |order|
        invariant descriptors.Keys == {"."} + Elements(order[..i])
        invariant Quiet() ==> tree == old(tree) && OpenEach(tree, fp, order, map["." := root]) == OpenEach(tree, fp, order[i..], descriptors)
        invariant forall path :: path in descriptors ==> path in fp && Describes(descriptors[path], fp[path])
        invariant Settings(calls) == Settings(old(calls))
      {
        var path := order[i];
        OrderStep(fp.Keys, order, i);
        var parent := ParentOf(path);
        var ino := OpenAt(Some(descriptors[parent]), NameOf(path), fp[path].kind);
        if ino == None { return Err(CannotOpen(path)); }
        var changed := CompareFingerprint(ino.value, fp[path]);
        if changed != None { return Err(changed.value); }
        descriptors := descriptors[path := ino.value];
      }
      assert order[..|order|] == order && order[|order|..] == [];
      r := Ok(descriptors);
    }

    /** The loop over the descriptors; it stops at the first call that fails. */
    method SetModes(fp: map<string, Entry>, descriptors: map<string, nat>) returns (failed: bool)
      requires descriptors.Keys == fp.Keys
      modifies this
      ensures Quiet() ==> OnlyModes(old(tree), tree, descriptors.Values)
      ensures Quiet() && Reliable() && AllMatch(old(tree), descriptors, fp) ==> !failed && ModesAre(tree, fp, descriptors)
      ensures SetMore(Settings(old(calls)), Settings(calls), fp, descriptors, SettingOrder(fp), !failed)
    {
      EnforcingOrder(fp);
      failed := SetEach(fp, descriptors, SettingOrder(fp));
    }

    method SetEach(fp: map<string, Entry>, descriptors: map<string, nat>, order: seq<string>) returns (failed: bool)
      requires descriptors.Keys == fp.Keys && forall path :: path in order <==> path in fp
      modifies this
      ensures Quiet() ==> OnlyModes(old(tree), tree, descriptors.Values)
      ensures Quiet() && Reliable() && AllMatch(old(tree), descriptors, fp) ==> !failed && ModesAre(tree, fp, descriptors)
      ensures SetMore(Settings(old(calls)), Settings(calls), fp, descriptors, order, !failed)
    {
      ghost var start := tree;
      ghost var settings: seq<(nat, nat)> := [];
      for i := 0 to |order|
        invariant Settings(calls) == Settings(old(calls)) + settings && |settings| == i && SetSoFar(settings, fp, descriptors, order)
        invariant Quiet() ==> OnlyModes(start, tree, descriptors.Values)
        invariant Quiet() && Reliable() && AllMatch(start, descriptors, fp) ==> ModesUpTo(tree, fp, descriptors, order, i)
      {
        var path := order[i];
        assert path in order && path in fp && descriptors[path] in descriptors.Values;
        ghost var before := tree;
        var e := Fchmod(descriptors[path], ExpectedMode(fp[path].kind));
        if e { return true; }
        SetSoFarMore(Settings(old(calls)), settings, fp, descriptors, order, (descriptors[path], ExpectedMode(fp[path].kind)));
        settings := settings + [(descriptors[path], ExpectedMode(fp[path].kind))];
        if Quiet() {
          OnlyModesMore(start, before, tree, descriptors.Values, descriptors[path]);
          if Reliable() && AllMatch(start, descriptors, fp) { ModesSoFar(start, before, tree, fp, descriptors, order, i); }
        }
      }
      failed := false;
      if Quiet() && Reliable() && AllMatch(start, descriptors, fp) { AllModesSet(tree, fp, descriptors, order); }
    }

    /** `_check_open_modes`. */
    method CheckOpenModes(fp: map<string, Entry>, descriptors: map<string, nat>) returns (r: Option<Refusal>, ghost told: seq<Call>)
      requires descriptors.Keys == fp.Keys
      modifies this
      ensures Quiet() ==> tree == old(tree)
      ensures Quiet() && r == None ==> ModesAre(tree, fp, descriptors)
      ensures Quiet() && Reliable() && ModesAre(tree, fp, descriptors) ==> r == None
      ensures calls == old(calls) + told && Settings(calls) == Settings(old(calls))
      ensures r == None ==> ModesInspected(told, fp, descriptors, Sorted(fp.Keys))
    {
      var paths := Sorted(fp.Keys);
      SortedPaths(fp.Keys);
      told := [];
      for i := 0 to |paths|
        invariant Quiet() ==> tree == old(tree) && ModesUpTo(tree, fp, descriptors, paths, i)
        invariant calls == old(calls) + told && Settings(calls) == Settings(old(calls))
        invariant ModesInspected(told, fp, descriptors, paths[..i])
      {
        assert paths[i] in paths;
        var info := Fstat(descriptors[paths[i]]);
        if info == None { return Some(OsError), told; }
        ghost var c := Inspected(info.value);
        CallsAssoc(old(calls), told, [c]);
        if info.value.perm != ExpectedMode(fp[paths[i]].kind) { return Some(WrongMode(paths[i])), told + [c]; }
        ModesInspectedMore(told, fp, descriptors, paths, i, c);
        told := told + [c];
      }
      assert paths[..|paths|] == paths;
      if Quiet() { AllModesSet(tree, fp, descriptors, paths); }
      r := None;
    }

    /** The loop that compares every descriptor with the second fingerprint. */
    method CompareAll(post: map<string, Entry>, descriptors: map<string, nat>) returns (r: Option<Refusal>, ghost told: seq<Call>)
      requires descriptors.Keys == post.Keys
      modifies this
      ensures Quiet() ==> tree == old(tree)
      ensures r == None ==> AllDescribed(descriptors, post)
      ensures Quiet() && r == None ==> AllMatch(tree, descriptors, post)
      ensures Quiet() && Reliable() && AllMatch(tree, descriptors, post) ==> r == None
      ensures Settings(calls) == Settings(old(calls))
      ensures r == None ==> calls == old(calls) + told && EntriesInspected(told, post, descriptors, Sorted(post.Keys))
    {
      var paths := Sorted(post.Keys);
      SortedPaths(post.Keys);
      told := [];
      for i := 0 to |paths|
        invariant Quiet() ==> tree == old(tree) && MatchUpTo(tree, post, descriptors, paths, i)
        invariant calls == old(calls) + told && Settings(calls) == Settings(old(calls))
        invariant EntriesInspected(told, post, descriptors, paths[..i])
        invariant DescribedUpTo(descriptors, post, paths, i)
      {
        assert paths[i] in paths;
        var changed := CompareFingerprint(descriptors[paths[i]], post[paths[i]]);
        if changed != None { return changed, told; }
        ghost var c := Inspected(post[paths[i]].signature);
        CallsAssoc(old(calls), told, [c]);
        EntriesInspectedMore(told, post, descriptors, paths, i, c);
        told := told + [c];
      }
      assert paths[..|paths|] == paths;
      DescribedAll(descriptors, post, paths);
      if Quiet() { MatchAll(tree, descriptors, post, paths); }
      r := None;
    }

    /** `_verify_opened_namespace`; `seen` is the tree that the verifier saw. */
    method VerifyOpenedNamespace(files: seq<string>, fp: map<string, Entry>, descriptors: map<string, nat>)
      returns (r: Option<Refusal>, seen: Tree, ghost told: seq<Call>)
      requires descriptors.Keys == fp.Keys
      modifies this
      ensures r == None ==> Secured(verifier, seen, descriptors) && files == Sorted(Elements(verifier(seen).value.files))
      ensures r == None ==> calls == old(calls) + [Verified] + told
      ensures r == None ==> EntriesInspected(told, ByPath(verifier(seen).value.fingerprint), descriptors, Sorted(fp.Keys))
      ensures Settings(calls) == Settings(old(calls))
      ensures Quiet() ==> tree == old(tree) == seen
      ensures Quiet() && r == None ==> Valid(verifier(tree)) && AllMatch(tree, descriptors, ByPath(verifier(tree).value.fingerprint))
      ensures Quiet() && Reliable() && Valid(verifier(tree)) && files == Sorted(Elements(verifier(tree).value.files))
              && AllMatch(tree, descriptors, ByPath(verifier(tree).value.fingerprint)) && ModesRight(ByPath(verifier(tree).value.fingerprint))
              ==> r == None
    {
      var m := RunVerifier();
      seen, told := tree, [];
      var verified := VerifiedEntries(m);
      if verified.Err? { return Some(verified.error), seen, told; }
      var (postFiles, post) := verified.value;
      if postFiles != files || post.Keys != fp.Keys { return Some(ClosureChanged), seen, told; }
      var changed, compared := CompareAll(post, descriptors);
      told := compared;
      if changed != None { return changed, seen, told; }
      if path :| path in post && post[path].signature.perm != ExpectedMode(post[path].kind) {
        return Some(WrongMode(path)), seen, told;
      }
      assert m == verifier(seen);
      SecuredIf(m, post, descriptors);
      r := None;
    }

    /** Both checks at the end of `enforce`. */
    method Recheck(files: seq<string>, fp: map<string, Entry>, descriptors: map<string, nat>)
      returns (r: Option<Refusal>, seen: Tree, ghost told: seq<Call>)
      requires descriptors.Keys == fp.Keys
      modifies this
      ensures r == None ==> Secured(verifier, seen, descriptors) && files == Sorted(Elements(verifier(seen).value.files))
      ensures r == None ==> calls == old(calls) + told && Rechecked(told, fp, ByPath(verifier(seen).value.fingerprint), descriptors)
      ensures Settings(calls) == Settings(old(calls))
      ensures Quiet() ==> tree == old(tree) == seen
      ensures Quiet() && r == None ==> Valid(verifier(tree)) && AllMatch(tree, descriptors, ByPath(verifier(tree).value.fingerprint))
      ensures Quiet() && Reliable() && ModesAre(tree, fp, descriptors)
              && Valid(verifier(tree)) && files == Sorted(Elements(verifier(tree).value.files))
              && AllMatch(tree, descriptors, ByPath(verifier(tree).value.fingerprint)) && ModesRight(ByPath(verifier(tree).value.fingerprint))
              ==> r == None
    {
      seen, told := tree, [];
      var wrong, checked := CheckOpenModes(fp, descriptors);
      if wrong != None { return wrong, seen, told; }
      ghost var compared;
      r, seen, compared := VerifyOpenedNamespace(files, fp, descriptors);
      if r == None {
        told := checked + [Verified] + compared;
        RecheckedBy(checked, compared, fp, ByPath(verifier(seen).value.fingerprint), descriptors);
        CallsAssoc(old(calls), checked, [Verified] + compared);
        CallsAssoc(checked, [Verified], compared);
        CallsAssoc(old(calls) + checked, [Verified], compared);
      }
    }

    /** The second half of `enforce`: set the modes unless only checking, check them, and verify the closure again. */
    method Secure(files: seq<string>, fp: map<string, Entry>, descriptors: map<string, nat>, checkOnly: bool)
      returns (r: Option<Refusal>, seen: Tree, ghost told: seq<Call>)
      requires descriptors.Keys == fp.Keys
      modifies this
      ensures r == None ==> Secured(verifier, seen, descriptors) && files == Sorted(Elements(verifier(seen).value.files))
      ensures if checkOnly then Settings(calls) == Settings(old(calls))
              else SetMore(Settings(old(calls)), Settings(calls), fp, descriptors, SettingOrder(fp), r == None)
      ensures r == None ==> EndsWith(calls, told) && Rechecked(told, fp, ByPath(verifier(seen).value.fingerprint), descriptors)
      ensures Quiet() ==> OnlyModes(old(tree), tree, descriptors.Values) && (checkOnly ==> tree == old(tree))
      ensures Quiet() && r == None ==> Secured(verifier, tree, descriptors) && AllMatch(tree, descriptors, ByPath(verifier(tree).value.fingerprint))
      ensures Quiet() && Reliable() && checkOnly && SecuredBy(verifier, tree, files, fp, descriptors) ==> r == None
      ensures Quiet() && Reliable() && Truthful(verifier) && Steady(verifier) && !checkOnly && Opened(verifier, old(tree), files, fp, descriptors) ==> r == None
    {
      seen, told := tree, [];
      ghost var start := tree;
      if !checkOnly {
        var failed := SetModes(fp, descriptors);
        if failed { return Some(OsError), seen, told; }
        if Quiet() && Reliable() && Truthful(verifier) && Steady(verifier) && Opened(verifier, start, files, fp, descriptors) {
          SteadyAgain(verifier, start, tree, files, fp, descriptors);
        }
      }
      r, seen, told := Recheck(files, fp, descriptors);
    }

    /**
     `enforce`: the numbers of directories and files; `descriptors` are the inodes that it opened, `first` and
     `seen` the trees that the first and the last verification saw, and `fp` what the first one said.
     */
    method Enforce(checkOnly: bool)
      returns (r: Result<(nat, nat), Refusal>, descriptors: map<string, nat>, seen: Tree, ghost first: Tree, ghost fp: map<string, Entry>, ghost told: seq<Call>)
      modifies this
      ensures r.Ok? ==> Secured(verifier, seen, descriptors) && r.value == Counts(verifier(seen).value.files)
      ensures r.Ok? ==> descriptors.Keys == fp.Keys && EndsWith(calls, told) && Rechecked(told, fp, ByPath(verifier(seen).value.fingerprint), descriptors)
      ensures descriptors == map[] || OpenedFor(verifier, first, fp, descriptors)
      ensures if checkOnly || descriptors == map[] then Settings(calls) == Settings(old(calls))
              else SetMore(Settings(old(calls)), Settings(calls), fp, descriptors, SettingOrder(fp), r.Ok?)
      ensures Quiet() ==> OnlyModes(old(tree), tree, descriptors.Values) && (checkOnly ==> tree == old(tree))
      ensures Quiet() && r.Ok? ==> CheckPasses(verifier, tree)
      ensures Quiet() && Reliable() && checkOnly && CheckPasses(verifier, tree) ==> r.Ok?
      ensures Quiet() && Reliable() && Truthful(verifier) && Steady(verifier) && !checkOnly ==> (r.Ok? <==> Valid(verifier(old(tree))))
    {
      descriptors, fp, told := map[], map[], [];
      var m := RunVerifier();
      seen, first := tree, tree;
      var verified := VerifiedEntries(m);
      if verified.Err? { return Err(verified.error), descriptors, seen, first, fp, told; }
      var (files, entries) := verified.value;
      fp := entries;
      ValidIsParentClosed(m);
      if Quiet() && Truthful(verifier) { TruthfulOpens(verifier, tree); }
      var got := OpenedVerifiedEntries(entries);
      if got.Err? { return Err(got.error), descriptors, seen, first, fp, told; }
      descriptors := got.value;
      if Quiet() { OpenAllFacts(tree, fp); }
      ghost var before := tree;
      var refused, last, rechecked := Secure(files, entries, descriptors, checkOnly);
      seen, told := last, rechecked;
      if Quiet() && refused == None { PassesAfter(verifier, before, tree, descriptors.Values, fp); }
      if Quiet() && checkOnly && CheckPasses(verifier, tree) { PassingIsSecured(verifier, tree, files, fp, descriptors); }
      if refused != None { return Err(refused.value), descriptors, seen, first, fp, told; }
      assert m == verifier(first) && Secured(verifier, seen, descriptors);
      CountsOf(m, verifier(seen));
      r := Ok((|Directories(entries)|, |files|));
    }
  }
}
