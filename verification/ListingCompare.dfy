/** Which snapshots compare as unchanged when content hashes are reused (scripts/verify_huiji_provenance_acceptance.py). */
module ListingCompare {
  import opened Results
  import opened Ordering
  import opened Texts
  import opened Listing

  // ---------------------------------------------------------------- the comparison

  datatype Artifact = Artifact(sha256: string, size: int)

  datatype Payload = Payload(
    milvus: string, milvusCapturedAt: string, tables: string, inventories: map<string, Inventory>,
    artifacts: map<string, Artifact>, capturedAt: string)

  datatype Change = MilvusChanged | MinioChanged | TablesChanged | ArtifactsChanged

  datatype CompareError = AlreadyExisted(path: string) | Missing(path: string) | NotAsExpected(path: string)

  function StableInventory(inv: Inventory): Inventory { inv.(capturedAt := "", digest := "") }

  function StableInventories(invs: map<string, Inventory>): map<string, Inventory> {
    map scope | scope in invs :: StableInventory(invs[scope])
  }

  /** `_stable_protected_payload`: a payload without the marks of its capture. */
  function Stable(p: Payload): Payload {
    p.(milvusCapturedAt := "", capturedAt := "", inventories := StableInventories(p.inventories))
  }

  function Filtered(objects: seq<Item>, dropped: set<string>): seq<Item> {
    if objects == [] then []
    else (if objects[0].key in dropped then [] else [objects[0]]) + Filtered(objects[1..], dropped)
  }

  /** A later inventory without the allowed objects that the earlier one did not have. */
  function WithoutAdditions(left: Inventory, right: Inventory, allowed: set<string>): Inventory {
    right.(objects := Filtered(right.objects, allowed - Elements(Keys(left.objects))))
  }

  function AllWithoutAdditions(left: map<string, Inventory>, right: map<string, Inventory>, allowed: map<string, set<string>>): map<string, Inventory> {
    map scope | scope in right ::
      if scope in allowed && scope in left then WithoutAdditions(left[scope], right[scope], allowed[scope]) else right[scope]
  }

  function Refusal(left: map<string, Artifact>, right: map<string, Artifact>, path: string, expected: Artifact): Option<CompareError> {
    if path in left then Some(AlreadyExisted(path))
    else if path !in right then Some(Missing(path))
    else if right[path] != expected then Some(NotAsExpected(path))
    else None
  }

  ghost predicate FirstRefusal(left: map<string, Artifact>, right: map<string, Artifact>, additions: seq<(string, Artifact)>, i: nat, e: CompareError) {
    && i < |additions| && Refusal(left, right, additions[i].0, additions[i].1) == Some(e)
    && forall j :: 0 <= j < i ==> Refusal(left, right, additions[j].0, additions[j].1) == None
  }

  ghost predicate Refused(left: map<string, Artifact>, right: map<string, Artifact>, additions: seq<(string, Artifact)>) {
    exists i :: 0 <= i < |additions| && Refusal(left, right, additions[i].0, additions[i].1) != None
  }

  /** The keys of an insertion-ordered dictionary. */
  ghost predicate DistinctPaths(additions: seq<(string, Artifact)>) {
    forall i, j :: 0 <= i < j < |additions| ==> additions[i].0 != additions[j].0
  }

  function Paths(additions: seq<(string, Artifact)>): set<string> {
    set i | 0 <= i < |additions| :: additions[i].0
  }

  function If(test: bool, c: Change): seq<Change> { if test then [c] else [] }

  function Changes(before: Payload, after: Payload, allowed: map<string, set<string>>, paths: set<string>): seq<Change> {
    var left, right := Stable(before), Stable(after);
    If(left.milvus != right.milvus, MilvusChanged)
    + If(left.inventories != AllWithoutAdditions(left.inventories, right.inventories, allowed), MinioChanged)
    + If(left.tables != right.tables, TablesChanged)
    + If(left.artifacts != right.artifacts - paths, ArtifactsChanged)
  }

  method FilterObjects(objects: seq<Item>, allowed: set<string>, existing: set<string>) returns (kept: seq<Item>)
    ensures kept == Filtered(objects, allowed - existing)
  {
    kept := [];
    for i := 0 to |objects|
      invariant kept == Filtered(objects[..i], allowed - existing)
    {
      FilteredStep(objects, i, allowed - existing);
      if !(objects[i].key in allowed && objects[i].key !in existing) { kept := kept + [objects[i]]; }
    }
    assert objects[..|objects|] == objects;
  }

  lemma {:induction false} FilteredConcat(a: seq<Item>, b: seq<Item>, dropped: set<string>)
    ensures Filtered(a + b, dropped) == Filtered(a, dropped) + Filtered(b, dropped)
  {
    if a == [] {
      assert a + b == b;
    } else {
      assert (a + b)[1..] == a[1..] + b;
      FilteredConcat(a[1..], b, dropped);
    }
  }

  lemma FilteredStep(objects: seq<Item>, i: nat, dropped: set<string>)
    requires i < |objects|
    ensures Filtered(objects[..i + 1], dropped) == Filtered(objects[..i], dropped) + if objects[i].key in dropped then [] else [objects[i]]
  {
    assert objects[..i + 1] == objects[..i] + [objects[i]];
    FilteredConcat(objects[..i], [objects[i]], dropped);
  }

  /** The later inventories after the scopes in `done` are edited. */
  ghost predicate EditedFor(left: map<string, Inventory>, right: map<string, Inventory>, allowed: map<string, set<string>>,
                            done: set<string>, edited: map<string, Inventory>)
  {
    && edited.Keys == right.Keys && done <= allowed.Keys
    && forall scope :: scope in right ==>
         edited[scope] == (if scope in done && scope in left then WithoutAdditions(left[scope], right[scope], allowed[scope]) else right[scope])
  }

  lemma EditedStep(left: map<string, Inventory>, right: map<string, Inventory>, allowed: map<string, set<string>>,
                   done: set<string>, edited: map<string, Inventory>, scope: string)
    requires EditedFor(left, right, allowed, done, edited) && scope in allowed && scope !in done
    ensures !(scope in left && scope in edited) ==> EditedFor(left, right, allowed, done + {scope}, edited)
    ensures scope in left && scope in edited ==>
      EditedFor(left, right, allowed, done + {scope}, edited[scope := WithoutAdditions(left[scope], edited[scope], allowed[scope])])
  {
  }

  lemma SortedDistinct(keys: set<string>, i: nat)
    requires i < |Sorted(keys)|
    ensures Sorted(keys)[i] in keys && Sorted(keys)[i] !in Elements(Sorted(keys)[..i])
    ensures Elements(Sorted(keys)[..i + 1]) == Elements(Sorted(keys)[..i]) + {Sorted(keys)[i]}
  {
    var sorted := Sorted(keys);
    assert sorted[i] in Elements(sorted) && Elements(sorted) == keys;
    forall j | 0 <= j < i ensures sorted[j] != sorted[i] { KeysDiffer(sorted, j, i); }
    assert sorted[..i + 1] == sorted[..i] + [sorted[i]];
  }

  /** The first loop: it takes the allowed additions out of the copy of the later inventories. */
  method RemoveAdditions(left: map<string, Inventory>, right: map<string, Inventory>, allowed: map<string, set<string>>)
    returns (edited: map<string, Inventory>)
    ensures edited == AllWithoutAdditions(left, right, allowed)
  {
    edited := right;
    var scopes := Sorted(allowed.Keys);
    for k := 0 to |scopes|
      invariant EditedFor(left, right, allowed, Elements(scopes[..k]), edited)
    {
      var scope := scopes[k];
      SortedDistinct(allowed.Keys, k);
      EditedStep(left, right, allowed, Elements(scopes[..k]), edited, scope);
      if scope in left && scope in edited {
        var kept := FilterObjects(edited[scope].objects, allowed[scope], Elements(Keys(left[scope].objects)));
        edited := edited[scope := edited[scope].(objects := kept)];
      }
    }
    assert scopes[..|scopes|] == scopes;
  }

  /** `compare_protected_payloads`. */
  method CompareProtectedPayloads(before: Payload, after: Payload, allowed: map<string, set<string>>, additions: seq<(string, Artifact)>)
    returns (r: Result<seq<Change>, CompareError>)
    requires DistinctPaths(additions)
    ensures r.Err? ==> exists i :: FirstRefusal(before.artifacts, after.artifacts, additions, i, r.error)
    ensures r.Err? <==> Refused(before.artifacts, after.artifacts, additions)
    ensures r.Ok? ==> r.value == Changes(before, after, allowed, Paths(additions))
  {
    var left, right := Stable(before), Stable(after);
    var inventories := RemoveAdditions(left.inventories, right.inventories, allowed);
    var artifacts := right.artifacts;
    for i := 0 to |additions|
      invariant artifacts == right.artifacts - Paths(additions[..i])
      invariant forall j :: 0 <= j < i ==> Refusal(left.artifacts, right.artifacts, additions[j].0, additions[j].1) == None
    {
      var (path, expected) := additions[i];
      assert path !in Paths(additions[..i]);
      if path in left.artifacts {
        r := Err(AlreadyExisted(path));
        assert FirstRefusal(before.artifacts, after.artifacts, additions, i, r.error);
        return;
      }
      if path !in artifacts {
        r := Err(Missing(path));
        assert FirstRefusal(before.artifacts, after.artifacts, additions, i, r.error);
        return;
      }
      if artifacts[path] != expected {
        r := Err(NotAsExpected(path));
        assert FirstRefusal(before.artifacts, after.artifacts, additions, i, r.error);
        return;
      }
      assert Paths(additions[..i + 1]) == Paths(additions[..i]) + {path};
      artifacts := artifacts - {path};
    }
    assert additions[..|additions|] == additions;
    r := Ok(If(left.milvus != right.milvus, MilvusChanged)
            + If(left.inventories != inventories, MinioChanged)
            + If(left.tables != right.tables, TablesChanged)
            + If(left.artifacts != artifacts, ArtifactsChanged));
  }

  // ---------------------------------------------------------------- when the objects compare equal

  /** What a listing shows of a baseline's objects. */
  function Shown(objects: seq<Item>): (ids: seq<Identity>)
    ensures |ids| == |objects| && forall i :: 0 <= i < |ids| ==> ids[i] == IdentityOf(objects[i])
  {
    seq(|objects|, i requires 0 <= i < |objects| => IdentityOf(objects[i]))
  }

  ghost predicate DistinctIds(ids: seq<Identity>) { forall i, j :: 0 <= i < j < |ids| ==> ids[i].key != ids[j].key }

  /** Identities by key: size, etag and version of each object. */
  ghost function Index(ids: seq<Identity>): (m: map<string, Identity>)
    requires DistinctIds(ids)
    ensures forall key :: key in m ==> m[key] in ids && m[key].key == key
    ensures forall i :: 0 <= i < |ids| ==> ids[i].key in m && m[ids[i].key] == ids[i]
  {
    map i | 0 <= i < |ids| :: ids[i].key := ids[i]
  }

  lemma {:induction false} FilteredMembers(objects: seq<Item>, dropped: set<string>)
    ensures forall x :: x in Filtered(objects, dropped) <==> x in objects && x.key !in dropped
  {
    if objects != [] {
      FilteredMembers(objects[1..], dropped);
      assert objects == [objects[0]] + objects[1..];
    }
  }

  lemma IncreasingCons(x: Item, rest: seq<Item>, kept: seq<Item>)
    requires Increasing([x.key] + Keys(rest)) && Increasing(Keys(kept)) && forall y :: y in kept ==> y in rest
    ensures Increasing([x.key] + Keys(kept))
  {
    if kept != [] {
      assert kept[0] in rest;
      var j :| 0 <= j < |rest| && rest[j] == kept[0];
      assert Lt(([x.key] + Keys(rest))[0], ([x.key] + Keys(rest))[j + 1]);
      BelowFirst(x.key, Keys(kept));
    }
  }

  lemma {:induction false} FilteredIncreasing(objects: seq<Item>, dropped: set<string>)
    requires Increasing(Keys(objects))
    ensures Increasing(Keys(Filtered(objects, dropped)))
  {
    if objects != [] {
      var x, rest := objects[0], objects[1..];
      assert objects == [x] + rest;
      KeysCons(x, rest);
      IncreasingTail([x.key] + Keys(rest));
      assert ([x.key] + Keys(rest))[1..] == Keys(rest);
      FilteredIncreasing(rest, dropped);
      FilteredMembers(rest, dropped);
      if x.key in dropped {
        assert Filtered(objects, dropped) == [] + Filtered(rest, dropped) == Filtered(rest, dropped);
      } else {
        IncreasingCons(x, rest, Filtered(rest, dropped));
        KeysCons(x, Filtered(rest, dropped));
      }
    }
  }

  /** The old objects are listed as they were. */
  ghost predicate OldUnchanged(was: map<string, Identity>, now: map<string, Identity>) {
    forall key :: key in was ==> key in now && now[key] == was[key]
  }

  /** Whatever else is listed is allowed. */
  ghost predicate NewAllowed(was: map<string, Identity>, now: map<string, Identity>, allowed: set<string>) {
    forall key :: key in now && key !in was ==> key in allowed
  }

  ghost predicate OnlyAllowedAdded(objects: seq<Item>, ids: seq<Identity>, allowed: set<string>)
    requires BaselineOk(objects) && ListingOk(ids)
  {
    OldUnchanged(Index(Shown(objects)), Index(ids)) && NewAllowed(Index(Shown(objects)), Index(ids), allowed)
  }

  /** A merged object is the old one exactly when the listing shows the same identity. */
  lemma MergedIsOld(objects: seq<Item>, id: Identity, b: Item)
    requires BaselineOk(objects) && b in objects && id.etag == Strip(id.etag)
    ensures Merged(ByKey(objects), id) == b <==> IdentityOf(b) == id
  {
  }

  lemma MergedKey(objects: seq<Item>, id: Identity)
    requires BaselineOk(objects)
    ensures Merged(ByKey(objects), id).key == id.key
  {
  }

  ghost predicate Stripped(ids: seq<Identity>) { forall i :: 0 <= i < |ids| ==> ids[i].etag == Strip(ids[i].etag) }

  lemma ListedStripped(listing: seq<Listed>)
    ensures Stripped(Identities(listing))
  {
    forall i | 0 <= i < |listing| ensures Identities(listing)[i].etag == Strip(Identities(listing)[i].etag) { StripTwice(listing[i].etag); }
  }

  /** The objects that are compared with the baseline: exactly the merged ones that are old or not allowed. */
  ghost function Compared(objects: seq<Item>, ids: seq<Identity>, allowed: set<string>): seq<Item>
    requires BaselineOk(objects)
  {
    Filtered(SortByKey(MergedAll(ByKey(objects), ids)), allowed - Elements(Keys(objects)))
  }

  lemma ComparedMembers(objects: seq<Item>, ids: seq<Identity>, allowed: set<string>)
    requires BaselineOk(objects) && ListingOk(ids)
    ensures Increasing(Keys(Compared(objects, ids, allowed)))
    ensures forall x :: x in Compared(objects, ids, allowed) <==>
      x in MergedAll(ByKey(objects), ids) && (x.key !in allowed || x.key in Keys(objects))
  {
    var merged := MergedAll(ByKey(objects), ids);
    SortedByKey(merged);
    FilteredIncreasing(SortByKey(merged), allowed - Elements(Keys(objects)));
    FilteredMembers(SortByKey(merged), allowed - Elements(Keys(objects)));
  }

  lemma KeysOfMap(objects: seq<Item>, key: string)
    requires BaselineOk(objects)
    ensures key in Keys(objects) <==> key in ByKey(objects)
  {
    if key in Keys(objects) {
      var i :| 0 <= i < |objects| && Keys(objects)[i] == key;
      assert objects[i] in objects;
    }
    if key in ByKey(objects) {
      var i :| 0 <= i < |objects| && objects[i] == ByKey(objects)[key];
      assert Keys(objects)[i] == key;
    }
  }

  lemma KeysOfIndex(objects: seq<Item>, key: string)
    requires BaselineOk(objects)
    ensures key in Keys(objects) <==> key in Index(Shown(objects))
  {
    var ids := Shown(objects);
    if key in Keys(objects) {
      var i :| 0 <= i < |objects| && Keys(objects)[i] == key;
      assert ids[i].key == key;
    }
    if key in Index(ids) {
      var i :| 0 <= i < |ids| && ids[i] == Index(ids)[key];
      assert Keys(objects)[i] == key;
    }
  }

  lemma ShownIdentity(objects: seq<Item>, i: nat)
    requires BaselineOk(objects) && i < |objects|
    ensures objects[i].key in ByKey(objects) && ByKey(objects)[objects[i].key] == objects[i]
    ensures objects[i].key in Index(Shown(objects)) && Index(Shown(objects))[objects[i].key] == IdentityOf(objects[i])
  {
    assert objects[i] in objects;
    assert Shown(objects)[i] == IdentityOf(objects[i]);
  }

  lemma OldKeys(objects: seq<Item>, key: string)
    requires BaselineOk(objects)
    ensures key in Keys(objects) <==> key in Index(Shown(objects))
    ensures key in Keys(objects) <==> key in ByKey(objects)
    ensures key in Keys(objects) ==> Index(Shown(objects))[key] == IdentityOf(ByKey(objects)[key])
  {
    KeysOfMap(objects, key);
    KeysOfIndex(objects, key);
    if key in Keys(objects) {
      var i :| 0 <= i < |objects| && Keys(objects)[i] == key;
      ShownIdentity(objects, i);
    }
  }

  lemma OldObjectListed(objects: seq<Item>, ids: seq<Identity>, allowed: set<string>, key: string)
    requires BaselineOk(objects) && ListingOk(ids) && Stripped(ids) && Compared(objects, ids, allowed) == objects
    requires key in Index(Shown(objects))
    ensures key in Index(ids) && Index(ids)[key] == Index(Shown(objects))[key]
  {
    OldKeys(objects, key);
    var b := ByKey(objects)[key];
    ComparedMembers(objects, ids, allowed);
    assert b in MergedAll(ByKey(objects), ids);
    var i :| 0 <= i < |ids| && Merged(ByKey(objects), ids[i]) == b;
    MergedIsOld(objects, ids[i], b);
    assert ids[i] in ids;
  }

  lemma NewObjectAllowed(objects: seq<Item>, ids: seq<Identity>, allowed: set<string>, i: nat)
    requires BaselineOk(objects) && ListingOk(ids) && Compared(objects, ids, allowed) == objects
    requires i < |ids| && ids[i].key !in allowed
    ensures ids[i].key in Index(Shown(objects))
  {
    var x := MergedAll(ByKey(objects), ids)[i];
    MergedKey(objects, ids[i]);
    ComparedMembers(objects, ids, allowed);
    assert x in objects;
    var j :| 0 <= j < |objects| && objects[j] == x;
    assert Keys(objects)[j] == ids[i].key;
    OldKeys(objects, ids[i].key);
  }

  lemma OldObjectsListed(objects: seq<Item>, ids: seq<Identity>, allowed: set<string>)
    requires BaselineOk(objects) && ListingOk(ids) && Stripped(ids) && Compared(objects, ids, allowed) == objects
    ensures OldUnchanged(Index(Shown(objects)), Index(ids))
  {
    forall key | key in Index(Shown(objects)) ensures key in Index(ids) && Index(ids)[key] == Index(Shown(objects))[key] {
      OldObjectListed(objects, ids, allowed, key);
    }
  }

  lemma NewObjectsAllowed(objects: seq<Item>, ids: seq<Identity>, allowed: set<string>)
    requires BaselineOk(objects) && ListingOk(ids) && Compared(objects, ids, allowed) == objects
    ensures NewAllowed(Index(Shown(objects)), Index(ids), allowed)
  {
    forall key | key in Index(ids) && key !in Index(Shown(objects)) ensures key in allowed {
      var i :| 0 <= i < |ids| && ids[i] == Index(ids)[key];
      if ids[i].key !in allowed { NewObjectAllowed(objects, ids, allowed, i); }
    }
  }

  /** From equal objects to equal identities. */
  lemma EqualObjects(objects: seq<Item>, ids: seq<Identity>, allowed: set<string>)
    requires BaselineOk(objects) && ListingOk(ids) && Stripped(ids) && Compared(objects, ids, allowed) == objects
    ensures OnlyAllowedAdded(objects, ids, allowed) && Increasing(Keys(objects))
  {
    ComparedMembers(objects, ids, allowed);
    OldObjectsListed(objects, ids, allowed);
    NewObjectsAllowed(objects, ids, allowed);
  }

  lemma OldIsCompared(objects: seq<Item>, ids: seq<Identity>, x: Item)
    requires BaselineOk(objects) && ListingOk(ids) && Stripped(ids) && OldUnchanged(Index(Shown(objects)), Index(ids)) && x in objects
    ensures x in MergedAll(ByKey(objects), ids) && x.key in Keys(objects)
  {
    var j :| 0 <= j < |objects| && objects[j] == x;
    ShownIdentity(objects, j);
    assert Keys(objects)[j] == x.key;
    var id := Index(ids)[x.key];
    var i :| 0 <= i < |ids| && ids[i] == id;
    MergedIsOld(objects, id, x);
    assert MergedAll(ByKey(objects), ids)[i] == x;
  }

  lemma ComparedIsOld(objects: seq<Item>, ids: seq<Identity>, allowed: set<string>, i: nat)
    requires BaselineOk(objects) && ListingOk(ids) && Stripped(ids) && OnlyAllowedAdded(objects, ids, allowed) && i < |ids|
    requires ids[i].key !in allowed || ids[i].key in Keys(objects)
    ensures Merged(ByKey(objects), ids[i]) in objects
  {
    var key := ids[i].key;
    assert key in Index(ids) && Index(ids)[key] == ids[i];
    OldKeys(objects, key);
    MergedIsOld(objects, ids[i], ByKey(objects)[key]);
  }

  lemma ComparedAreOld(objects: seq<Item>, ids: seq<Identity>, allowed: set<string>, x: Item)
    requires BaselineOk(objects) && ListingOk(ids) && Stripped(ids) && OnlyAllowedAdded(objects, ids, allowed)
    requires x in MergedAll(ByKey(objects), ids) && (x.key !in allowed || x.key in Keys(objects))
    ensures x in objects
  {
    var i :| 0 <= i < |ids| && Merged(ByKey(objects), ids[i]) == x;
    MergedKey(objects, ids[i]);
    ComparedIsOld(objects, ids, allowed, i);
  }

  /** From equal identities to equal objects. */
  lemma EqualIdentities(objects: seq<Item>, ids: seq<Identity>, allowed: set<string>)
    requires BaselineOk(objects) && ListingOk(ids) && Stripped(ids) && OnlyAllowedAdded(objects, ids, allowed) && Increasing(Keys(objects))
    ensures Compared(objects, ids, allowed) == objects
  {
    ComparedMembers(objects, ids, allowed);
    forall x ensures x in Compared(objects, ids, allowed) <==> x in objects {
      if x in objects { OldIsCompared(objects, ids, x); }
      if x in Compared(objects, ids, allowed) { ComparedAreOld(objects, ids, allowed, x); }
    }
    KeyedUnique(Compared(objects, ids, allowed), objects);
  }

  // ---------------------------------------------------------------- main results

  /** The inventory that merging yields. */
  ghost function MergedInventory(baseline: Inventory, policy: string, ids: seq<Identity>, now: string): Inventory
    requires BaselineOk(baseline.objects)
  {
    Inventory(policy, SortByKey(MergedAll(ByKey(baseline.objects), ids)), now, "listing-reuse-before-content-hashes", baseline.rest)
  }

  /**
   A merged inventory compares equal exactly when the policy is the same, the old objects are listed with the
   same size, etag and version, every further key is allowed, and the baseline is in key order.
   */
  lemma MergeComparesEqualIff(baseline: Inventory, policy: string, listing: seq<Listed>, now: string, allowed: set<string>)
    requires BaselineOk(baseline.objects) && ListingOk(Identities(listing))
    ensures StableInventory(baseline)
              == WithoutAdditions(StableInventory(baseline), StableInventory(MergedInventory(baseline, policy, Identities(listing), now)), allowed)
            <==> policy == baseline.policy && OnlyAllowedAdded(baseline.objects, Identities(listing), allowed) && Increasing(Keys(baseline.objects))
  {
    var objects, ids := baseline.objects, Identities(listing);
    ListedStripped(listing);
    if Compared(objects, ids, allowed) == objects { EqualObjects(objects, ids, allowed); }
    if OnlyAllowedAdded(objects, ids, allowed) && Increasing(Keys(objects)) { EqualIdentities(objects, ids, allowed); }
  }

  /** A baseline that lists "b" before "a", and a bucket that did not change since. */
  lemma UnsortedBaselineReported() returns (baseline: Inventory, listing: seq<Listed>)
    ensures BaselineOk(baseline.objects) && ListingOk(Identities(listing))
    ensures Index(Shown(baseline.objects)) == Index(Identities(listing))
    ensures StableInventory(baseline) != StableInventory(MergedInventory(baseline, baseline.policy, Identities(listing), ""))
  {
    var a, b := Item("a", 0, "e", None, "", "", None, None), Item("b", 0, "e", None, "", "", None, None);
    baseline := Inventory("", [b, a], "", "", "");
    listing := [Listed("b", 0, "e", None), Listed("a", 0, "e", None)];
    assert Strip("e") == "e";
    assert Identities(listing) == Shown(baseline.objects);
    assert Keys(baseline.objects)[0] == "b" && Keys(baseline.objects)[1] == "a" && !Lt("b", "a");
    MergeComparesEqualIff(baseline, "", listing, "", {});
    NothingFiltered(StableInventory(baseline), StableInventory(MergedInventory(baseline, "", Identities(listing), "")));
  }

  lemma NothingAllowed(was: map<string, Identity>, now: map<string, Identity>)
    ensures OldUnchanged(was, now) && NewAllowed(was, now, {}) <==> was == now
  {
  }

  /** With nothing allowed, and a baseline in key order: nothing changed exactly when both show the same objects. */
  lemma ListingReuseAgrees(baseline: Inventory, policy: string, listing: seq<Listed>, now: string)
    requires BaselineOk(baseline.objects) && ListingOk(Identities(listing)) && Increasing(Keys(baseline.objects))
    ensures StableInventory(baseline) == StableInventory(MergedInventory(baseline, policy, Identities(listing), now))
            <==> policy == baseline.policy && Index(Shown(baseline.objects)) == Index(Identities(listing))
  {
    MergeComparesEqualIff(baseline, policy, listing, now, {});
    NothingFiltered(StableInventory(baseline), StableInventory(MergedInventory(baseline, policy, Identities(listing), now)));
    NothingAllowed(Index(Shown(baseline.objects)), Index(Identities(listing)));
  }

  lemma NothingFiltered(left: Inventory, right: Inventory)
    ensures WithoutAdditions(left, right, {}) == right
  {
    FilteredNothing(right.objects, {} - Elements(Keys(left.objects)));
  }

  lemma {:induction false} FilteredNothing(objects: seq<Item>, dropped: set<string>)
    requires dropped == {}
    ensures Filtered(objects, dropped) == objects
  {
    if objects != [] {
      FilteredNothing(objects[1..], dropped);
      assert objects == [objects[0]] + objects[1..];
    }
  }

  // ---------------------------------------------------------------- additions of a shadow collection

  datatype ShadowError = NoCollectionId | ForeignSegment | BlankSegment | NoScope

  datatype Segment = Segment(collection: string, id: string)

  /** The keys of a scope, the blank one left out. */
  function ScopeKeys(inv: Inventory): set<string> { Elements(Keys(inv.objects)) - {""} }

  predicate Attributable(key: string, tokens: set<string>) {
    exists part :: part in Split(key, '/') && part != "" && part in tokens
  }

  predicate Usable(collection: string, x: Segment) { x.collection == collection && x.id != "" }

  /** The first segment that belongs to another collection or has no id. */
  ghost predicate FirstBad(collection: string, segments: seq<Segment>, i: nat) {
    i < |segments| && !Usable(collection, segments[i]) && forall j :: 0 <= j < i ==> Usable(collection, segments[j])
  }

  function Tokens(collection: string, segments: seq<Segment>): set<string> {
    {collection} + set i | 0 <= i < |segments| :: segments[i].id
  }

  function AttributedKeys(before: Inventory, after: Inventory, tokens: set<string>): set<string> {
    set key | key in ScopeKeys(after) - ScopeKeys(before) && Attributable(key, tokens)
  }

  /** `identify_shadow_minio_additions`: the attributed keys in order. */
  method IdentifyShadowAdditions(before: map<string, Inventory>, after: map<string, Inventory>, scope: string,
                                 collection: string, segments: seq<Segment>) returns (r: Result<seq<string>, ShadowError>)
    ensures r.Ok? <==> collection != "" && scope in before && scope in after
                       && forall i :: 0 <= i < |segments| ==> Usable(collection, segments[i])
    ensures r.Ok? ==> r.value == Sorted(AttributedKeys(before[scope], after[scope], Tokens(collection, segments)))
    ensures r == Err(NoCollectionId) <==> collection == ""
    ensures r == Err(ForeignSegment) <==> collection != "" && exists i: nat :: FirstBad(collection, segments, i) && segments[i].collection != collection
    ensures r == Err(BlankSegment) <==> collection != "" && exists i: nat :: FirstBad(collection, segments, i) && segments[i].collection == collection
    ensures r == Err(NoScope) <==> collection != "" && (forall i :: 0 <= i < |segments| ==> Usable(collection, segments[i])) && (scope !in before || scope !in after)
  {
    if collection == "" { return Err(NoCollectionId); }
    var tokens := {collection};
    for i := 0 to |segments|
      invariant tokens == Tokens(collection, segments[..i])
      invariant forall j :: 0 <= j < i ==> Usable(collection, segments[j])
    {
      assert !Usable(collection, segments[i]) ==> FirstBad(collection, segments, i);
      if segments[i].collection != collection { return Err(ForeignSegment); }
      if segments[i].id == "" { return Err(BlankSegment); }
      assert Tokens(collection, segments[..i + 1]) == Tokens(collection, segments[..i]) + {segments[i].id};
      tokens := tokens + {segments[i].id};
    }
    assert segments[..|segments|] == segments;
    if scope !in after || scope !in before { return Err(NoScope); }
    r := Ok(Sorted(AttributedKeys(before[scope], after[scope], tokens)));
  }

  /** The comparison finds no difference in a scope once the attributed keys are allowed. */
  ghost predicate PassesWith(left: Inventory, right: Inventory, tokens: set<string>) {
    StableInventory(left) == WithoutAdditions(StableInventory(left), StableInventory(right), AttributedKeys(left, right, tokens))
  }

  /** Every key that was added belongs to the shadow collection. */
  ghost predicate AddedAreAttributable(was: map<string, Identity>, now: map<string, Identity>, tokens: set<string>) {
    forall key :: key in now && key !in was ==> Attributable(key, tokens)
  }

  lemma MergedKeyListed(objects: seq<Item>, ids: seq<Identity>, i: nat)
    requires BaselineOk(objects) && ListingOk(ids) && i < |SortByKey(MergedAll(ByKey(objects), ids))|
    ensures SortByKey(MergedAll(ByKey(objects), ids))[i].key in Index(ids)
  {
    var merged := MergedAll(ByKey(objects), ids);
    SortedByKey(merged);
    assert SortByKey(merged)[i] in merged;
    var j :| 0 <= j < |merged| && merged[j] == SortByKey(merged)[i];
    MergedKey(objects, ids[j]);
  }

  lemma ListedKeyMerged(objects: seq<Item>, ids: seq<Identity>, j: nat)
    requires BaselineOk(objects) && ListingOk(ids) && j < |ids|
    ensures ids[j].key in Keys(SortByKey(MergedAll(ByKey(objects), ids)))
  {
    var merged := MergedAll(ByKey(objects), ids);
    SortedByKey(merged);
    MergedKey(objects, ids[j]);
    assert merged[j] in SortByKey(merged);
    var i :| 0 <= i < |SortByKey(merged)| && SortByKey(merged)[i] == merged[j];
    assert Keys(SortByKey(merged))[i] == ids[j].key;
  }

  lemma MergedKeys(objects: seq<Item>, ids: seq<Identity>)
    requires BaselineOk(objects) && ListingOk(ids)
    ensures Elements(Keys(SortByKey(MergedAll(ByKey(objects), ids)))) == Index(ids).Keys
  {
    var sorted := SortByKey(MergedAll(ByKey(objects), ids));
    forall key | key in Keys(sorted) ensures key in Index(ids) {
      var i :| 0 <= i < |sorted| && Keys(sorted)[i] == key;
      MergedKeyListed(objects, ids, i);
    }
    forall key | key in Index(ids) ensures key in Keys(sorted) {
      var j :| 0 <= j < |ids| && ids[j] == Index(ids)[key];
      ListedKeyMerged(objects, ids, j);
    }
  }

  /**
   With the attributed keys allowed, the comparison passes exactly when the old objects are unchanged and
   every added key is attributable to the shadow collection.
   */
  lemma ShadowAttributionExact(baseline: Inventory, policy: string, listing: seq<Listed>, now: string, tokens: set<string>)
    requires BaselineOk(baseline.objects) && ListingOk(Identities(listing)) && Increasing(Keys(baseline.objects))
    ensures PassesWith(baseline, MergedInventory(baseline, policy, Identities(listing), now), tokens)
            <==> policy == baseline.policy && OldUnchanged(Index(Shown(baseline.objects)), Index(Identities(listing)))
                 && AddedAreAttributable(Index(Shown(baseline.objects)), Index(Identities(listing)), tokens)
  {
    var right := MergedInventory(baseline, policy, Identities(listing), now);
    MergeComparesEqualIff(baseline, policy, listing, now, AttributedKeys(baseline, right, tokens));
    AttributedAreAllowed(baseline, policy, Identities(listing), now, tokens);
  }

  lemma ScopeKeysOfBaseline(baseline: Inventory)
    requires BaselineOk(baseline.objects)
    ensures ScopeKeys(baseline) == Index(Shown(baseline.objects)).Keys - {""}
  {
    forall key ensures key in Elements(Keys(baseline.objects)) <==> key in Index(Shown(baseline.objects)) {
      KeysOfIndex(baseline.objects, key);
    }
  }

  lemma NoBlankKey(ids: seq<Identity>)
    requires ListingOk(ids)
    ensures "" !in Index(ids)
  {
    forall key | key in Index(ids) ensures key != "" {
      var i :| 0 <= i < |ids| && ids[i] == Index(ids)[key];
      assert ids[i].key != "";
    }
  }

  lemma AddedKeyAttributed(baseline: Inventory, right: Inventory, ids: seq<Identity>, tokens: set<string>, key: string)
    requires BaselineOk(baseline.objects) && ListingOk(ids) && Elements(Keys(right.objects)) == Index(ids).Keys
    requires key in Index(ids) && key !in Index(Shown(baseline.objects))
    ensures key in AttributedKeys(baseline, right, tokens) <==> Attributable(key, tokens)
  {
    ScopeKeysOfBaseline(baseline);
    NoBlankKey(ids);
  }

  lemma AttributedAreAllowed(baseline: Inventory, policy: string, ids: seq<Identity>, now: string, tokens: set<string>)
    requires BaselineOk(baseline.objects) && ListingOk(ids)
    ensures var right := MergedInventory(baseline, policy, ids, now);
      NewAllowed(Index(Shown(baseline.objects)), Index(ids), AttributedKeys(baseline, right, tokens))
      <==> AddedAreAttributable(Index(Shown(baseline.objects)), Index(ids), tokens)
  {
    var right := MergedInventory(baseline, policy, ids, now);
    MergedKeys(baseline.objects, ids);
    forall key | key in Index(ids) && key !in Index(Shown(baseline.objects))
      ensures key in AttributedKeys(baseline, right, tokens) <==> Attributable(key, tokens)
    {
      AddedKeyAttributed(baseline, right, ids, tokens, key);
    }
  }

  // ---------------------------------------------------------------- whole snapshots

  /** Each scope of the later snapshot was merged from the earlier one. */
  ghost predicate MergedScopes(before: map<string, Inventory>, after: map<string, Inventory>,
                               policies: map<string, string>, listings: map<string, seq<Listed>>, times: map<string, string>)
  {
    && before.Keys == after.Keys == policies.Keys == listings.Keys == times.Keys
    && forall scope :: scope in before ==>
      && BaselineOk(before[scope].objects) && Increasing(Keys(before[scope].objects)) && ListingOk(Identities(listings[scope]))
      && after[scope] == MergedInventory(before[scope], policies[scope], Identities(listings[scope]), times[scope])
  }

  ghost predicate ScopeAgrees(baseline: Inventory, policy: string, listing: seq<Listed>)
    requires BaselineOk(baseline.objects) && ListingOk(Identities(listing))
  {
    policy == baseline.policy && Index(Shown(baseline.objects)) == Index(Identities(listing))
  }

  lemma ChangesWithoutAllowances(before: Payload, after: Payload)
    ensures MinioChanged in Changes(before, after, map[], {}) <==> StableInventories(before.inventories) != StableInventories(after.inventories)
    ensures MilvusChanged in Changes(before, after, map[], {}) <==> before.milvus != after.milvus
    ensures TablesChanged in Changes(before, after, map[], {}) <==> before.tables != after.tables
    ensures ArtifactsChanged in Changes(before, after, map[], {}) <==> before.artifacts != after.artifacts
  {
    assert AllWithoutAdditions(Stable(before).inventories, Stable(after).inventories, map[]) == Stable(after).inventories;
    assert Stable(after).artifacts - {} == after.artifacts;
  }

  lemma MergedScopesStable(before: map<string, Inventory>, after: map<string, Inventory>, policies: map<string, string>,
                           listings: map<string, seq<Listed>>, times: map<string, string>, scope: string)
    requires MergedScopes(before, after, policies, listings, times) && scope in before
    ensures StableInventory(before[scope]) == StableInventory(after[scope]) <==> ScopeAgrees(before[scope], policies[scope], listings[scope])
  {
    ListingReuseAgrees(before[scope], policies[scope], listings[scope], times[scope]);
  }

  /** Comparing a snapshot with its listing-based successor reports what compares differently, and nothing else. */
  lemma SnapshotComparisonExact(before: Payload, after: Payload, policies: map<string, string>,
                                listings: map<string, seq<Listed>>, times: map<string, string>)
    requires MergedScopes(before.inventories, after.inventories, policies, listings, times)
    ensures Changes(before, after, map[], {}) == [] <==>
      && before.milvus == after.milvus && before.tables == after.tables && before.artifacts == after.artifacts
      && forall scope :: scope in before.inventories ==> ScopeAgrees(before.inventories[scope], policies[scope], listings[scope])
  {
    ChangesWithoutAllowances(before, after);
    StableEqualIff(before.inventories, after.inventories);
    forall scope | scope in before.inventories
      ensures StableInventory(before.inventories[scope]) == StableInventory(after.inventories[scope]) <==>
        ScopeAgrees(before.inventories[scope], policies[scope], listings[scope])
    {
      MergedScopesStable(before.inventories, after.inventories, policies, listings, times, scope);
    }
    AnyChange(Changes(before, after, map[], {}));
  }

  function AllowedIn(allowed: map<string, set<string>>, scope: string): set<string> { if scope in allowed then allowed[scope] else {} }

  /** The scope has its old objects unchanged, under the same policy, and further ones only where they are allowed. */
  ghost predicate ScopeAllows(baseline: Inventory, policy: string, listing: seq<Listed>, allowed: set<string>)
    requires BaselineOk(baseline.objects) && ListingOk(Identities(listing))
  {
    policy == baseline.policy && OnlyAllowedAdded(baseline.objects, Identities(listing), allowed)
  }

  ghost predicate ScopeAllowed(before: map<string, Inventory>, policies: map<string, string>, listings: map<string, seq<Listed>>,
                               allowed: map<string, set<string>>, scope: string)
  {
    && scope in before && scope in policies && scope in listings
    && BaselineOk(before[scope].objects) && ListingOk(Identities(listings[scope]))
    && ScopeAllows(before[scope], policies[scope], listings[scope], AllowedIn(allowed, scope))
  }

  ghost predicate AllScopesAllow(before: map<string, Inventory>, policies: map<string, string>, listings: map<string, seq<Listed>>,
                                 allowed: map<string, set<string>>)
  {
    forall scope :: scope in before ==> ScopeAllowed(before, policies, listings, allowed, scope)
  }

  lemma ScopeWithAllowances(before: map<string, Inventory>, after: map<string, Inventory>, policies: map<string, string>,
                            listings: map<string, seq<Listed>>, times: map<string, string>, allowed: map<string, set<string>>, scope: string)
    requires MergedScopes(before, after, policies, listings, times) && scope in before
    ensures StableInventories(before)[scope] == AllWithoutAdditions(StableInventories(before), StableInventories(after), allowed)[scope]
            <==> ScopeAllowed(before, policies, listings, allowed, scope)
  {
    var left, right := StableInventory(before[scope]), StableInventory(after[scope]);
    EditedScope(StableInventories(before), StableInventories(after), allowed, scope);
    assert StableInventories(after)[scope] == right && StableInventories(before)[scope] == left;
    MergeComparesEqualIff(before[scope], policies[scope], listings[scope], times[scope], AllowedIn(allowed, scope));
  }

  lemma ScopesWithAllowances(before: map<string, Inventory>, after: map<string, Inventory>, policies: map<string, string>,
                             listings: map<string, seq<Listed>>, times: map<string, string>, allowed: map<string, set<string>>)
    requires MergedScopes(before, after, policies, listings, times)
    ensures StableInventories(before) == AllWithoutAdditions(StableInventories(before), StableInventories(after), allowed)
            <==> AllScopesAllow(before, policies, listings, allowed)
  {
    var left, right := StableInventories(before), AllWithoutAdditions(StableInventories(before), StableInventories(after), allowed);
    EditedKeys(before, after, allowed);
    if left == right {
      forall scope | scope in before ensures ScopeAllowed(before, policies, listings, allowed, scope) {
        ScopeWithAllowances(before, after, policies, listings, times, allowed, scope);
      }
    }
    if AllScopesAllow(before, policies, listings, allowed) {
      forall scope | scope in before ensures left[scope] == right[scope] {
        ScopeWithAllowances(before, after, policies, listings, times, allowed, scope);
      }
      EqualScopes(left, right);
    }
  }

  lemma EditedKeys(before: map<string, Inventory>, after: map<string, Inventory>, allowed: map<string, set<string>>)
    ensures StableInventories(before).Keys == before.Keys
    ensures AllWithoutAdditions(StableInventories(before), StableInventories(after), allowed).Keys == after.Keys
  {
  }

  lemma EditedScope(left: map<string, Inventory>, right: map<string, Inventory>, allowed: map<string, set<string>>, scope: string)
    requires scope in left && scope in right
    ensures AllWithoutAdditions(left, right, allowed)[scope] == WithoutAdditions(left[scope], right[scope], AllowedIn(allowed, scope))
  {
    if scope !in allowed { NothingFiltered(left[scope], right[scope]); }
  }

  lemma ChangesWithAllowances(before: Payload, after: Payload, allowed: map<string, set<string>>, paths: set<string>)
    ensures var changes := Changes(before, after, allowed, paths);
      && (MilvusChanged in changes <==> before.milvus != after.milvus)
      && (TablesChanged in changes <==> before.tables != after.tables)
      && (ArtifactsChanged in changes <==> before.artifacts != after.artifacts - paths)
      && (MinioChanged !in changes <==>
            StableInventories(before.inventories) == AllWithoutAdditions(StableInventories(before.inventories), StableInventories(after.inventories), allowed))
  {
  }

  lemma EqualScopes(left: map<string, Inventory>, right: map<string, Inventory>)
    requires left.Keys == right.Keys
    ensures left == right <==> forall scope :: scope in left ==> left[scope] == right[scope]
  {
  }

  /** With keys and artifacts allowed for some scopes: each change is reported exactly when it is one, scope by scope. */
  lemma AllowedComparisonExact(before: Payload, after: Payload, policies: map<string, string>, listings: map<string, seq<Listed>>,
                               times: map<string, string>, allowed: map<string, set<string>>, paths: set<string>)
    requires MergedScopes(before.inventories, after.inventories, policies, listings, times)
    ensures var changes := Changes(before, after, allowed, paths);
      && (MilvusChanged in changes <==> before.milvus != after.milvus)
      && (TablesChanged in changes <==> before.tables != after.tables)
      && (ArtifactsChanged in changes <==> before.artifacts != after.artifacts - paths)
      && (MinioChanged !in changes <==> AllScopesAllow(before.inventories, policies, listings, allowed))
  {
    ChangesWithAllowances(before, after, allowed, paths);
    ScopesWithAllowances(before.inventories, after.inventories, policies, listings, times, allowed);
  }

  lemma AnyChange(changes: seq<Change>)
    ensures changes == [] <==> MilvusChanged !in changes && MinioChanged !in changes && TablesChanged !in changes && ArtifactsChanged !in changes
  {
    if changes != [] {
      var c := changes[0];
      assert c in changes;
      assert c == MilvusChanged || c == MinioChanged || c == TablesChanged || c == ArtifactsChanged;
    }
  }

  lemma StableEqualIff(left: map<string, Inventory>, right: map<string, Inventory>)
    requires left.Keys == right.Keys
    ensures StableInventories(left) == StableInventories(right) <==>
      forall scope :: scope in left ==> StableInventory(left[scope]) == StableInventory(right[scope])
  {
    if StableInventories(left) == StableInventories(right) {
      forall scope | scope in left ensures StableInventory(left[scope]) == StableInventory(right[scope]) {
        assert StableInventories(left)[scope] == StableInventories(right)[scope];
      }
    }
  }

  /** Allowed artifacts: without a refusal, the rest is unchanged exactly when the later ones are the earlier ones and the additions. */
  lemma ArtifactsPassIff(left: map<string, Artifact>, right: map<string, Artifact>, additions: seq<(string, Artifact)>)
    requires DistinctPaths(additions)
    ensures !Refused(left, right, additions) && left == right - Paths(additions) <==>
      && (forall i :: 0 <= i < |additions| ==> additions[i].0 !in left && additions[i].0 in right && right[additions[i].0] == additions[i].1)
      && right.Keys == left.Keys + Paths(additions) && forall path :: path in left ==> path in right && right[path] == left[path]
  {
    if !Refused(left, right, additions) {
      forall i | 0 <= i < |additions| ensures additions[i].0 !in left && additions[i].0 in right && right[additions[i].0] == additions[i].1 {
        assert Refusal(left, right, additions[i].0, additions[i].1) == None;
      }
    }
    if left == right - Paths(additions) {
      forall path | path in left ensures path in right && right[path] == left[path] {
        assert left[path] == (right - Paths(additions))[path];
      }
    }
  }
}
