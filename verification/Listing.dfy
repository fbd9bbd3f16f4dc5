/** Reusing content hashes by object listing, and comparing protected snapshots (scripts/verify_huiji_provenance_acceptance.py). */
module Listing {
  import opened Results
  import opened Ordering

  // ---------------------------------------------------------------- objects and identities

  datatype Item = Item(
    key: string, size: int, etag: string, version: Option<string>,
    sha1: string, sha256: string, auditEvent: Option<string>, operation: Option<string>)

  /** One entry of a bucket listing. */
  datatype Listed = Listed(key: string, size: int, etag: string, version: Option<string>)

  datatype Identity = Identity(key: string, size: int, etag: string, version: Option<string>)

  /** `rest` holds the fields that the comparison takes as they are. */
  datatype Inventory = Inventory(policy: string, objects: seq<Item>, capturedAt: string, digest: string, rest: string)

  datatype MergeError = BaselineKeys | ListingIdentity

  function StripLeft(s: string): string { if s != "" && s[0] == '"' then StripLeft(s[1..]) else s }

  function StripRight(s: string): string {
    if s != "" && s[|s| - 1] == '"' then StripRight(s[..|s| - 1]) else s
  }

  /** `etag.strip('"')`. */
  function Strip(s: string): string { StripRight(StripLeft(s)) }

  function IdentityOf(item: Item): Identity { Identity(item.key, item.size, Strip(item.etag), item.version) }

  function ListedIdentity(l: Listed): Identity { Identity(l.key, l.size, Strip(l.etag), l.version) }

  lemma {:induction false} StripRightFacts(s: string)
    ensures StripRight(s) == "" || StripRight(s)[|StripRight(s)| - 1] != '"'
    ensures StripRight(s) != "" ==> s != "" && StripRight(s)[0] == s[0]
  {
    if s != "" && s[|s| - 1] == '"' { StripRightFacts(s[..|s| - 1]); }
  }

  lemma {:induction false} StripLeftFacts(s: string)
    ensures StripLeft(s) == "" || StripLeft(s)[0] != '"'
  {
    if s != "" && s[0] == '"' { StripLeftFacts(s[1..]); }
  }

  lemma {:induction false} StripLeftCuts(s: string) returns (n: nat)
    ensures s == seq(n, _ => '"') + StripLeft(s)
  {
    if s != "" && s[0] == '"' {
      n := StripLeftCuts(s[1..]);
      assert s == [s[0]] + s[1..];
      assert ['"'] + seq(n, _ => '"') == seq(n + 1, _ => '"');
      n := n + 1;
    } else {
      n := 0;
    }
  }

  lemma {:induction false} StripRightCuts(s: string) returns (n: nat)
    ensures s == StripRight(s) + seq(n, _ => '"')
  {
    if s != "" && s[|s| - 1] == '"' {
      n := StripRightCuts(s[..|s| - 1]);
      assert s == s[..|s| - 1] + ['"'];
      assert seq(n, _ => '"') + ['"'] == seq(n + 1, _ => '"');
      n := n + 1;
    } else {
      n := 0;
    }
  }

  /** Stripping takes off the quotes at both ends, and all of them. */
  lemma StripExact(s: string) returns (m: nat, n: nat)
    ensures s == seq(m, _ => '"') + (Strip(s) + seq(n, _ => '"'))
    ensures Strip(s) == "" || (Strip(s)[0] != '"' && Strip(s)[|Strip(s)| - 1] != '"')
  {
    m := StripLeftCuts(s);
    n := StripRightCuts(StripLeft(s));
    StripLeftFacts(s);
    StripRightFacts(StripLeft(s));
  }

  /** An etag taken from an identity is its own identity. */
  lemma StripTwice(s: string)
    ensures Strip(Strip(s)) == Strip(s)
  {
    StripLeftFacts(s);
    StripRightFacts(StripLeft(s));
  }

  // ---------------------------------------------------------------- merging a listing with a baseline

  ghost predicate BaselineOk(objects: seq<Item>) {
    && (forall i :: 0 <= i < |objects| ==> objects[i].key != "")
    && forall i, j :: 0 <= i < j < |objects| ==> objects[i].key != objects[j].key
  }

  ghost predicate ListingOk(ids: seq<Identity>) {
    && (forall i :: 0 <= i < |ids| ==> ids[i].key != "" && ids[i].etag != "")
    && forall i, j :: 0 <= i < j < |ids| ==> ids[i].key != ids[j].key
  }

  function Identities(listing: seq<Listed>): (ids: seq<Identity>)
    ensures |ids| == |listing| && forall i :: 0 <= i < |ids| ==> ids[i] == ListedIdentity(listing[i])
  {
    seq(|listing|, i requires 0 <= i < |listing| => ListedIdentity(listing[i]))
  }

  /** The objects of a baseline by key. */
  function ByKey(objects: seq<Item>): (m: map<string, Item>)
    requires BaselineOk(objects)
    ensures forall key :: key in m ==> m[key] in objects && m[key].key == key
    ensures forall b :: b in objects ==> b.key in m && m[b.key] == b
  {
    map i | 0 <= i < |objects| :: objects[i].key := objects[i]
  }

  function Unhashed(id: Identity): Item { Item(id.key, id.size, id.etag, id.version, "", "", None, None) }

  function Merged(byKey: map<string, Item>, id: Identity): Item {
    if id.key in byKey && IdentityOf(byKey[id.key]) == id then byKey[id.key] else Unhashed(id)
  }

  function MergedAll(byKey: map<string, Item>, ids: seq<Identity>): (items: seq<Item>)
    ensures |items| == |ids| && forall i :: 0 <= i < |ids| ==> items[i] == Merged(byKey, ids[i])
  {
    seq(|ids|, i requires 0 <= i < |ids| => Merged(byKey, ids[i]))
  }

  function Keys(items: seq<Item>): (keys: seq<string>)
    ensures |keys| == |items| && forall i :: 0 <= i < |keys| ==> keys[i] == items[i].key
  {
    seq(|items|, i requires 0 <= i < |items| => items[i].key)
  }

  /** `sorted(items, key=object_key)`, which is stable. */
  function SortByKey(items: seq<Item>): seq<Item> {
    if items == [] then [] else InsertByKey(items[0], SortByKey(items[1..]))
  }

  function InsertByKey(item: Item, sorted: seq<Item>): seq<Item> {
    if sorted == [] || Le(item.key, sorted[0].key) then [item] + sorted else [sorted[0]] + InsertByKey(item, sorted[1..])
  }

  /** `merge_listing_inventory_with_baseline`. */
  method MergeListing(baseline: Inventory, policy: string, listing: seq<Listed>, now: string) returns (r: Result<Inventory, MergeError>)
    ensures !BaselineOk(baseline.objects) ==> r == Err(BaselineKeys)
    ensures BaselineOk(baseline.objects) && !ListingOk(Identities(listing)) ==> r == Err(ListingIdentity)
    ensures BaselineOk(baseline.objects) && ListingOk(Identities(listing)) ==>
      r == Ok(Inventory(policy, SortByKey(MergedAll(ByKey(baseline.objects), Identities(listing))), now,
                        "listing-reuse-before-content-hashes", baseline.rest))
  {
    var byKey: map<string, Item> := map[];
    for i := 0 to |baseline.objects|
      invariant BaselineOk(baseline.objects[..i]) && byKey == ByKey(baseline.objects[..i])
    {
      var item := baseline.objects[i];
      assert baseline.objects[..i + 1] == baseline.objects[..i] + [item];
      if item.key == "" || item.key in byKey {
        assert !BaselineOk(baseline.objects) by {
          if item.key in byKey {
            var j :| 0 <= j < i && baseline.objects[..i][j] == byKey[item.key];
            assert baseline.objects[j].key == item.key;
          }
        }
        return Err(BaselineKeys);
      }
      BaselineOkStep(baseline.objects[..i], item);
      ByKeyStep(baseline.objects[..i], item);
      byKey := byKey[item.key := item];
    }
    assert baseline.objects[..|baseline.objects|] == baseline.objects;
    r := MergeIdentities(baseline, byKey, policy, listing, now);
  }

  lemma BaselineOkStep(objects: seq<Item>, item: Item)
    requires BaselineOk(objects) && item.key != "" && item.key !in ByKey(objects)
    ensures BaselineOk(objects + [item])
  {
    assert forall i :: 0 <= i < |objects| ==> objects[i] in objects;
  }

  lemma ByKeyStep(objects: seq<Item>, item: Item)
    requires BaselineOk(objects) && BaselineOk(objects + [item]) && item.key !in ByKey(objects)
    ensures ByKey(objects + [item]) == ByKey(objects)[item.key := item]
  {
    var m, n := ByKey(objects + [item]), ByKey(objects)[item.key := item];
    forall key ensures key in m ==> key in n && n[key] == m[key] {
      if key in m { assert m[key] in objects || m[key] == item; }
    }
    forall key ensures key in n ==> key in m {
      if key in n { assert n[key] in objects + [item]; }
    }
  }

  method MergeIdentities(baseline: Inventory, byKey: map<string, Item>, policy: string, listing: seq<Listed>, now: string)
    returns (r: Result<Inventory, MergeError>)
    ensures r == if ListingOk(Identities(listing))
                 then Ok(Inventory(policy, SortByKey(MergedAll(byKey, Identities(listing))), now, "listing-reuse-before-content-hashes", baseline.rest))
                 else Err(ListingIdentity)
  {
    var merged: seq<Item> := [];
    var seen: set<string> := {};
    ghost var ids := Identities(listing);
    for i := 0 to |listing|
      invariant ListingOk(ids[..i]) && merged == MergedAll(byKey, ids[..i])
      invariant seen == set j | 0 <= j < i :: ids[j].key
    {
      var identity := ListedIdentity(listing[i]);
      var key := identity.key;
      assert ids[i] == identity;
      if key == "" || identity.etag == "" || key in seen {
        assert !ListingOk(ids);
        return Err(ListingIdentity);
      }
      assert ids[..i + 1] == ids[..i] + [identity];
      seen := seen + {key};
      merged := merged + [Merged(byKey, identity)];
    }
    assert ids[..|listing|] == ids;
    r := Ok(Inventory(policy, SortByKey(merged), now, "listing-reuse-before-content-hashes", baseline.rest));
  }

  // ---------------------------------------------------------------- sorting

  lemma KeysCons(x: Item, rest: seq<Item>)
    ensures Keys([x] + rest) == [x.key] + Keys(rest)
  {
  }

  lemma AboveAll(first: Item, rest: seq<Item>, item: Item, r: seq<Item>)
    requires Increasing([first.key] + Keys(rest)) && Lt(first.key, item.key) && Increasing(Keys(r))
    requires forall x :: x in r <==> x == item || x in rest
    ensures Increasing(Keys([first] + r))
  {
    KeysCons(first, r);
    forall i | 0 <= i < |r| ensures Lt(first.key, r[i].key) {
      assert r[i] in r;
      if r[i] != item {
        var j :| 0 <= j < |rest| && rest[j] == r[i];
        assert Lt(([first.key] + Keys(rest))[0], ([first.key] + Keys(rest))[j + 1]);
      }
    }
  }

  lemma {:induction false} InsertedByKey(item: Item, sorted: seq<Item>)
    requires Increasing(Keys(sorted)) && item.key !in Keys(sorted)
    ensures Increasing(Keys(InsertByKey(item, sorted)))
    ensures forall x :: x in InsertByKey(item, sorted) <==> x == item || x in sorted
  {
    KeysCons(item, sorted);
    if sorted != [] {
      var first, rest := sorted[0], sorted[1..];
      assert sorted == [first] + rest;
      KeysCons(first, rest);
      assert Keys(sorted)[0] == first.key && first.key != item.key;
      if Le(item.key, first.key) {
        BelowFirst(item.key, Keys(sorted));
      } else {
        IncreasingTail(Keys(sorted));
        assert Keys(sorted)[1..] == Keys(rest);
        LeTotal(item.key, first.key);
        InsertedByKey(item, rest);
        AboveAll(first, rest, item, InsertByKey(item, rest));
      }
    }
  }

  lemma BelowFirst(x: string, keys: seq<string>)
    requires keys != [] && Increasing(keys) && Lt(x, keys[0])
    ensures Increasing([x] + keys)
  {
    forall i | 0 <= i < |keys| ensures Lt(x, keys[i]) {
      if i > 0 {
        assert Lt(keys[0], keys[i]);
        LeTransitive(x, keys[0], keys[i]);
        if x == keys[i] { LeAntisymmetric(keys[0], keys[i]); }
      }
    }
  }

  lemma {:induction false} SortedByKey(items: seq<Item>)
    requires forall i, j :: 0 <= i < j < |items| ==> items[i].key != items[j].key
    ensures Increasing(Keys(SortByKey(items)))
    ensures forall x :: x in SortByKey(items) <==> x in items
  {
    if items != [] {
      SortedByKey(items[1..]);
      var sorted := SortByKey(items[1..]);
      assert items[0].key !in Keys(sorted) by {
        forall i | 0 <= i < |sorted| ensures sorted[i].key != items[0].key {
          assert sorted[i] in items[1..];
          var j :| 0 <= j < |items[1..]| && items[1..][j] == sorted[i];
          assert items[j + 1] == sorted[i];
        }
      }
      InsertedByKey(items[0], sorted);
      assert items == [items[0]] + items[1..];
    }
  }

  lemma KeysDiffer(keys: seq<string>, i: nat, j: nat)
    requires Increasing(keys) && i < |keys| && j < |keys|
    ensures i != j ==> keys[i] != keys[j]
  {
    if i < j { assert Lt(keys[i], keys[j]); }
    if j < i { assert Lt(keys[j], keys[i]); }
  }

  /** Objects in key order are determined by which objects they are. */
  lemma KeyedUnique(a: seq<Item>, b: seq<Item>)
    requires Increasing(Keys(a)) && Increasing(Keys(b)) && forall x :: x in a <==> x in b
    ensures a == b
  {
    forall key ensures key in Keys(a) <==> key in Keys(b) {
      if key in Keys(a) { var i :| 0 <= i < |a| && a[i].key == key; assert a[i] in b; var j :| 0 <= j < |b| && b[j] == a[i]; assert Keys(b)[j] == key; }
      if key in Keys(b) { var i :| 0 <= i < |b| && b[i].key == key; assert b[i] in a; var j :| 0 <= j < |a| && a[j] == b[i]; assert Keys(a)[j] == key; }
    }
    assert Elements(Keys(a)) == Elements(Keys(b));
    IncreasingUnique(Keys(a), Keys(b));
    forall i | 0 <= i < |a| ensures a[i] == b[i] {
      assert a[i] in b;
      var j :| 0 <= j < |b| && b[j] == a[i];
      assert Keys(a)[i] == Keys(b)[i] && Keys(b)[j] == Keys(a)[i];
      KeysDiffer(Keys(b), i, j);
    }
  }
}
