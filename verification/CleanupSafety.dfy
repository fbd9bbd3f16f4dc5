/** What holds over whole runs of the exact-deletion protocol, finished or cut short. */
module CleanupSafety {
  import opened Results
  import opened Ordering
  import opened CleanupModel
  import opened CleanupEffects
  import opened CleanupRun
  import Texts

  // ---------------------------------------------------------------- accepted runs

  /** What the operator names for the inventory command; `isProbe` is the marker test on keys. */
  datatype Inputs = Inputs(bucket: string, legacy: seq<Expected>, rag: seq<Expected>, wiki: seq<Expected>, isProbe: Key -> bool)

  /** Files handed to backup and plan, and what the server sent: nothing is assumed about them. */
  datatype Supplied = Supplied(
    candidates: CandidateSet, bodies: seq<Body>, files: Backups,
    operation: string, planned: Inventory, local: Local, gates: bool)

  function Consumers(i: Inputs): set<Key> { KeysOf(i.rag) + KeysOf(i.wiki) }

  /** inventory -> backup -> plan, all accepted, starting in world w0. */
  ghost predicate Prepared(w0: World, i: Inputs, u: Supplied, inv: Inventory, backups: Backups, plan: Plan) {
    && TakeInventory(w0, i.bucket, i.legacy, i.rag, i.wiki, i.isProbe) == Ok(inv)
    && |u.bodies| == |u.candidates.objects|
    && exists receipt :: TakeBackup(inv, u.candidates, u.bodies, u.files) == Ok((backups, receipt))
                         && MakePlan(u.operation, u.planned, u.local, receipt, u.gates) == Ok(plan)
  }

  /** What the accepted commands pin down: the plan is about the world that was inventoried, and only about its candidates. */
  ghost predicate Pinned(w0: World, i: Inputs, u: Supplied, inv: Inventory, backups: Backups, plan: Plan) {
    && plan.inventory == inv && plan.bucket == i.bucket && plan.local == u.local
    && inv.target == Describes(BucketOf(w0, i.bucket)) && inv.protectedBucket == Describes(BucketOf(w0, PROTECTED_BUCKET))
    && inv.mysql == w0.mysql && inv.milvus == w0.milvus
    && DistinctKeys(plan.objects) && BackedUp(plan.objects, inv.target, backups)
    && (forall j :: 0 <= j < |plan.objects| ==> plan.objects[j].bucket == plan.bucket)
    && (var keys := PlannedKeys(plan.objects);
        keys <= inv.target.Keys * KeysOf(i.legacy) && keys !! Consumers(i) && forall k :: k in keys ==> !i.isProbe(k))
    && Consumers(i) <= inv.target.Keys
  }

  /** What the inventory pins down. */
  ghost predicate Taken(w0: World, i: Inputs, inv: Inventory) {
    && Sound(inv, i.isProbe) && inv.bucket == i.bucket && inv.rag + inv.wiki == Consumers(i)
    && inv.target == Describes(BucketOf(w0, i.bucket)) && inv.protectedBucket == Describes(BucketOf(w0, PROTECTED_BUCKET))
    && inv.mysql == w0.mysql && inv.milvus == w0.milvus
    && forall j :: 0 <= j < |inv.candidates.objects| ==> inv.candidates.objects[j].key in KeysOf(i.legacy)
  }

  /** What backup and plan pin down. */
  ghost predicate Bound(i: Inputs, u: Supplied, inv: Inventory, backups: Backups, plan: Plan) {
    && plan.inventory == inv && plan.bucket == inv.bucket && plan.local == u.local
    && DistinctKeys(plan.objects) && BackedUp(plan.objects, inv.target, backups)
    && (forall j :: 0 <= j < |plan.objects| ==> plan.objects[j].bucket == plan.bucket)
    && PlannedKeys(plan.objects) == (set r | r in inv.candidates.objects :: r.key)
    && forall k :: k in PlannedKeys(plan.objects) ==> k !in inv.rag + inv.wiki && !i.isProbe(k)
  }

  lemma InventoryPins(w0: World, i: Inputs, inv: Inventory)
    requires TakeInventory(w0, i.bucket, i.legacy, i.rag, i.wiki, i.isProbe) == Ok(inv)
    ensures Taken(w0, i, inv)
  {
    InventorySound(w0, i.bucket, i.legacy, i.rag, i.wiki, i.isProbe);
  }

  lemma PlanPins(i: Inputs, u: Supplied, inv: Inventory, backups: Backups, receipt: BackupReceipt, plan: Plan)
    requires Sound(inv, i.isProbe) && |u.bodies| == |u.candidates.objects|
    requires TakeBackup(inv, u.candidates, u.bodies, u.files) == Ok((backups, receipt))
    requires MakePlan(u.operation, u.planned, u.local, receipt, u.gates) == Ok(plan)
    ensures Bound(i, u, inv, backups, plan)
  {
    PlanBound(inv, i.isProbe, u.candidates, u.bodies, u.files, u.operation, u.planned, u.local, u.gates);
    BackUpContents(u.candidates.bucket, u.candidates.objects, u.bodies, u.files);
  }

  lemma BoundIsPinned(w0: World, i: Inputs, u: Supplied, inv: Inventory, backups: Backups, plan: Plan)
    requires Taken(w0, i, inv) && Bound(i, u, inv, backups, plan)
    ensures Pinned(w0, i, u, inv, backups, plan)
  {
    forall k | k in PlannedKeys(plan.objects) ensures k in inv.target.Keys * KeysOf(i.legacy) {
      var r :| r in inv.candidates.objects && r.key == k;
    }
  }

  lemma PreparedFacts(w0: World, i: Inputs, u: Supplied, inv: Inventory, backups: Backups, plan: Plan)
    requires Prepared(w0, i, u, inv, backups, plan)
    ensures Pinned(w0, i, u, inv, backups, plan)
  {
    InventoryPins(w0, i, inv);
    var receipt :| TakeBackup(inv, u.candidates, u.bodies, u.files) == Ok((backups, receipt))
                   && MakePlan(u.operation, u.planned, u.local, receipt, u.gates) == Ok(plan);
    PlanPins(i, u, inv, backups, receipt, plan);
    BoundIsPinned(w0, i, u, inv, backups, plan);
  }

  /** What an accepted verification has compared. */
  lemma AcceptedFacts(plan: Plan, supplied: Plan, rows: seq<Row>, w: World)
    requires Verify(supplied, plan, rows, w).None?
    ensures supplied == plan
    ensures Describes(BucketOf(w, plan.bucket)) == Remaining(plan.inventory.target, PlannedKeys(plan.objects))
    ensures Describes(BucketOf(w, PROTECTED_BUCKET)) == plan.inventory.protectedBucket
    ensures w.mysql == plan.inventory.mysql && w.milvus == plan.inventory.milvus
  {
  }

  lemma PinnedRunExact(w0: World, i: Inputs, u: Supplied, inv: Inventory, backups: Backups, plan: Plan, w4: World)
    requires Pinned(w0, i, u, inv, backups, plan)
    requires Describes(BucketOf(w4, plan.bucket)) == Remaining(inv.target, PlannedKeys(plan.objects))
    requires Describes(BucketOf(w4, PROTECTED_BUCKET)) == inv.protectedBucket
    ensures BucketOf(w4, i.bucket) == BucketOf(w0, i.bucket) - PlannedKeys(plan.objects)
    ensures BucketOf(w4, PROTECTED_BUCKET) == BucketOf(w0, PROTECTED_BUCKET)
  {
    var before, deleted := BucketOf(w0, i.bucket), PlannedKeys(plan.objects);
    assert Describes(before - deleted) == Remaining(Describes(before), deleted);
    DescribesInjective(BucketOf(w4, i.bucket), before - deleted);
    DescribesInjective(BucketOf(w4, PROTECTED_BUCKET), BucketOf(w0, PROTECTED_BUCKET));
  }

  /** In terms of records alone, whatever their digests were taken from: the inventory minus the deleted keys. */
  lemma VerifiedRunRecords(
    w0: World, i: Inputs, u: Supplied, inv: Inventory, backups: Backups, plan: Plan,
    supplied: Plan, rows: seq<Row>, w4: World)
    requires Prepared(w0, i, u, inv, backups, plan)
    requires Verify(supplied, plan, rows, w4).None?
    ensures Describes(BucketOf(w4, i.bucket)) == Remaining(Describes(BucketOf(w0, i.bucket)), PlannedKeys(supplied.objects))
    ensures Describes(BucketOf(w4, PROTECTED_BUCKET)) == Describes(BucketOf(w0, PROTECTED_BUCKET))
  {
    PreparedFacts(w0, i, u, inv, backups, plan);
    AcceptedFacts(plan, supplied, rows, w4);
  }

  /** The inventoried objects minus the deleted ones, which are candidates and nothing else. */
  ghost predicate ExactlyDeleted(w0: World, i: Inputs, deleted: set<Key>, w4: World) {
    var before, after := BucketOf(w0, i.bucket), BucketOf(w4, i.bucket);
    && deleted <= before.Keys * KeysOf(i.legacy) && deleted !! Consumers(i)
    && (forall k :: k in deleted ==> !i.isProbe(k))
    && after == before - deleted
    && (forall k :: k in Consumers(i) ==> k in after && after[k] == before[k])
    && BucketOf(w4, PROTECTED_BUCKET) == BucketOf(w0, PROTECTED_BUCKET)
    && w4.mysql == w0.mysql && w4.milvus == w0.milvus
  }

  lemma PinnedIsExact(w0: World, i: Inputs, u: Supplied, inv: Inventory, backups: Backups, plan: Plan, w4: World)
    requires Pinned(w0, i, u, inv, backups, plan) && w4.mysql == inv.mysql && w4.milvus == inv.milvus
    requires BucketOf(w4, i.bucket) == BucketOf(w0, i.bucket) - PlannedKeys(plan.objects)
    requires BucketOf(w4, PROTECTED_BUCKET) == BucketOf(w0, PROTECTED_BUCKET)
    ensures ExactlyDeleted(w0, i, PlannedKeys(plan.objects), w4)
  {
  }

  /**
   Whatever happens to the stores between the commands, and whatever is supplied, a run that verify
   accepts ends with exactly the inventoried objects minus the planned ones.
   */
  lemma VerifiedRunExact(
    w0: World, i: Inputs, u: Supplied, inv: Inventory, backups: Backups, plan: Plan,
    supplied: Plan, rows: seq<Row>, w4: World)
    requires Prepared(w0, i, u, inv, backups, plan)
    requires Verify(supplied, plan, rows, w4).None?
    ensures ExactlyDeleted(w0, i, PlannedKeys(supplied.objects), w4)
  {
    PreparedFacts(w0, i, u, inv, backups, plan);
    AcceptedFacts(plan, supplied, rows, w4);
    PinnedRunExact(w0, i, u, inv, backups, plan, w4);
    PinnedIsExact(w0, i, u, inv, backups, plan, w4);
  }

  lemma DescribesInjective(a: Bucket, b: Bucket)
    requires Describes(a) == Describes(b)
    ensures a == b
  {
    assert a.Keys == Describes(a).Keys && b.Keys == Describes(b).Keys;
    forall k | k in a ensures a[k] == b[k] {
      assert Describe(k, a[k]) == Describes(a)[k] == Describes(b)[k] == Describe(k, b[k]);
    }
  }

  // ---------------------------------------------------------------- crash points of apply

  function DeletionRows(bucket: string, objects: seq<Planned>): (rows: seq<Row>)
    ensures |rows| == |objects|
    ensures forall i :: 0 <= i < |objects| ==> rows[i] == RemoteDeleted(bucket, objects[i].record.key, objects[i].record.version)
  {
    seq(|objects|, i requires 0 <= i < |objects| => RemoteDeleted(bucket, objects[i].record.key, objects[i].record.version))
  }

  /** The stored versions are the planned ones, as an apply without drift finds them. */
  predicate VersionsMatch(b: Bucket, objects: seq<Planned>) {
    forall i | 0 <= i < |objects| :: objects[i].record.key in b ==> b[objects[i].record.key].version == objects[i].record.version
  }

  ghost predicate SameBuckets(s: State, t: State, except: string) {
    forall b :: b != except ==> At(s, b) == At(t, b)
  }

  lemma DeletionStep(s: State, bucket: string, objects: seq<Planned>, n: nat)
    requires objects != [] && Complete(objects[0].record)
    ensures var r := objects[0].record;
            && (n == 0 ==> Run(s, DeleteEffects(bucket, objects), n) == s)
            && (n == 1 ==> Run(s, DeleteEffects(bucket, objects), n) == Perform(s, Remove(bucket, r.key, r.version)))
            && (n >= 2 ==> Run(s, DeleteEffects(bucket, objects), n)
                             == Run(AfterFirst(s, bucket, r), DeleteEffects(bucket, objects[1..]), n - 2))
            && |DeleteEffects(bucket, objects)| == 2 + |DeleteEffects(bucket, objects[1..])|
  {
    var effects := DeleteEffects(bucket, objects);
    assert effects[1..][1..] == DeleteEffects(bucket, objects[1..]);
  }

  /** The state after the first object is deleted and has its receipt. */
  function AfterFirst(s: State, bucket: string, r: Record): State {
    Perform(Perform(s, Remove(bucket, r.key, r.version)), Append(RemoteDeleted(bucket, r.key, r.version)))
  }

  lemma AfterFirstFacts(s: State, bucket: string, r: Record)
    ensures AfterFirst(s, bucket, r).local == s.local && SameBuckets(AfterFirst(s, bucket, r), s, bucket)
    ensures AfterFirst(s, bucket, r).rows == s.rows + [RemoteDeleted(bucket, r.key, r.version)]
    ensures At(AfterFirst(s, bucket, r), bucket) == At(Perform(s, Remove(bucket, r.key, r.version)), bucket)
  {
  }

  lemma RowsStep(bucket: string, objects: seq<Planned>, j: nat)
    requires 0 < j <= |objects|
    ensures var r := objects[0].record;
      DeletionRows(bucket, objects[..j]) == [RemoteDeleted(bucket, r.key, r.version)] + DeletionRows(bucket, objects[1..][..j - 1])
  {
    assert objects[..j][1..] == objects[1..][..j - 1];
  }

  lemma {:induction false} DeletionCount(bucket: string, objects: seq<Planned>)
    requires AllComplete(objects)
    ensures |DeleteEffects(bucket, objects)| == 2 * |objects|
  {
    if objects != [] { DeletionCount(bucket, objects[1..]); }
  }

  /** The deletion loop touches neither the local files nor another bucket. */
  lemma {:induction false} DeletionFrame(s: State, bucket: string, objects: seq<Planned>, n: nat)
    requires AllComplete(objects)
    ensures Run(s, DeleteEffects(bucket, objects), n).local == s.local && SameBuckets(Run(s, DeleteEffects(bucket, objects), n), s, bucket)
    decreases |objects|
  {
    if objects != [] {
      DeletionStep(s, bucket, objects, n);
      if n >= 2 {
        AfterFirstFacts(s, bucket, objects[0].record);
        DeletionFrame(AfterFirst(s, bucket, objects[0].record), bucket, objects[1..], n - 2);
      }
    }
  }

  lemma RowsAfterFirst(rows: seq<Row>, bucket: string, objects: seq<Planned>, n: nat)
    requires objects != [] && n >= 2
    ensures var r := objects[0].record;
      rows + [RemoteDeleted(bucket, r.key, r.version)] + DeletionRows(bucket, objects[1..][..Min(|objects[1..]|, (n - 2) / 2)])
      == rows + DeletionRows(bucket, objects[..Min(|objects|, n / 2)])
  {
    var j := Min(|objects|, n / 2);
    assert Min(|objects[1..]|, (n - 2) / 2) == j - 1;
    RowsStep(bucket, objects, j);
  }

  lemma {:induction false} DeletionLog(s: State, bucket: string, objects: seq<Planned>, n: nat)
    requires AllComplete(objects)
    ensures Run(s, DeleteEffects(bucket, objects), n).rows == s.rows + DeletionRows(bucket, objects[..Min(|objects|, n / 2)])
    decreases |objects|
  {
    if objects != [] { DeletionStep(s, bucket, objects, n); }
    if objects == [] || n < 2 {
      assert objects[..Min(|objects|, n / 2)] == [];
    } else {
      AfterFirstFacts(s, bucket, objects[0].record);
      DeletionLog(AfterFirst(s, bucket, objects[0].record), bucket, objects[1..], n - 2);
      RowsAfterFirst(s.rows, bucket, objects, n);
    }
  }

  /** After n effects of the deletion loop, n/2 deletions have receipts. */
  lemma DeletionReceipts(s: State, bucket: string, objects: seq<Planned>, n: nat)
    requires AllComplete(objects)
    ensures var t := Run(s, DeleteEffects(bucket, objects), n);
            && t.local == s.local && SameBuckets(t, s, bucket)
            && t.rows == s.rows + DeletionRows(bucket, objects[..Min(|objects|, n / 2)])
    ensures |DeleteEffects(bucket, objects)| == 2 * |objects|
  {
    DeletionCount(bucket, objects);
    DeletionFrame(s, bucket, objects, n);
    DeletionLog(s, bucket, objects, n);
  }

  /** A bucket without the objects planned for deletion. */
  function Minus(b: Bucket, objects: seq<Planned>): Bucket { b - PlannedKeys(objects) }

  lemma MinusCons(b: Bucket, objects: seq<Planned>, k: nat)
    requires 0 < k <= |objects|
    ensures Minus(b, objects[..k]) == Minus(b - {objects[0].record.key}, objects[1..][..k - 1])
  {
    PlannedKeysCons(objects, k);
  }

  /** After n effects of the deletion loop, (n+1)/2 objects are gone and every other object stands. */
  lemma {:induction false} DeletionsGone(s: State, bucket: string, objects: seq<Planned>, n: nat)
    requires AllComplete(objects) && VersionsMatch(At(s, bucket), objects)
    ensures At(Run(s, DeleteEffects(bucket, objects), n), bucket)
            == Minus(At(s, bucket), objects[..Min(|objects|, (n + 1) / 2)])
    decreases |objects|
  {
    if objects == [] || n == 0 {
      assert objects[..0] == [];
    } else {
      var r := objects[0].record;
      DeletionStep(s, bucket, objects, n);
      RemovedOne(s, bucket, objects);
      if n >= 2 {
        var next := AfterFirst(s, bucket, r);
        AfterFirstFacts(s, bucket, r);
        DeletionsGone(next, bucket, objects[1..], n - 2);
        MinusFirst(At(s, bucket), objects, n);
      } else {
        MinusOne(At(s, bucket), objects);
      }
    }
  }

  lemma MinusFirst(b: Bucket, objects: seq<Planned>, n: nat)
    requires objects != [] && n >= 2
    ensures Minus(b - {objects[0].record.key}, objects[1..][..Min(|objects[1..]|, (n - 2 + 1) / 2)])
            == Minus(b, objects[..Min(|objects|, (n + 1) / 2)])
  {
    var k := Min(|objects|, (n + 1) / 2);
    assert Min(|objects[1..]|, (n - 2 + 1) / 2) == k - 1;
    MinusCons(b, objects, k);
  }

  lemma MinusOne(b: Bucket, objects: seq<Planned>)
    requires objects != []
    ensures Minus(b, objects[..1]) == b - {objects[0].record.key}
  {
    MinusCons(b, objects, 1);
    assert objects[1..][..0] == [];
  }

  /** The first planned object is removed whatever version is named, since it is the one that stands. */
  lemma RemovedOne(s: State, bucket: string, objects: seq<Planned>)
    requires objects != [] && VersionsMatch(At(s, bucket), objects)
    ensures At(Perform(s, Remove(bucket, objects[0].record.key, objects[0].record.version)), bucket) == At(s, bucket) - {objects[0].record.key}
    ensures VersionsMatch(At(s, bucket) - {objects[0].record.key}, objects[1..])
  {
  }

  lemma PlannedKeysCons(objects: seq<Planned>, k: nat)
    requires 0 < k <= |objects|
    ensures PlannedKeys(objects[..k]) == {objects[0].record.key} + PlannedKeys(objects[1..][..k - 1])
  {
    forall x | x in PlannedKeys(objects[..k]) ensures x in {objects[0].record.key} + PlannedKeys(objects[1..][..k - 1]) {
      var i :| 0 <= i < k && objects[..k][i].record.key == x;
      if i > 0 { assert objects[1..][..k - 1][i - 1].record.key == x; }
    }
    forall x | x in PlannedKeys(objects[1..][..k - 1]) ensures x in PlannedKeys(objects[..k]) {
      var i :| 0 <= i < k - 1 && objects[1..][..k - 1][i].record.key == x;
      assert objects[..k][i + 1].record.key == x;
    }
    assert objects[..k][0].record.key == objects[0].record.key;
  }

  /** A state reached from another one by local deletions alone. */
  ghost predicate OnlyLocal(s: State, t: State) {
    && t.buckets == s.buckets && s.rows <= t.rows
    && forall i :: |s.rows| <= i < |t.rows| ==> t.rows[i].LocalDeleted?
  }

  lemma {:induction false} UnlinkAll(s: State, path: string)
    requires path in s.local
    ensures path !in Run(s, UnlinkEffects(path, UnlinkCount(s.local[path])), UnlinkCount(s.local[path])).local
    decreases UnlinkCount(s.local[path])
  {
    var n := UnlinkCount(s.local[path]);
    var next := Perform(s, UnlinkLocal(path));
    assert UnlinkEffects(path, n)[1..] == UnlinkEffects(path, n - 1);
    if n > 1 { UnlinkAll(next, path); }
  }

  /** The state after one candidate is deleted and has its receipt. */
  function AfterCandidate(s: State, path: string, count: nat): State {
    Perform(Run(s, UnlinkEffects(path, count), count), Append(LocalDeleted(path)))
  }

  /** The effects of the first candidate, and those of the others. */
  lemma CandidateEffects(s: State, paths: seq<string>, local: Local, n: nat)
    requires paths != [] && paths[0] in local
    ensures var path, count := paths[0], UnlinkCount(local[paths[0]]);
      && |LocalEffects(paths, local)| == count + 1 + |LocalEffects(paths[1..], local)|
      && Run(s, LocalEffects(paths, local), n) ==
           if n <= count then Run(s, UnlinkEffects(path, count), n)
           else Run(AfterCandidate(s, path, count), LocalEffects(paths[1..], local), n - count - 1)
  {
    var path, count := paths[0], UnlinkCount(local[paths[0]]);
    var here, rest := UnlinkEffects(path, count) + [Append(LocalDeleted(path))], LocalEffects(paths[1..], local);
    assert LocalEffects(paths, local) == here + rest;
    RunSplit(s, here, rest, n);
    RunSplit(s, UnlinkEffects(path, count), [Append(LocalDeleted(path))], Min(n, count + 1));
    if n > count {
      var cleared := Run(s, UnlinkEffects(path, count), count);
      assert Run(cleared, [Append(LocalDeleted(path))], 1) == AfterCandidate(s, path, count);
    }
  }

  /** One candidate is gone and has a receipt; nothing else changed. */
  lemma CandidateDeleted(s: State, path: string, local: Local)
    requires path in local && SameAt(s.local, local, path)
    ensures var next := AfterCandidate(s, path, UnlinkCount(local[path]));
      && OnlyLocal(s, next) && path !in next.local
      && LocalReceipts(next.rows) == LocalReceipts(s.rows) + {path}
      && forall p :: p != path ==> SameAt(next.local, s.local, p)
  {
    var count := UnlinkCount(local[path]);
    UnlinkFrame(s, path, count, count);
    UnlinkAll(s, path);
    LocalReceiptsAppend(Run(s, UnlinkEffects(path, count), count).rows, path);
  }

  /** Every candidate is gone and has its receipt. */
  ghost predicate AllDeleted(s: State, t: State, paths: seq<string>) {
    && LocalReceipts(t.rows) == LocalReceipts(s.rows) + Elements(paths)
    && (forall i :: 0 <= i < |paths| ==> paths[i] !in t.local)
    && (forall p :: p !in s.local ==> p !in t.local)
  }

  lemma OnlyLocalTwice(s: State, next: State, t: State)
    requires OnlyLocal(s, next) && OnlyLocal(next, t)
    ensures OnlyLocal(s, t)
  {
    assert forall i :: |next.rows| <= i < |t.rows| ==> t.rows[i].LocalDeleted?;
  }

  lemma AllDeletedStep(s: State, next: State, t: State, paths: seq<string>)
    requires paths != [] && AllDeleted(next, t, paths[1..]) && paths[0] !in next.local
    requires LocalReceipts(next.rows) == LocalReceipts(s.rows) + {paths[0]}
    requires forall p :: p != paths[0] ==> SameAt(next.local, s.local, p)
    ensures AllDeleted(s, t, paths)
  {
    assert Elements(paths) == {paths[0]} + Elements(paths[1..]) by { assert paths == [paths[0]] + paths[1..]; }
    forall i | 0 <= i < |paths| ensures paths[i] !in t.local {
      if i > 0 { assert paths[i] == paths[1..][i - 1]; }
    }
    forall p | p !in s.local ensures p !in t.local { assert p != paths[0] ==> SameAt(next.local, s.local, p); }
  }

  lemma {:induction false} LocalPhase(s: State, paths: seq<string>, local: Local, n: nat)
    requires NoRepeats(paths) && forall i :: 0 <= i < |paths| ==> SameAt(s.local, local, paths[i])
    ensures var t := Run(s, LocalEffects(paths, local), n);
            && OnlyLocal(s, t)
            && (AllPresent(paths, local) && n >= |LocalEffects(paths, local)| ==> AllDeleted(s, t, paths))
    decreases |paths|
  {
    if paths != [] && paths[0] in local {
      var path, count := paths[0], UnlinkCount(local[paths[0]]);
      CandidateEffects(s, paths, local, n);
      if n <= count {
        UnlinkFrame(s, path, count, n);
      } else {
        var next := AfterCandidate(s, path, count);
        CandidateDeleted(s, path, local);
        OthersSame(s, next, paths, local);
        LocalPhase(next, paths[1..], local, n - count - 1);
        var t := Run(next, LocalEffects(paths[1..], local), n - count - 1);
        OnlyLocalTwice(s, next, t);
        if AllPresent(paths, local) && n >= |LocalEffects(paths, local)| {
          assert AllPresent(paths[1..], local);
          AllDeletedStep(s, next, t, paths);
        }
      }
    } else {
      assert paths == [] ==> Elements(paths) == {};
    }
  }

  lemma OthersSame(s: State, next: State, paths: seq<string>, local: Local)
    requires paths != [] && NoRepeats(paths) && forall i :: 0 <= i < |paths| ==> SameAt(s.local, local, paths[i])
    requires forall p :: p != paths[0] ==> SameAt(next.local, s.local, p)
    ensures NoRepeats(paths[1..]) && forall i :: 0 <= i < |paths[1..]| ==> SameAt(next.local, local, paths[1..][i])
  {
    forall i | 0 <= i < |paths[1..]| ensures SameAt(next.local, local, paths[1..][i]) {
      assert paths[1..][i] == paths[i + 1] && paths[i + 1] != paths[0];
      assert SameAt(next.local, s.local, paths[i + 1]) && SameAt(s.local, local, paths[i + 1]);
    }
  }

  lemma LocalReceiptsAppend(rows: seq<Row>, path: string)
    ensures LocalReceipts(rows + [LocalDeleted(path)]) == LocalReceipts(rows) + {path}
  {
    var more := rows + [LocalDeleted(path)];
    assert more[|rows|] == LocalDeleted(path);
    forall i | 0 <= i < |rows| ensures more[i] == rows[i] {}
  }

  lemma RemoteReceiptsConcat(a: seq<Row>, b: seq<Row>)
    ensures RemoteReceipts(a + b) == RemoteReceipts(a) + RemoteReceipts(b)
  {
    var c := a + b;
    forall k | k in RemoteReceipts(c) ensures k in RemoteReceipts(a) + RemoteReceipts(b) {
      var i :| 0 <= i < |c| && c[i].RemoteDeleted? && c[i].key == k;
      if i >= |a| { assert b[i - |a|] == c[i]; }
    }
    forall k | k in RemoteReceipts(a) + RemoteReceipts(b) ensures k in RemoteReceipts(c) {
      if k in RemoteReceipts(a) {
        var i :| 0 <= i < |a| && a[i].RemoteDeleted? && a[i].key == k;
        assert c[i] == a[i];
      } else {
        var i :| 0 <= i < |b| && b[i].RemoteDeleted? && b[i].key == k;
        assert c[|a| + i] == b[i];
      }
    }
  }

  lemma RemoteReceiptsOfDeletions(bucket: string, objects: seq<Planned>)
    ensures RemoteReceipts(DeletionRows(bucket, objects)) == PlannedKeys(objects)
  {
    var rows := DeletionRows(bucket, objects);
    forall k | k in PlannedKeys(objects) ensures k in RemoteReceipts(rows) {
      var i :| 0 <= i < |objects| && objects[i].record.key == k;
      assert rows[i].key == k;
    }
  }

  lemma OnlyLocalReceipts(s: State, t: State)
    requires OnlyLocal(s, t)
    ensures RemoteReceipts(t.rows) == RemoteReceipts(s.rows)
  {
    var more := t.rows[|s.rows|..];
    assert t.rows == s.rows + more;
    assert forall i :: 0 <= i < |more| ==> more[i] == t.rows[|s.rows| + i];
    RemoteReceiptsConcat(s.rows, more);
  }

  /** A plan that apply accepts, with a backup of every object it names. */
  ghost predicate Runnable(s: State, plan: Plan, backups: Backups) {
    && s.rows == [] && AllPresent(LOCAL_CANDIDATES, s.local)
    && DistinctKeys(plan.objects) && AllComplete(plan.objects) && VersionsMatch(At(s, plan.bucket), plan.objects)
    && forall j :: 0 <= j < |plan.objects| ==>
         var p := plan.objects[j];
         && p.bucket == plan.bucket && p.record.key in At(s, plan.bucket)
         && p.path in backups && backups[p.path] == At(s, plan.bucket)[p.record.key].body
         && MatchesRecord(backups[p.path], p.record)
  }

  /** What the drift check of apply has just compared. */
  ghost predicate Undrifted(s: State, plan: Plan, mysql: Counts, milvus: Collections) {
    && Inventoried(At(s, plan.bucket)) == Ok(plan.inventory.target)
    && Inventoried(At(s, PROTECTED_BUCKET)) == Ok(plan.inventory.protectedBucket)
    && mysql == plan.inventory.mysql && milvus == plan.inventory.milvus
  }

  /** Whatever was supplied, a plan made by the protocol that apply accepts is runnable. */
  lemma AcceptedPlanRunnable(
    w0: World, i: Inputs, u: Supplied, inv: Inventory, backups: Backups, plan: Plan,
    s: State, mysql: Counts, milvus: Collections)
    requires Prepared(w0, i, u, inv, backups, plan) && s.rows == []
    requires ApplyGate(plan, plan, World(s.buckets, mysql, milvus, s.local), false).None?
    ensures Runnable(s, plan, backups) && Undrifted(s, plan, mysql, milvus)
  {
    PreparedFacts(w0, i, u, inv, backups, plan);
    GateFacts(s, plan, mysql, milvus);
    PinnedRunnable(w0, i, u, inv, backups, plan, s);
  }

  /** What the checks before the first effect have compared. */
  lemma GateFacts(s: State, plan: Plan, mysql: Counts, milvus: Collections)
    requires ApplyGate(plan, plan, World(s.buckets, mysql, milvus, s.local), false).None?
    ensures Undrifted(s, plan, mysql, milvus) && AllPresent(LOCAL_CANDIDATES, s.local)
  {
    var w := World(s.buckets, mysql, milvus, s.local);
    assert At(s, plan.bucket) == BucketOf(w, plan.bucket) && At(s, PROTECTED_BUCKET) == BucketOf(w, PROTECTED_BUCKET);
  }

  lemma PinnedRunnable(w0: World, i: Inputs, u: Supplied, inv: Inventory, backups: Backups, plan: Plan, s: State)
    requires Pinned(w0, i, u, inv, backups, plan) && s.rows == [] && AllPresent(LOCAL_CANDIDATES, s.local)
    requires Inventoried(At(s, plan.bucket)) == Ok(plan.inventory.target)
    ensures Runnable(s, plan, backups)
  {
    var b := At(s, plan.bucket);
    forall j | 0 <= j < |plan.objects|
      ensures var p := plan.objects[j];
              && Complete(p.record) && p.record.key in b && p.record.version == b[p.record.key].version
              && p.path in backups && backups[p.path] == b[p.record.key].body
    {
      assert plan.objects[j].record == Describe(plan.objects[j].record.key, b[plan.objects[j].record.key]);
    }
  }

  /** The progress of an interrupted apply: objects gone, and of those the ones with a receipt. */
  datatype Progress = Progress(gone: nat, receipted: nat)

  ghost predicate Explains(p: Progress, s0: State, s: State, plan: Plan) {
    && p.receipted <= p.gone <= p.receipted + 1 && p.gone <= |plan.objects|
    && At(s, plan.bucket) == Minus(At(s0, plan.bucket), plan.objects[..p.gone])
    && SameBuckets(s, s0, plan.bucket)
    && RemoteReceipts(s.rows) == PlannedKeys(plan.objects[..p.receipted])
    && (s.local != s0.local ==> p.receipted == |plan.objects|)
  }

  lemma ExplainsDeletions(s0: State, begun: State, plan: Plan, m: nat)
    requires AllComplete(plan.objects) && VersionsMatch(At(s0, plan.bucket), plan.objects)
    requires begun.buckets == s0.buckets && begun.local == s0.local && RemoteReceipts(begun.rows) == {}
    ensures var k := |plan.objects|;
            Explains(Progress(Min(k, (m + 1) / 2), Min(k, m / 2)), s0, Run(begun, DeleteEffects(plan.bucket, plan.objects), m), plan)
  {
    var receipted := plan.objects[..Min(|plan.objects|, m / 2)];
    DeletionReceipts(begun, plan.bucket, plan.objects, m);
    DeletionsGone(begun, plan.bucket, plan.objects, m);
    RemoteReceiptsConcat(begun.rows, DeletionRows(plan.bucket, receipted));
    RemoteReceiptsOfDeletions(plan.bucket, receipted);
  }

  lemma ExplainsLater(p: Progress, s0: State, s: State, t: State, plan: Plan)
    requires Explains(p, s0, s, plan) && p.receipted == |plan.objects|
    requires t.buckets == s.buckets && RemoteReceipts(t.rows) == RemoteReceipts(s.rows)
    ensures Explains(p, s0, t, plan)
  {
  }

  lemma OtherRow(s: State, row: Row)
    requires !row.RemoteDeleted?
    ensures RemoteReceipts(Perform(s, Append(row)).rows) == RemoteReceipts(s.rows)
  {
    RemoteReceiptsConcat(s.rows, [row]);
    assert RemoteReceipts([row]) == {};
  }

  /**
   At every crash point of apply the deleted objects are a prefix of the plan, every receipt is of a
   deleted object and at most one deletion lacks its receipt, no other object of any bucket changed,
   and no local candidate is touched before the last remote deletion has its receipt.
   */
  lemma CrashSafe(s0: State, plan: Plan, backups: Backups, n: nat) returns (p: Progress)
    requires Runnable(s0, plan, backups)
    ensures Explains(p, s0, Run(s0, ApplyEffects(plan, s0.local), n), plan)
  {
    PhasesOfApply(s0, plan, n);
    var start := Started(plan.operation, plan);
    var begun := Perform(s0, Append(start));
    var m := if n == 0 then 0 else n - 1;
    OtherRow(s0, start);
    ExplainsDeletions(s0, begun, plan, m);
    DeletionCount(plan.bucket, plan.objects);
    p := Progress(Min(|plan.objects|, (m + 1) / 2), Min(|plan.objects|, m / 2));
    if n == 0 {
      assert plan.objects[..0] == [];
    } else if n > 2 * |plan.objects| {
      DeletionFrame(begun, plan.bucket, plan.objects, m);
      ExplainsRest(p, s0, Run(begun, DeleteEffects(plan.bucket, plan.objects), m), plan, m - 2 * |plan.objects|);
    }
  }

  /** The local deletions and the last two receipts keep what the deletions reached. */
  lemma ExplainsRest(p: Progress, s0: State, deleted: State, plan: Plan, left: nat)
    requires Explains(p, s0, deleted, plan) && p.receipted == |plan.objects|
    requires deleted.local == s0.local && AllPresent(LOCAL_CANDIDATES, s0.local)
    ensures var cleared := Run(deleted, LocalEffects(LOCAL_CANDIDATES, s0.local), left);
            var noted := Perform(cleared, Append(MysqlNoop));
            && Explains(p, s0, cleared, plan) && Explains(p, s0, noted, plan)
            && Explains(p, s0, Perform(noted, Append(Completed(plan.operation))), plan)
  {
    var cleared := Run(deleted, LocalEffects(LOCAL_CANDIDATES, s0.local), left);
    CandidatesDistinct();
    LocalPhase(deleted, LOCAL_CANDIDATES, s0.local, left);
    OnlyLocalReceipts(deleted, cleared);
    ExplainsLater(p, s0, deleted, cleared, plan);
    var noted := Perform(cleared, Append(MysqlNoop));
    OtherRow(cleared, MysqlNoop);
    ExplainsLater(p, s0, cleared, noted, plan);
    OtherRow(noted, Completed(plan.operation));
    ExplainsLater(p, s0, noted, Perform(noted, Append(Completed(plan.operation))), plan);
  }

  // ---------------------------------------------------------------- what apply leaves alone

  /** The effect removes no object with this key and version from the bucket. */
  predicate Spares(e: Effect, bucket: string, key: Key, version: Option<string>) {
    e.Remove? && e.bucket == bucket && e.key == key ==> e.version.Some? && e.version != version
  }

  predicate AllSpare(effects: seq<Effect>, bucket: string, key: Key, version: Option<string>) {
    forall i | 0 <= i < |effects| :: Spares(effects[i], bucket, key, version)
  }

  lemma {:induction false} RunSpares(s: State, effects: seq<Effect>, n: nat, bucket: string, key: Key)
    requires key in At(s, bucket) && AllSpare(effects, bucket, key, At(s, bucket)[key].version)
    ensures key in At(Run(s, effects, n), bucket) && At(Run(s, effects, n), bucket)[key] == At(s, bucket)[key]
    decreases n
  {
    if effects != [] && n > 0 {
      assert Spares(effects[0], bucket, key, At(s, bucket)[key].version);
      assert forall i :: 0 <= i < |effects[1..]| ==> effects[1..][i] == effects[i + 1];
      RunSpares(Perform(s, effects[0]), effects[1..], n - 1, bucket, key);
    }
  }

  /** No planned object has this bucket, key and version. */
  predicate Unplanned(plan: Plan, bucket: string, key: Key, version: Option<string>) {
    bucket == plan.bucket ==>
      forall j | 0 <= j < |plan.objects| && plan.objects[j].record.key == key ::
        plan.objects[j].record.version.Some? && plan.objects[j].record.version != version
  }

  lemma {:induction false} DeletionsSpare(plan: Plan, bucket: string, key: Key, version: Option<string>, from: nat)
    requires from <= |plan.objects| && Unplanned(plan, bucket, key, version)
    ensures AllSpare(DeleteEffects(plan.bucket, plan.objects[from..]), bucket, key, version)
    decreases |plan.objects| - from
  {
    if from < |plan.objects| && Complete(plan.objects[from].record) {
      EffectsOfNext(plan.bucket, plan.objects, from);
      DeletionsSpare(plan, bucket, key, version, from + 1);
    }
  }

  lemma SpareConcat(a: seq<Effect>, b: seq<Effect>, bucket: string, key: Key, version: Option<string>)
    requires AllSpare(a, bucket, key, version) && AllSpare(b, bucket, key, version)
    ensures AllSpare(a + b, bucket, key, version)
  {
  }

  lemma {:induction false} UnlinksSpare(path: string, n: nat, bucket: string, key: Key, version: Option<string>)
    ensures AllSpare(UnlinkEffects(path, n), bucket, key, version)
  {
    if n > 0 { UnlinksSpare(path, n - 1, bucket, key, version); }
  }

  lemma {:induction false} LocalsSpare(paths: seq<string>, local: Local, bucket: string, key: Key, version: Option<string>)
    ensures AllSpare(LocalEffects(paths, local), bucket, key, version)
  {
    if paths != [] && paths[0] in local {
      var unlinks, noted := UnlinkEffects(paths[0], UnlinkCount(local[paths[0]])), [Append(LocalDeleted(paths[0]))];
      UnlinksSpare(paths[0], UnlinkCount(local[paths[0]]), bucket, key, version);
      LocalsSpare(paths[1..], local, bucket, key, version);
      assert AllSpare(noted, bucket, key, version);
      SpareConcat(unlinks, noted, bucket, key, version);
      SpareConcat(unlinks + noted, LocalEffects(paths[1..], local), bucket, key, version);
    }
  }

  lemma ApplySpares(s: State, plan: Plan, bucket: string, key: Key, version: Option<string>)
    requires Unplanned(plan, bucket, key, version)
    ensures AllSpare(ApplyEffects(plan, s.local), bucket, key, version)
  {
    DeletionsSpare(plan, bucket, key, version, 0);
    assert plan.objects[0..] == plan.objects;
    LocalsSpare(LOCAL_CANDIDATES, s.local, bucket, key, version);
    var d, l := DeleteEffects(plan.bucket, plan.objects), LocalEffects(LOCAL_CANDIDATES, s.local);
    var begin, f := [Append(Started(plan.operation, plan))], FinalEffects(plan.operation);
    assert AllSpare(d, bucket, key, version) && AllSpare(l, bucket, key, version);
    assert AllSpare(begin, bucket, key, version) && AllSpare(f, bucket, key, version);
    var later := if !AllPresent(LOCAL_CANDIDATES, s.local) then [] else f;
    var rest := if !AllComplete(plan.objects) then [] else l + later;
    SpareConcat(begin, d, bucket, key, version);
    SpareConcat(l, later, bucket, key, version);
    SpareConcat(begin + d, rest, bucket, key, version);
    assert ApplyEffects(plan, s.local) == begin + d + rest;
  }

  /** Finished or cut short, whatever the plan says: only objects with a planned key and version are removed. */
  lemma OnlyPlannedRemoved(s: State, plan: Plan, n: nat, bucket: string, key: Key)
    requires key in At(s, bucket) && Unplanned(plan, bucket, key, At(s, bucket)[key].version)
    ensures var t := Run(s, ApplyEffects(plan, s.local), n); key in At(t, bucket) && At(t, bucket)[key] == At(s, bucket)[key]
  {
    ApplySpares(s, plan, bucket, key, At(s, bucket)[key].version);
    RunSpares(s, ApplyEffects(plan, s.local), n, bucket, key);
  }

  /** An incomplete record stops the deletions before it, and nothing follows them. */
  lemma {:induction false} StopsAtIncomplete(bucket: string, objects: seq<Planned>, i: nat)
    requires i < |objects| && !Complete(objects[i].record) && forall j :: 0 <= j < i ==> Complete(objects[j].record)
    ensures DeleteEffects(bucket, objects) == DeleteEffects(bucket, objects[..i]) && !AllComplete(objects)
    decreases i
  {
    if i > 0 {
      forall j | 0 <= j < i - 1 ensures Complete(objects[1..][j].record) { assert objects[1..][j] == objects[j + 1]; }
      StopsAtIncomplete(bucket, objects[1..], i - 1);
      assert objects[..i][1..] == objects[1..][..i - 1] && objects[..i][0] == objects[0];
    }
  }

  // ---------------------------------------------------------------- the local candidates

  /** The first r candidates are gone and have receipts; of the others at most the next one was begun. */
  ghost predicate LocalProgress(s: State, t: State, paths: seq<string>, r: nat) {
    && r <= |paths| && OnlyLocal(s, t)
    && LocalReceipts(t.rows) == LocalReceipts(s.rows) + Elements(paths[..r])
    && (forall i :: 0 <= i < r ==> paths[i] !in t.local)
    && (forall i :: r < i < |paths| ==> SameAt(t.local, s.local, paths[i]))
    && (forall p :: p !in paths ==> SameAt(t.local, s.local, p))
  }

  lemma LocalProgressStep(s: State, next: State, t: State, paths: seq<string>, r: nat)
    requires paths != [] && NoRepeats(paths) && OnlyLocal(s, next) && LocalReceipts(next.rows) == LocalReceipts(s.rows) + {paths[0]}
    requires paths[0] !in next.local && forall p :: p != paths[0] ==> SameAt(next.local, s.local, p)
    requires LocalProgress(next, t, paths[1..], r)
    ensures LocalProgress(s, t, paths, r + 1)
  {
    OnlyLocalTwice(s, next, t);
    assert paths == [paths[0]] + paths[1..] && paths[..r + 1] == [paths[0]] + paths[1..][..r];
    assert Elements(paths[..r + 1]) == {paths[0]} + Elements(paths[1..][..r]);
    assert SameAt(t.local, next.local, paths[0]);
    forall i | 0 <= i < r + 1 ensures paths[i] !in t.local { if i > 0 { assert paths[i] == paths[1..][i - 1]; } }
    forall i | r + 1 < i < |paths| ensures SameAt(t.local, s.local, paths[i]) {
      assert paths[i] == paths[1..][i - 1] && paths[i] != paths[0];
      assert SameAt(t.local, next.local, paths[1..][i - 1]) && SameAt(next.local, s.local, paths[i]);
    }
    forall p | p !in paths ensures SameAt(t.local, s.local, p) {
      assert SameAt(t.local, next.local, p) && SameAt(next.local, s.local, p);
    }
  }

  lemma {:induction false} LocalPrefix(s: State, paths: seq<string>, local: Local, n: nat) returns (r: nat)
    requires NoRepeats(paths) && forall i :: 0 <= i < |paths| ==> SameAt(s.local, local, paths[i])
    ensures LocalProgress(s, Run(s, LocalEffects(paths, local), n), paths, r)
    ensures AllPresent(paths, local) && n >= |LocalEffects(paths, local)| ==> r == |paths|
    decreases |paths|
  {
    r := 0;
    if paths != [] && paths[0] in local {
      var path, count := paths[0], UnlinkCount(local[paths[0]]);
      CandidateEffects(s, paths, local, n);
      if n <= count {
        UnlinkFrame(s, path, count, n);
        assert Elements(paths[..0]) == {};
      } else {
        var next := AfterCandidate(s, path, count);
        CandidateDeleted(s, path, local);
        OthersSame(s, next, paths, local);
        var m := LocalPrefix(next, paths[1..], local, n - count - 1);
        r := m + 1;
        LocalProgressStep(s, next, Run(next, LocalEffects(paths[1..], local), n - count - 1), paths, m);
        if AllPresent(paths, local) { assert AllPresent(paths[1..], local); }
      }
    } else {
      assert Elements(paths[..0]) == {};
    }
  }

  predicate SaysCompleted(rows: seq<Row>) { exists i :: 0 <= i < |rows| && rows[i].Completed? }

  /** How far the local part of an apply came, and that only a complete one is said to be completed. */
  ghost predicate LocalExplained(s0: State, t: State, r: nat) {
    && r <= |LOCAL_CANDIDATES|
    && LocalReceipts(t.rows) == Elements(LOCAL_CANDIDATES[..r])
    && (forall i :: 0 <= i < r ==> LOCAL_CANDIDATES[i] !in t.local)
    && (forall i :: r < i < |LOCAL_CANDIDATES| ==> SameAt(t.local, s0.local, LOCAL_CANDIDATES[i]))
    && (forall p :: p !in LOCAL_CANDIDATES ==> SameAt(t.local, s0.local, p))
    && (SaysCompleted(t.rows) ==> r == |LOCAL_CANDIDATES|)
  }

  lemma NothingLocal(s0: State, t: State)
    requires t.local == s0.local && forall i :: 0 <= i < |t.rows| ==> !t.rows[i].LocalDeleted? && !t.rows[i].Completed?
    ensures LocalExplained(s0, t, 0)
  {
    assert Elements(LOCAL_CANDIDATES[..0]) == {} && LocalReceipts(t.rows) == {};
  }

  lemma ProgressExplained(s0: State, deleted: State, t: State, r: nat)
    requires LocalExplained(s0, deleted, 0) && deleted.local == s0.local && LocalProgress(deleted, t, LOCAL_CANDIDATES, r)
    requires forall i :: 0 <= i < |deleted.rows| ==> !deleted.rows[i].Completed?
    ensures LocalExplained(s0, t, r) && forall i :: 0 <= i < |t.rows| ==> !t.rows[i].Completed?
  {
    assert Elements(LOCAL_CANDIDATES[..0]) == {};
    forall i | 0 <= i < |t.rows| ensures !t.rows[i].Completed? {
      if i < |deleted.rows| { assert t.rows[i] == deleted.rows[i]; }
    }
  }

  lemma FinalRows(s0: State, t: State, row: Row)
    requires LocalExplained(s0, t, |LOCAL_CANDIDATES|) && !row.LocalDeleted?
    ensures LocalExplained(s0, Perform(t, Append(row)), |LOCAL_CANDIDATES|)
  {
    var more := t.rows + [row];
    forall i | 0 <= i < |t.rows| ensures more[i] == t.rows[i] {}
    assert LocalReceipts(more) == LocalReceipts(t.rows);
  }

  /**
   At every crash point of apply the local receipts are those of the first r candidates, which are gone; at most
   the next candidate was begun, no other file changed, and "completed" is said only after all of them.
   */
  lemma LocalCrashSafe(s0: State, plan: Plan, backups: Backups, n: nat) returns (r: nat)
    requires Runnable(s0, plan, backups)
    ensures LocalExplained(s0, Run(s0, ApplyEffects(plan, s0.local), n), r)
  {
    PhasesOfApply(s0, plan, n);
    var begun := Perform(s0, Append(Started(plan.operation, plan)));
    var m := if n == 0 then 0 else n - 1;
    var deleted := Run(begun, DeleteEffects(plan.bucket, plan.objects), m);
    DeletionReceipts(begun, plan.bucket, plan.objects, m);
    r := 0;
    if n == 0 {
      NothingLocal(s0, s0);
    } else {
      assert begun.rows == [Started(plan.operation, plan)];
      NothingLocal(s0, deleted);
      if n > 2 * |plan.objects| { r := LocalRest(s0, deleted, plan, m - 2 * |plan.objects|); }
    }
  }

  lemma LocalRest(s0: State, deleted: State, plan: Plan, left: nat) returns (r: nat)
    requires LocalExplained(s0, deleted, 0) && deleted.local == s0.local && AllPresent(LOCAL_CANDIDATES, s0.local)
    requires forall i :: 0 <= i < |deleted.rows| ==> !deleted.rows[i].Completed?
    ensures var cleared := Run(deleted, LocalEffects(LOCAL_CANDIDATES, s0.local), left);
      && LocalExplained(s0, cleared, r)
      && (left > |LocalEffects(LOCAL_CANDIDATES, s0.local)| ==>
            && LocalExplained(s0, Perform(cleared, Append(MysqlNoop)), r)
            && LocalExplained(s0, Perform(Perform(cleared, Append(MysqlNoop)), Append(Completed(plan.operation))), r))
  {
    var cleared := Run(deleted, LocalEffects(LOCAL_CANDIDATES, s0.local), left);
    CandidatesDistinct();
    r := LocalPrefix(deleted, LOCAL_CANDIDATES, s0.local, left);
    ProgressExplained(s0, deleted, cleared, r);
    if left > |LocalEffects(LOCAL_CANDIDATES, s0.local)| {
      FinalRows(s0, cleared, MysqlNoop);
      FinalRows(s0, Perform(cleared, Append(MysqlNoop)), Completed(plan.operation));
    }
  }

  // ---------------------------------------------------------------- restore

  /** Whatever is asked, restore-partial changes no object that exists. */
  lemma {:induction false} RestoreNeverOverwrites(s: State, operation: string, items: seq<Planned>, files: Backups, etags: seq<string>)
    requires |etags| == |items|
    ensures forall b, k :: k in At(s, b) ==>
              var t := RestoreAll(s, operation, items, files, etags).0; k in At(t, b) && At(t, b)[k] == At(s, b)[k]
    decreases |items|
  {
    if items != [] {
      var p := items[0];
      if Complete(p.record) && p.path in files && MatchesRecord(files[p.path], p.record) && p.record.key !in At(s, p.bucket) {
        RestoreNeverOverwrites(RestoredOne(s, operation, p, files[p.path], etags[0]), operation, items[1..], files, etags[1..]);
      }
    }
  }

  /** Items that restore accepts: backed up, absent and of distinct keys, all in one bucket. */
  ghost predicate Restorable(s: State, bucket: string, items: seq<Planned>, files: Backups) {
    && DistinctKeys(items)
    && forall j :: 0 <= j < |items| ==>
         var p := items[j];
         && p.bucket == bucket && Complete(p.record) && p.path in files && MatchesRecord(files[p.path], p.record)
         && p.record.key !in At(s, bucket)
  }

  /** The items after the first are still restorable once the first is there. */
  lemma RestorableRest(s: State, operation: string, bucket: string, items: seq<Planned>, files: Backups, etag: string)
    requires items != [] && Restorable(s, bucket, items, files)
    ensures var p := items[0];
      var next := RestoredOne(s, operation, p, files[p.path], etag);
      && Restorable(next, bucket, items[1..], files) && SameBuckets(next, s, bucket)
      && At(next, bucket).Keys == At(s, bucket).Keys + {p.record.key} && At(next, bucket)[p.record.key].body == files[p.path]
  {
  }

  lemma {:induction false} RestoreCreates(s: State, operation: string, bucket: string, items: seq<Planned>, files: Backups, etags: seq<string>)
    requires |etags| == |items| && Restorable(s, bucket, items, files)
    ensures var (t, refused) := RestoreAll(s, operation, items, files, etags);
            && refused.None? && SameBuckets(t, s, bucket)
            && At(t, bucket).Keys == At(s, bucket).Keys + PlannedKeys(items)
            && forall j :: 0 <= j < |items| ==> items[j].record.key in At(t, bucket) && At(t, bucket)[items[j].record.key].body == files[items[j].path]
    decreases |items|
  {
    if items != [] {
      var p := items[0];
      var next := RestoredOne(s, operation, p, files[p.path], etags[0]);
      RestorableRest(s, operation, bucket, items, files, etags[0]);
      RestoreCreates(next, operation, bucket, items[1..], files, etags[1..]);
      RestoreNeverOverwrites(next, operation, items[1..], files, etags[1..]);
      assert items[..|items|] == items && items[1..][..|items| - 1] == items[1..];
      PlannedKeysCons(items, |items|);
      var t := RestoreAll(s, operation, items, files, etags).0;
      assert p.record.key in At(next, bucket);
      forall j | 0 <= j < |items|
        ensures items[j].record.key in At(t, bucket) && At(t, bucket)[items[j].record.key].body == files[items[j].path]
      {
        if j > 0 { assert items[j] == items[1..][j - 1]; }
      }
    }
  }

  /** The planned objects that an interrupted apply removed. */
  function MissingObjects(s: State, bucket: string, objects: seq<Planned>): seq<Planned> {
    if objects == [] then []
    else (if objects[0].record.key in At(s, bucket) then [] else [objects[0]]) + MissingObjects(s, bucket, objects[1..])
  }

  lemma {:induction false} MissingIsPrefix(s: State, s0: State, bucket: string, objects: seq<Planned>, gone: nat)
    requires gone <= |objects| && DistinctKeys(objects)
    requires forall j :: 0 <= j < |objects| ==> (objects[j].record.key in At(s, bucket) <==> gone <= j)
    ensures MissingObjects(s, bucket, objects) == objects[..gone]
    decreases |objects|
  {
    if objects != [] {
      MissingIsPrefix(s, s0, bucket, objects[1..], if gone == 0 then 0 else gone - 1);
      if gone > 0 { assert objects[..gone] == [objects[0]] + objects[1..][..gone - 1]; }
    }
  }

  lemma PrefixKeys(objects: seq<Planned>, n: nat, j: nat)
    requires n <= |objects| && j < |objects| && DistinctKeys(objects)
    ensures objects[j].record.key in PlannedKeys(objects[..n]) <==> j < n
  {
    if j < n { assert objects[..n][j] == objects[j]; }
  }

  lemma GoneRestorable(s0: State, s: State, p: Progress, plan: Plan, backups: Backups)
    requires Runnable(s0, plan, backups) && Explains(p, s0, s, plan)
    ensures MissingObjects(s, plan.bucket, plan.objects) == plan.objects[..p.gone]
    ensures Restorable(s, plan.bucket, plan.objects[..p.gone], backups)
  {
    forall j | 0 <= j < |plan.objects| ensures plan.objects[j].record.key in At(s, plan.bucket) <==> p.gone <= j {
      PrefixKeys(plan.objects, p.gone, j);
    }
    MissingIsPrefix(s, s0, plan.bucket, plan.objects, p.gone);
  }

  /** Removing planned objects and putting their backups back restores every content. */
  lemma RefilledContents(before: Bucket, left: Bucket, after: Bucket, gone: seq<Planned>, backups: Backups)
    requires left == Minus(before, gone) && after.Keys == left.Keys + PlannedKeys(gone)
    requires forall k :: k in left ==> after[k] == left[k]
    requires forall j :: 0 <= j < |gone| ==>
               var p := gone[j];
               p.record.key in before && p.path in backups && after[p.record.key].body == backups[p.path] == before[p.record.key].body
    ensures after.Keys == before.Keys && forall k :: k in before ==> after[k].body == before[k].body
  {
    forall k | k in PlannedKeys(gone) ensures k in before && after[k].body == before[k].body {
      var j :| 0 <= j < |gone| && gone[j].record.key == k;
    }
    forall k | k in before ensures k in after && after[k].body == before[k].body {
      if k !in PlannedKeys(gone) { assert k in left && left[k] == before[k]; }
    }
    forall k | k in after ensures k in before {
      if k in left { assert k in Minus(before, gone); }
    }
  }

  /**
   From every crash point of apply, restoring exactly the missing objects succeeds: the bucket has the
   keys it had, every object has the content it had, and objects that were not deleted are untouched.
   */
  lemma RestoreRepairs(s0: State, plan: Plan, backups: Backups, n: nat, operation: string, etags: seq<string>)
    requires Runnable(s0, plan, backups)
    requires |etags| == |MissingObjects(Run(s0, ApplyEffects(plan, s0.local), n), plan.bucket, plan.objects)|
    ensures var s := Run(s0, ApplyEffects(plan, s0.local), n);
            var (t, refused) := RestoreAll(s, operation, MissingObjects(s, plan.bucket, plan.objects), backups, etags);
            var before, left, after := At(s0, plan.bucket), At(s, plan.bucket), At(t, plan.bucket);
            && refused.None? && SameBuckets(t, s0, plan.bucket)
            && after.Keys == before.Keys && (forall k :: k in before ==> after[k].body == before[k].body)
            && (forall k :: k in left ==> k in before && after[k] == before[k])
  {
    var s := Run(s0, ApplyEffects(plan, s0.local), n);
    var p := CrashSafe(s0, plan, backups, n);
    var gone := plan.objects[..p.gone];
    GoneRestorable(s0, s, p, plan, backups);
    RestoreCreates(s, operation, plan.bucket, gone, backups, etags);
    RestoreNeverOverwrites(s, operation, gone, backups, etags);
    var t := RestoreAll(s, operation, gone, backups, etags).0;
    forall b | b != plan.bucket ensures At(t, b) == At(s0, b) {
      assert At(t, b) == At(s, b) && At(s, b) == At(s0, b);
    }
    RefilledContents(At(s0, plan.bucket), At(s, plan.bucket), At(t, plan.bucket), gone, backups);
  }

  // ---------------------------------------------------------------- finished, undisturbed runs

  /** The state in which apply ends, given enough budget. */
  function Finished(s0: State, plan: Plan): State {
    Run(s0, ApplyEffects(plan, s0.local), |ApplyEffects(plan, s0.local)|)
  }

  /** The state between the deletions and the local part. */
  function Deleted(s0: State, plan: Plan): State {
    Run(Perform(s0, Append(Started(plan.operation, plan))), DeleteEffects(plan.bucket, plan.objects), 2 * |plan.objects|)
  }

  /** The state between the local part and the last two receipts. */
  function Cleared(s0: State, plan: Plan): State {
    var l := LocalEffects(LOCAL_CANDIDATES, s0.local);
    Run(Deleted(s0, plan), l, |l|)
  }

  lemma FinishedSteps(s0: State, plan: Plan, backups: Backups)
    requires Runnable(s0, plan, backups)
    ensures Finished(s0, plan) == Perform(Perform(Cleared(s0, plan), Append(MysqlNoop)), Append(Completed(plan.operation)))
  {
    var begun := Perform(s0, Append(Started(plan.operation, plan)));
    var d, l := DeleteEffects(plan.bucket, plan.objects), LocalEffects(LOCAL_CANDIDATES, s0.local);
    var budget := |ApplyEffects(plan, s0.local)|;
    DeletionCount(plan.bucket, plan.objects);
    PhasesOfApply(s0, plan, budget);
    RunEnough(begun, d, budget - 1);
    RunEnough(Deleted(s0, plan), l, budget - 1 - |d|);
  }

  lemma DeletedRows(s0: State, plan: Plan, backups: Backups)
    requires Runnable(s0, plan, backups)
    ensures Deleted(s0, plan).local == s0.local
    ensures Deleted(s0, plan).rows == [Started(plan.operation, plan)] + DeletionRows(plan.bucket, plan.objects)
  {
    var begun := Perform(s0, Append(Started(plan.operation, plan)));
    DeletionReceipts(begun, plan.bucket, plan.objects, 2 * |plan.objects|);
    assert plan.objects[..|plan.objects|] == plan.objects;
    assert begun.rows == [Started(plan.operation, plan)];
  }

  /** What a finished apply leaves in the receipt and in the file tree. */
  lemma FinishedReceipt(s0: State, plan: Plan, backups: Backups)
    requires Runnable(s0, plan, backups)
    ensures var s := Finished(s0, plan);
            && |s.rows| > 0 && s.rows[|s.rows| - 1].Completed?
            && LocalReceipts(s.rows) == Elements(LOCAL_CANDIDATES)
            && (forall i :: 0 <= i < |LOCAL_CANDIDATES| ==> LOCAL_CANDIDATES[i] !in s.local)
            && s.local != s0.local
  {
    var s, cleared := Finished(s0, plan), Cleared(s0, plan);
    FinishedSteps(s0, plan, backups);
    DeletedRows(s0, plan, backups);
    CandidatesDistinct();
    LocalPhase(Deleted(s0, plan), LOCAL_CANDIDATES, s0.local, |LocalEffects(LOCAL_CANDIDATES, s0.local)|);
    LocalReceiptsOf([Started(plan.operation, plan)], plan.bucket, plan.objects, cleared.rows, plan.operation);
    assert s.rows == cleared.rows + [MysqlNoop] + [Completed(plan.operation)];
    assert LOCAL_CANDIDATES[0] in s0.local && LOCAL_CANDIDATES[0] !in s.local;
  }

  /**
   An apply that finishes undisturbed is accepted by verify, except in one case: objects deleted from
   the protected bucket itself, whose inventory verify then finds changed.
   */
  lemma FinishedRunVerified(s0: State, plan: Plan, backups: Backups, mysql: Counts, milvus: Collections)
    requires Runnable(s0, plan, backups) && Undrifted(s0, plan, mysql, milvus)
    ensures var s := Finished(s0, plan);
            Verify(plan, plan, s.rows, World(s.buckets, mysql, milvus, s.local)).None?
            <==> plan.bucket != PROTECTED_BUCKET || plan.objects == []
  {
    var s := Finished(s0, plan);
    var w := World(s.buckets, mysql, milvus, s.local);
    FinishedReceipt(s0, plan, backups);
    var p := CrashSafe(s0, plan, backups, |ApplyEffects(plan, s0.local)|);
    assert plan.objects[..|plan.objects|] == plan.objects;
    VerifyBuckets(s0, s, plan, mysql, milvus);
    assert BucketOf(w, plan.bucket) == At(s, plan.bucket) && BucketOf(w, PROTECTED_BUCKET) == At(s, PROTECTED_BUCKET);
  }

  /** That case occurs: a plan for one object of the protected bucket passes the checks, and its finished run is rejected. */
  lemma ProtectedRunRejected() returns (s0: State, plan: Plan, backups: Backups, mysql: Counts, milvus: Collections)
    ensures Runnable(s0, plan, backups) && Undrifted(s0, plan, mysql, milvus)
    ensures var s := Finished(s0, plan); Verify(plan, plan, s.rows, World(s.buckets, mysql, milvus, s.local)).Some?
  {
    var key, path := "k", ["k"];
    var o := Stored([], "e", None, None, None);
    var bucket: Bucket := map[key := o];
    var local: Local := map[LOCAL_CANDIDATES[0] := File([]), LOCAL_CANDIDATES[1] := File([]), LOCAL_CANDIDATES[2] := File([])];
    mysql, milvus := map[], map[];
    var inv := Inventory(PROTECTED_BUCKET, Describes(bucket), Describes(bucket), CandidateSet(PROTECTED_BUCKET, []), {}, {}, mysql, milvus);
    plan := Plan("op", PROTECTED_BUCKET, [Planned(Describe(key, o), PROTECTED_BUCKET, path)], inv, local);
    s0 := State(map[PROTECTED_BUCKET := bucket], local, []);
    backups := map[path := o.body];
    KeyIsComplete(key, o);
    FinishedRunVerified(s0, plan, backups, mysql, milvus);
  }

  lemma KeyIsComplete(key: Key, o: Stored)
    requires key == "k" && o == Stored([], "e", None, None, None)
    ensures Complete(Describe(key, o)) && MatchesRecord(o.body, Describe(key, o))
  {
    Texts.SplitNothing(key, '/');
  }

  lemma LocalReceiptsOf(begin: seq<Row>, bucket: string, objects: seq<Planned>, rows: seq<Row>, operation: string)
    requires |begin| == 1 && begin[0].Started?
    ensures LocalReceipts(begin + DeletionRows(bucket, objects)) == {}
    ensures LocalReceipts(rows + [MysqlNoop] + [Completed(operation)]) == LocalReceipts(rows)
  {
    var more := rows + [MysqlNoop] + [Completed(operation)];
    forall i | 0 <= i < |rows| ensures more[i] == rows[i] {}
  }

  lemma PartInventoried(before: Bucket, after: Bucket)
    requires Inventoried(before).Ok? && forall k :: k in after ==> k in before && after[k] == before[k]
    ensures Inventoried(after).Ok?
  {
    forall k | k in Describes(after) ensures Complete(Describes(after)[k]) {
      assert Describes(after)[k] == Describes(before)[k];
    }
  }

  lemma VerifyBuckets(s0: State, s: State, plan: Plan, mysql: Counts, milvus: Collections)
    requires Undrifted(s0, plan, mysql, milvus)
    requires forall j :: 0 <= j < |plan.objects| ==> plan.objects[j].record.key in At(s0, plan.bucket)
    requires At(s, plan.bucket) == Minus(At(s0, plan.bucket), plan.objects) && SameBuckets(s, s0, plan.bucket)
    ensures Inventoried(At(s, plan.bucket)).Ok? && Inventoried(At(s, PROTECTED_BUCKET)).Ok?
    ensures Describes(At(s, plan.bucket)) == Remaining(plan.inventory.target, PlannedKeys(plan.objects))
    ensures Describes(At(s, PROTECTED_BUCKET)) == plan.inventory.protectedBucket
            <==> plan.bucket != PROTECTED_BUCKET || plan.objects == []
  {
    PartInventoried(At(s0, plan.bucket), At(s, plan.bucket));
    RemainingDescribed(At(s0, plan.bucket), plan.objects);
    if plan.bucket == PROTECTED_BUCKET {
      if plan.objects != [] {
        var k := plan.objects[0].record.key;
        assert k in PlannedKeys(plan.objects);
        assert k in At(s0, plan.bucket).Keys && k !in At(s, plan.bucket).Keys;
        assert k in Describes(At(s0, plan.bucket)) && k !in Describes(At(s, plan.bucket));
      } else {
        assert PlannedKeys(plan.objects) == {};
        assert At(s, plan.bucket) == At(s0, plan.bucket);
      }
    } else {
      assert At(s, PROTECTED_BUCKET) == At(s0, PROTECTED_BUCKET);
    }
  }

  lemma RemainingDescribed(before: Bucket, objects: seq<Planned>)
    ensures Describes(Minus(before, objects)) == Remaining(Describes(before), PlannedKeys(objects))
  {
  }
}
