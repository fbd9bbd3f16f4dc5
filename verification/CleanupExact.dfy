/** What each cleanup command accepts and changes, said of the stores and files themselves. */
module CleanupExact {
  import opened Results
  import opened Ordering
  import opened Texts
  import opened CleanupModel
  import opened CleanupEffects

  // ---------------------------------------------------------------- records and paths

  predicate UpBetween(key: Key, a: string, b: string) {
    key == a + ".." + b && (a == "" || a[|a| - 1] == '/') && (b == "" || b[0] == '/')
  }

  /** The key steps up to a parent directory: two dots between slashes, or between one and an end. */
  ghost predicate StepsUp(key: Key) { exists a, b :: UpBetween(key, a, b) }

  lemma UpIsPart(key: Key, a: string, b: string)
    requires UpBetween(key, a, b)
    ensures ".." in Split(key, '/')
  {
    SplitNothing("..", '/');
    var tail := ".." + b;
    assert ".." in Split(tail, '/') by {
      if b == "" {
        assert tail == "..";
      } else {
        SplitAt("..", '/', b[1..]);
        assert tail == ".." + ['/'] + b[1..];
      }
    }
    if a == "" {
      assert key == tail;
    } else {
      SplitAt(a[..|a| - 1], '/', tail);
      assert key == a[..|a| - 1] + ['/'] + tail;
    }
  }

  lemma SplitFound(key: Key)
    ensures var k := Find(key, '/');
      if k == |key| then Split(key, '/') == [key] else Split(key, '/') == [key[..k]] + Split(key[k + 1..], '/')
  {
    var k := Find(key, '/');
    SplitNothing(key[..k], '/');
    if k == |key| {
      assert key[..k] == key;
    } else {
      SplitAt(key[..k], '/', key[k + 1..]);
      assert key == key[..k] + ['/'] + key[k + 1..];
    }
  }

  lemma UpLater(key: Key, k: nat, a: string, b: string)
    requires k < |key| && key[k] == '/' && UpBetween(key[k + 1..], a, b)
    ensures UpBetween(key, key[..k + 1] + a, b)
  {
    assert key == key[..k + 1] + key[k + 1..];
    assert key[..k + 1] + (a + ".." + b) == key[..k + 1] + a + ".." + b;
  }

  lemma {:induction false} PartIsUp(key: Key) returns (a: string, b: string)
    requires ".." in Split(key, '/')
    ensures UpBetween(key, a, b)
    decreases |key|
  {
    var k := Find(key, '/');
    SplitFound(key);
    if k == |key| {
      a, b := "", "";
      assert key == "..";
    } else if key[..k] == ".." {
      a, b := "", key[k..];
      assert key == key[..k] + key[k..];
    } else {
      a, b := PartIsUp(key[k + 1..]);
      UpLater(key, k, a, b);
      a := key[..k + 1] + a;
    }
  }

  lemma StepsUpIff(key: Key)
    ensures ".." in Split(key, '/') <==> StepsUp(key)
  {
    if ".." in Split(key, '/') { var a, b := PartIsUp(key); }
    forall a, b | UpBetween(key, a, b) ensures ".." in Split(key, '/') { UpIsPart(key, a, b); }
  }

  /** A record is complete when its key stays below its bucket and every field is well formed. */
  lemma CompleteIff(r: Record)
    ensures Complete(r) <==>
      && r.key != "" && r.key[0] != '/' && !StepsUp(r.key)
      && 0 <= r.size && r.sha1 != NotHex && r.sha256 != NotHex && r.etag != ""
  {
    StepsUpIff(r.key);
  }

  /** A backup path has the parts of bucket and key that name something, each as often as they do. */
  lemma {:induction false} NamedParts(parts: seq<string>)
    ensures "" !in Named(parts) && "." !in Named(parts)
    ensures forall x :: x != "" && x != "." ==> multiset(Named(parts))[x] == multiset(parts)[x]
    ensures "" !in parts && "." !in parts ==> Named(parts) == parts
  {
    if parts != [] {
      NamedParts(parts[1..]);
      assert parts == [parts[0]] + parts[1..];
    }
  }

  /** The backup of a plain key in a plain bucket has the bucket's name and the key as its path. */
  lemma PlainBackupPath(bucket: string, key: Key)
    requires '/' !in bucket && bucket != "" && bucket != "." && "" !in Split(key, '/') && "." !in Split(key, '/')
    ensures Join(BackupPath(bucket, key), '/') == bucket + "/" + key
  {
    SplitNothing(bucket, '/');
    var parts := Split(bucket, '/') + Split(key, '/');
    NamedParts(parts);
    JoinConcat(Split(bucket, '/'), Split(key, '/'), '/');
    JoinSplit(bucket, '/');
    JoinSplit(key, '/');
  }

  // ---------------------------------------------------------------- inventory

  /** A listing describes exactly the objects that stand in a bucket, each of them completely. */
  ghost predicate Standing(buckets: map<string, Bucket>, name: string, listing: Listing) {
    forall k ::
      && (k in listing <==> name in buckets && k in buckets[name])
      && (k in listing ==> listing[k] == Describe(k, buckets[name][k]) && Complete(listing[k]))
  }

  lemma StandingIff(w: World, name: string, listing: Listing)
    ensures Standing(w.buckets, name, listing) <==> Inventoried(BucketOf(w, name)) == Ok(listing)
  {
    var b := BucketOf(w, name);
    if Standing(w.buckets, name, listing) {
      assert listing.Keys == b.Keys;
      assert listing == Describes(b);
    }
    if Inventoried(b) == Ok(listing) { assert listing == Describes(b); }
  }

  /** `classify_keys`: which class each key is put into. */
  lemma ClassMembers(remote: set<Key>, legacy: set<Key>, rag: set<Key>, wiki: set<Key>, isProbe: Key -> bool, k: Key)
    requires Classify(remote, legacy, rag, wiki, isProbe).Ok?
    ensures var c := Classify(remote, legacy, rag, wiki, isProbe).value;
            && (k in c.active <==> k in rag || k in wiki)
            && (k in c.probes <==> k in remote && isProbe(k))
            && (k in c.candidates <==> k in remote && k in legacy && k !in rag && k !in wiki && !isProbe(k))
            && (k in c.residual <==> k in remote && k !in legacy && k !in rag && k !in wiki && !isProbe(k))
            && (k in c.missing <==> k in legacy && k !in remote)
  {
    var c := Classify(remote, legacy, rag, wiki, isProbe).value;
    ClassesCover(remote, legacy, rag, wiki, isProbe);
    assert k in c.active <==> k in Elements(c.active);
    assert k in c.probes <==> k in Elements(c.probes);
    assert k in c.candidates <==> k in Elements(c.candidates);
    assert k in c.residual <==> k in Elements(c.residual);
    assert k in c.missing <==> k in Elements(c.missing);
  }

  /** What a manifest says of a key is what the store has. */
  ghost predicate AsExpected(e: Expected, o: Stored) {
    && (e.sha1.Some? ==> e.sha1.value == DigestOf(o.body))
    && (e.sha256.Some? ==> e.sha256.value == DigestOf(o.body))
    && (e.size.Some? ==> e.size.value == |o.body|)
  }

  /** `command_inventory` passes exactly when all of this holds. */
  ghost predicate Inventoriable(
    w: World, bucket: string, legacy: seq<Expected>, rag: seq<Expected>, wiki: seq<Expected>)
  {
    && (exists target :: Standing(w.buckets, bucket, target)) && (exists other :: Standing(w.buckets, PROTECTED_BUCKET, other))
    && (forall e :: e in rag || e in wiki ==> e.key in BucketOf(w, bucket))
    && (forall e :: e in legacy || e in rag || e in wiki ==>
          e.key in BucketOf(w, bucket) ==> AsExpected(e, BucketOf(w, bucket)[e.key]))
  }

  lemma HashesAgreeIff(b: Bucket, rows: seq<Expected>)
    ensures HashesAgree(Describes(b), rows) <==> forall e :: e in rows ==> e.key in b ==> AsExpected(e, b[e.key])
  {
    if HashesAgree(Describes(b), rows) {
      forall e | e in rows && e.key in b ensures AsExpected(e, b[e.key]) {
        var i :| 0 <= i < |rows| && rows[i] == e;
        assert rows[i].key in Describes(b);
      }
    }
  }

  lemma ActivePresentIff(remote: set<Key>, rag: seq<Expected>, wiki: seq<Expected>)
    ensures KeysOf(rag) + KeysOf(wiki) <= remote <==> forall e :: e in rag || e in wiki ==> e.key in remote
  {
    forall e | e in rag || e in wiki ensures e.key in KeysOf(rag) + KeysOf(wiki) {
      if e in rag { var i :| 0 <= i < |rag| && rag[i] == e; } else { var i :| 0 <= i < |wiki| && wiki[i] == e; }
    }
  }

  /** `command_inventory`: when it passes. */
  lemma InventoryPassesIff(
    w: World, bucket: string, legacy: seq<Expected>, rag: seq<Expected>, wiki: seq<Expected>, isProbe: Key -> bool)
    ensures TakeInventory(w, bucket, legacy, rag, wiki, isProbe).Ok? <==> Inventoriable(w, bucket, legacy, rag, wiki)
  {
    var b := BucketOf(w, bucket);
    HasInventory(w, bucket);
    HasInventory(w, PROTECTED_BUCKET);
    ClassesCover(Describes(b).Keys, KeysOf(legacy), KeysOf(rag), KeysOf(wiki), isProbe);
    ActivePresentIff(Describes(b).Keys, rag, wiki);
    HashesAgreeIff(b, legacy + rag + wiki);
    assert forall e :: e in legacy + rag + wiki <==> e in legacy || e in rag || e in wiki;
  }

  lemma HasInventory(w: World, name: string)
    ensures Inventoried(BucketOf(w, name)).Ok? <==> exists listing :: Standing(w.buckets, name, listing)
  {
    StandingIff(w, name, Describes(BucketOf(w, name)));
    if listing :| Standing(w.buckets, name, listing) { StandingIff(w, name, listing); }
  }

  // ---------------------------------------------------------------- backup and plan

  /** A download that may be kept as the backup of a record. */
  ghost predicate Faithful(body: Body, r: Record) {
    r.sha1 == DigestOf(body) && r.sha256 == DigestOf(body) && r.size == |body|
  }

  /** Nothing is in the way of a backup: no file at its path, above it or below it. */
  ghost predicate Free(path: seq<string>, files: Backups) {
    forall p :: p in files ==> !(p <= path) && !(path <= p)
  }

  /** Object i can be backed up after the ones before it. */
  ghost predicate Storable(bucket: string, objects: seq<Record>, bodies: seq<Body>, files: Backups, i: nat)
    requires |objects| == |bodies| && i < |objects|
  {
    && Complete(objects[i]) && Faithful(bodies[i], objects[i]) && Free(BackupPath(bucket, objects[i].key), files)
    && forall j :: 0 <= j < i ==> Apart(bucket, objects[j].key, objects[i].key)
  }

  predicate Apart(bucket: string, a: Key, b: Key) {
    !(BackupPath(bucket, a) <= BackupPath(bucket, b)) && !(BackupPath(bucket, b) <= BackupPath(bucket, a))
  }

  lemma StorableRest(bucket: string, objects: seq<Record>, bodies: seq<Body>, files: Backups, i: nat)
    requires |objects| == |bodies| && i < |objects| - 1
    ensures Storable(bucket, objects, bodies, files, i + 1) <==>
      Storable(bucket, objects[1..], bodies[1..], files[BackupPath(bucket, objects[0].key) := bodies[0]], i)
  {
    var path, here := BackupPath(bucket, objects[0].key), BackupPath(bucket, objects[i + 1].key);
    var written := files[path := bodies[0]];
    assert Free(here, written) <==> Free(here, files) && Apart(bucket, objects[0].key, objects[i + 1].key) by {
      if Free(here, written) { assert path in written; assert forall p :: p in files ==> p in written; }
    }
    forall j | 0 <= j < i ensures objects[1..][j] == objects[j + 1] {}
    if forall j :: 0 <= j < i ==> Apart(bucket, objects[1..][j].key, objects[1..][i].key) {
      forall j | 1 <= j < i + 1 ensures Apart(bucket, objects[j].key, objects[i + 1].key) { assert objects[1..][j - 1] == objects[j]; }
    }
  }

  /** `command_backup_minio`: it succeeds exactly when every object can be backed up. */
  lemma {:induction false} BackUpPassesIff(bucket: string, objects: seq<Record>, bodies: seq<Body>, files: Backups)
    requires |objects| == |bodies|
    ensures BackUp(bucket, objects, bodies, files).Ok? <==> forall i :: 0 <= i < |objects| ==> Storable(bucket, objects, bodies, files, i)
    decreases |objects|
  {
    if objects != [] {
      var written := files[BackupPath(bucket, objects[0].key) := bodies[0]];
      assert Storable(bucket, objects, bodies, files, 0) <==>
        Complete(objects[0]) && !Clashes(BackupPath(bucket, objects[0].key), files) && MatchesRecord(bodies[0], objects[0]);
      BackUpPassesIff(bucket, objects[1..], bodies[1..], written);
      forall i: nat | i < |objects| - 1
        ensures Storable(bucket, objects, bodies, files, i + 1) <==> Storable(bucket, objects[1..], bodies[1..], written, i)
      {
        StorableRest(bucket, objects, bodies, files, i);
      }
      if forall i :: 0 <= i < |objects[1..]| ==> Storable(bucket, objects[1..], bodies[1..], written, i) {
        forall i | 1 <= i < |objects| ensures Storable(bucket, objects, bodies, files, i) {
          assert Storable(bucket, objects[1..], bodies[1..], written, i - 1);
        }
      }
    }
  }

  /** `command_backup_minio`: when a backup is made, and of what its receipt speaks. */
  lemma BackupTakenIff(inventory: Inventory, candidates: CandidateSet, bodies: seq<Body>, files: Backups)
    requires |bodies| == |candidates.objects|
    ensures TakeBackup(inventory, candidates, bodies, files).Ok? <==>
      candidates == inventory.candidates
      && forall i :: 0 <= i < |candidates.objects| ==> Storable(candidates.bucket, candidates.objects, bodies, files, i)
    ensures TakeBackup(inventory, candidates, bodies, files) == Err(WrongDigest) <==> candidates != inventory.candidates
    ensures match TakeBackup(inventory, candidates, bodies, files)
            case Ok((_, receipt)) =>
              receipt.bucket == candidates.bucket && receipt.inventory == inventory && receipt.candidates == candidates
            case Err(_) => true
  {
    BackUpPassesIff(candidates.bucket, candidates.objects, bodies, files);
    BackUpRefusedFor(candidates.bucket, candidates.objects, bodies, files);
  }

  lemma {:induction false} BackUpRefusedFor(bucket: string, objects: seq<Record>, bodies: seq<Body>, files: Backups)
    requires |objects| == |bodies|
    ensures match BackUp(bucket, objects, bodies, files)
            case Err(e) => e == IncompleteRecord || e == BackupClash || e == BackupMismatch
            case Ok(_) => true
    decreases |objects|
  {
    if objects != [] { BackUpRefusedFor(bucket, objects[1..], bodies[1..], files[BackupPath(bucket, objects[0].key) := bodies[0]]); }
  }

  /** `command_plan`: when a plan is made, and what it says. */
  lemma PlanMadeIff(operation: string, inventory: Inventory, local: Local, receipt: BackupReceipt, gates: bool)
    ensures MakePlan(operation, inventory, local, receipt, gates).Ok? <==>
              gates && receipt.inventory == inventory && |receipt.objects| == |inventory.candidates.objects|
    ensures MakePlan(operation, inventory, local, receipt, gates).Ok? ==>
              MakePlan(operation, inventory, local, receipt, gates).value == Plan(operation, receipt.bucket, receipt.objects, inventory, local)
  {
  }

  // ---------------------------------------------------------------- the checks of apply

  /** Every local candidate is on disk as the plan's backup has it. */
  ghost predicate LocalAsPlanned(local: Local, plan: Plan) {
    forall path :: path in LOCAL_CANDIDATES ==> path in local && path in plan.local && local[path] == plan.local[path]
  }

  /** The four stores are as they were inventoried. */
  ghost predicate StoresAsInventoried(w: World, plan: Plan) {
    && Standing(w.buckets, plan.bucket, plan.inventory.target)
    && Standing(w.buckets, PROTECTED_BUCKET, plan.inventory.protectedBucket)
    && w.mysql == plan.inventory.mysql && w.milvus == plan.inventory.milvus
  }

  lemma SameCandidatesIff(local: Local, plan: Plan)
    ensures AllPresent(LOCAL_CANDIDATES, local) && SameCandidates(local, plan.local) <==> LocalAsPlanned(local, plan)
  {
    if LocalAsPlanned(local, plan) {
      forall i | 0 <= i < |LOCAL_CANDIDATES| ensures LOCAL_CANDIDATES[i] in local { assert LOCAL_CANDIDATES[i] in LOCAL_CANDIDATES; }
    }
  }

  /** The checks before the first effect pass exactly when nothing drifted and the plan was not used before. */
  lemma ApplyPassesIff(plan: Plan, expected: Plan, w: World, receiptExists: bool)
    ensures ApplyGate(plan, expected, w, receiptExists).None? <==>
              plan == expected && !receiptExists && LocalAsPlanned(w.local, plan) && StoresAsInventoried(w, plan)
  {
    SameCandidatesIff(w.local, plan);
    StandingIff(w, plan.bucket, plan.inventory.target);
    StandingIff(w, PROTECTED_BUCKET, plan.inventory.protectedBucket);
  }

  /** What each refusal has found. */
  lemma ApplyRefusedFor(plan: Plan, expected: Plan, w: World, receiptExists: bool)
    requires ApplyGate(plan, expected, w, receiptExists).Some?
    ensures match ApplyGate(plan, expected, w, receiptExists).value
            case WrongDigest => plan != expected
            case ReceiptExists => plan == expected && receiptExists
            case LocalMissing => !receiptExists && exists path :: path in LOCAL_CANDIDATES && path !in w.local
            case LocalDrift => !receiptExists && exists path :: path in LOCAL_CANDIDATES && path in w.local && (path !in plan.local || w.local[path] != plan.local[path])
            case IncompleteRecord =>
              LocalAsPlanned(w.local, plan) && exists name, k :: name in {plan.bucket, PROTECTED_BUCKET} && k in BucketOf(w, name) && !Complete(Describe(k, BucketOf(w, name)[k]))
            case Stale => LocalAsPlanned(w.local, plan) && !StoresAsInventoried(w, plan)
            case _ => false
  {
    SameCandidatesIff(w.local, plan);
    ApplyPassesIff(plan, expected, w, receiptExists);
    if ApplyGate(plan, expected, w, receiptExists) == Some(LocalMissing) {
      var i :| 0 <= i < |LOCAL_CANDIDATES| && LOCAL_CANDIDATES[i] !in w.local;
      assert LOCAL_CANDIDATES[i] in LOCAL_CANDIDATES;
    }
    if ApplyGate(plan, expected, w, receiptExists) == Some(LocalDrift) {
      var p :| p in LOCAL_CANDIDATES && !(p in w.local && p in plan.local && w.local[p] == plan.local[p]);
      var i :| 0 <= i < |LOCAL_CANDIDATES| && LOCAL_CANDIDATES[i] == p;
    }
    if Inventoried(BucketOf(w, plan.bucket)).Err? { SomeIncomplete(w, plan.bucket); }
    if Inventoried(BucketOf(w, PROTECTED_BUCKET)).Err? { SomeIncomplete(w, PROTECTED_BUCKET); }
  }

  lemma SomeIncomplete(w: World, name: string)
    requires Inventoried(BucketOf(w, name)).Err?
    ensures exists k :: k in BucketOf(w, name) && !Complete(Describe(k, BucketOf(w, name)[k]))
  {
    var l := Describes(BucketOf(w, name));
    var k :| k in l && !Complete(l[k]);
    assert k in BucketOf(w, name);
  }

  // ---------------------------------------------------------------- verification

  ghost predicate IsPlanned(plan: Plan, k: Key) { exists j :: 0 <= j < |plan.objects| && plan.objects[j].record.key == k }

  ghost predicate HasRemoteReceipt(rows: seq<Row>, k: Key) { exists i :: 0 <= i < |rows| && rows[i].RemoteDeleted? && rows[i].key == k }

  ghost predicate HasLocalReceipt(rows: seq<Row>, path: string) { exists i :: 0 <= i < |rows| && rows[i].LocalDeleted? && rows[i].path == path }

  /** The receipt says that each planned object and each local candidate was deleted, and nothing else. */
  ghost predicate Covered(plan: Plan, rows: seq<Row>) {
    && (forall k :: HasRemoteReceipt(rows, k) <==> IsPlanned(plan, k))
    && (forall path :: HasLocalReceipt(rows, path) <==> path in LOCAL_CANDIDATES)
  }

  /** A bucket holds exactly the inventoried objects whose keys are not planned. */
  ghost predicate Reduced(w: World, plan: Plan) {
    forall k :: k in BucketOf(w, plan.bucket) <==>
      k in plan.inventory.target && !IsPlanned(plan, k)
  }

  ghost predicate RemainingAsInventoried(w: World, plan: Plan) {
    && Reduced(w, plan)
    && forall k :: k in BucketOf(w, plan.bucket) ==>
         && plan.inventory.target[k] == Describe(k, BucketOf(w, plan.bucket)[k])
         && Complete(plan.inventory.target[k])
  }

  lemma CoveredIff(plan: Plan, rows: seq<Row>)
    ensures Covered(plan, rows) <==> RemoteReceipts(rows) == PlannedKeys(plan.objects) && LocalReceipts(rows) == Elements(LOCAL_CANDIDATES)
  {
    var remote, planned, local := RemoteReceipts(rows), PlannedKeys(plan.objects), LocalReceipts(rows);
    assert forall k :: k in remote <==> HasRemoteReceipt(rows, k);
    assert forall k :: k in planned <==> IsPlanned(plan, k);
    assert forall path :: path in local <==> HasLocalReceipt(rows, path);
    assert forall path :: path in Elements(LOCAL_CANDIDATES) <==> path in LOCAL_CANDIDATES;
    if Covered(plan, rows) {
      assert forall k :: k in remote <==> k in planned;
      assert forall path :: path in local <==> path in Elements(LOCAL_CANDIDATES);
    }
  }

  lemma RemainingIff(w: World, plan: Plan)
    ensures RemainingAsInventoried(w, plan) <==>
      Inventoried(BucketOf(w, plan.bucket)).Ok? && Describes(BucketOf(w, plan.bucket)) == Remaining(plan.inventory.target, PlannedKeys(plan.objects))
  {
    var b, deleted := BucketOf(w, plan.bucket), PlannedKeys(plan.objects);
    var left := Remaining(plan.inventory.target, deleted);
    assert forall k :: k in deleted <==> IsPlanned(plan, k);
    if RemainingAsInventoried(w, plan) {
      assert Describes(b).Keys == left.Keys;
      assert Describes(b) == left;
    }
    if Inventoried(b).Ok? && Describes(b) == left {
      forall k ensures k in b <==> k in left { assert k in b <==> k in Describes(b); }
    }
  }

  /**
   `command_verify` accepts exactly when the plan is the pinned one, the receipt shows completion and covers the
   plan, no local candidate is left, the bucket is the inventory without the planned keys, and nothing else changed.
   */
  lemma VerifyAcceptsIff(plan: Plan, expected: Plan, rows: seq<Row>, w: World)
    ensures Verify(plan, expected, rows, w).None? <==>
      && plan == expected
      && rows != [] && rows[|rows| - 1].Completed? && Covered(plan, rows)
      && (forall path :: path in LOCAL_CANDIDATES ==> path !in w.local)
      && RemainingAsInventoried(w, plan)
      && Standing(w.buckets, PROTECTED_BUCKET, plan.inventory.protectedBucket)
      && w.mysql == plan.inventory.mysql && w.milvus == plan.inventory.milvus
  {
    CoveredIff(plan, rows);
    RemainingIff(w, plan);
    StandingIff(w, PROTECTED_BUCKET, plan.inventory.protectedBucket);
    NoneLeftIff(w.local);
  }

  lemma NoneLeftIff(local: Local)
    ensures (forall path :: path in LOCAL_CANDIDATES ==> path !in local) <==>
      !exists i :: 0 <= i < |LOCAL_CANDIDATES| && LOCAL_CANDIDATES[i] in local
  {
    assert (exists i :: 0 <= i < |LOCAL_CANDIDATES| && LOCAL_CANDIDATES[i] in local) <==> !forall path :: path in LOCAL_CANDIDATES ==> path !in local;
  }

  // ---------------------------------------------------------------- restore

  /** Item j can be created: complete, backed up with the recorded content, absent, and not asked for before. */
  ghost predicate Creatable(s: State, items: seq<Planned>, files: Backups, j: nat)
    requires j < |items|
  {
    var p := items[j];
    && Complete(p.record) && p.path in files && Faithful(files[p.path], p.record)
    && p.record.key !in At(s, p.bucket)
    && forall i :: 0 <= i < j ==> (items[i].bucket, items[i].record.key) != (p.bucket, p.record.key)
  }

  /** Exactly the first n items were created, each with the content of its backup. */
  ghost predicate Created(s: State, t: State, operation: string, items: seq<Planned>, files: Backups, etags: seq<string>, n: nat)
    requires n <= |items| == |etags|
  {
    && t.local == s.local
    && |t.rows| == |s.rows| + n && s.rows <= t.rows
    && (forall j :: 0 <= j < n ==> t.rows[|s.rows| + j] == Restored(items[j].record.key, etags[j]))
    && (forall b, k :: k in At(s, b) ==> k in At(t, b) && At(t, b)[k] == At(s, b)[k])
    && (forall b, k :: k in At(t, b) ==> k in At(s, b) || exists j :: 0 <= j < n && items[j].bucket == b && items[j].record.key == k)
    && (forall j :: 0 <= j < n ==> IsThere(t, operation, items[j], files, etags[j]))
  }

  ghost predicate IsThere(t: State, operation: string, p: Planned, files: Backups, etag: string) {
    && p.path in files && p.record.key in At(t, p.bucket)
    && At(t, p.bucket)[p.record.key] == Stored(files[p.path], etag, None, Some(operation), None)
  }

  lemma CreatableRest(s: State, operation: string, items: seq<Planned>, files: Backups, etag: string, j: nat)
    requires j < |items| - 1 && items[0].path in files
    ensures Creatable(s, items, files, j + 1) <==>
      Creatable(RestoredOne(s, operation, items[0], files[items[0].path], etag), items[1..], files, j)
  {
    var p, q := items[0], items[j + 1];
    var next := RestoredOne(s, operation, p, files[p.path], etag);
    assert items[1..][j] == q;
    assert q.record.key in At(next, q.bucket) <==> q.record.key in At(s, q.bucket) || (p.bucket, p.record.key) == (q.bucket, q.record.key);
    forall i | 0 <= i < j ensures items[1..][i] == items[i + 1] {}
    if forall i :: 0 <= i < j ==> (items[1..][i].bucket, items[1..][i].record.key) != (q.bucket, q.record.key) {
      forall i | 1 <= i < j + 1 ensures (items[i].bucket, items[i].record.key) != (q.bucket, q.record.key) { assert items[1..][i - 1] == items[i]; }
    }
  }

  /** One item was created, and nothing else happened. */
  ghost predicate CreatedOne(s: State, next: State, operation: string, p: Planned, files: Backups, etag: string) {
    && next.local == s.local && next.rows == s.rows + [Restored(p.record.key, etag)]
    && (forall b, k :: k in At(next, b) <==> k in At(s, b) || (b, k) == (p.bucket, p.record.key))
    && (forall b, k :: k in At(s, b) ==> At(next, b)[k] == At(s, b)[k])
    && IsThere(next, operation, p, files, etag)
  }

  lemma CreatedFirst(s: State, operation: string, p: Planned, files: Backups, etag: string)
    requires p.path in files && p.record.key !in At(s, p.bucket)
    ensures CreatedOne(s, RestoredOne(s, operation, p, files[p.path], etag), operation, p, files, etag)
  {
  }

  lemma CreatedRows(first: seq<Row>, begin: seq<Row>, rows: seq<Row>, items: seq<Planned>, etags: seq<string>, n: nat)
    requires n < |items| == |etags| && begin == first + [Restored(items[0].record.key, etags[0])] && begin <= rows && |rows| == |begin| + n
    requires forall j :: 0 <= j < n ==> rows[|begin| + j] == Restored(items[1..][j].record.key, etags[1..][j])
    ensures first <= rows && forall j :: 0 <= j < n + 1 ==> rows[|first| + j] == Restored(items[j].record.key, etags[j])
  {
    assert rows[|first|] == begin[|first|];
    forall j | 1 <= j < n + 1 ensures rows[|first| + j] == Restored(items[j].record.key, etags[j]) {
      assert rows[|begin| + (j - 1)] == Restored(items[1..][j - 1].record.key, etags[1..][j - 1]);
    }
  }

  lemma CreatedKeys(s: State, next: State, t: State, operation: string, items: seq<Planned>, files: Backups, etags: seq<string>, n: nat)
    requires n < |items| == |etags| && Created(next, t, operation, items[1..], files, etags[1..], n)
    requires forall b, k :: k in At(next, b) <==> k in At(s, b) || (b, k) == (items[0].bucket, items[0].record.key)
    ensures forall b, k :: k in At(t, b) ==> k in At(s, b) || exists j :: 0 <= j < n + 1 && items[j].bucket == b && items[j].record.key == k
  {
    forall b, k | k in At(t, b) && k !in At(s, b) ensures exists j :: 0 <= j < n + 1 && items[j].bucket == b && items[j].record.key == k {
      if k !in At(next, b) {
        var j :| 0 <= j < n && items[1..][j].bucket == b && items[1..][j].record.key == k;
        assert items[j + 1] == items[1..][j];
      } else {
        assert items[0].bucket == b && items[0].record.key == k;
      }
    }
  }

  lemma StillThere(s: State, next: State, t: State, operation: string, p: Planned, files: Backups, etag: string)
    requires forall b, k :: k in At(s, b) ==> k in At(next, b) && At(next, b)[k] == At(s, b)[k]
    requires forall b, k :: k in At(next, b) ==> k in At(t, b) && At(t, b)[k] == At(next, b)[k]
    requires IsThere(next, operation, p, files, etag)
    ensures forall b, k :: k in At(s, b) ==> k in At(t, b) && At(t, b)[k] == At(s, b)[k]
    ensures IsThere(t, operation, p, files, etag)
  {
  }

  lemma CreatedItems(t: State, operation: string, items: seq<Planned>, files: Backups, etags: seq<string>, n: nat)
    requires n < |items| == |etags| && IsThere(t, operation, items[0], files, etags[0])
    requires forall j :: 0 <= j < n ==> IsThere(t, operation, items[1..][j], files, etags[1..][j])
    ensures forall j :: 0 <= j < n + 1 ==> IsThere(t, operation, items[j], files, etags[j])
  {
    forall j | 1 <= j < n + 1 ensures IsThere(t, operation, items[j], files, etags[j]) {
      assert IsThere(t, operation, items[1..][j - 1], files, etags[1..][j - 1]);
    }
  }

  lemma CreatedRest(s: State, next: State, t: State, operation: string, items: seq<Planned>, files: Backups, etags: seq<string>, n: nat)
    requires n < |items| == |etags| && CreatedOne(s, next, operation, items[0], files, etags[0])
    requires Created(next, t, operation, items[1..], files, etags[1..], n)
    ensures Created(s, t, operation, items, files, etags, n + 1)
  {
    CreatedRows(s.rows, next.rows, t.rows, items, etags, n);
    CreatedKeys(s, next, t, operation, items, files, etags, n);
    StillThere(s, next, t, operation, items[0], files, etags[0]);
    CreatedItems(t, operation, items, files, etags, n);
  }

  lemma CreatablesRest(s: State, operation: string, items: seq<Planned>, files: Backups, etag: string, m: nat)
    requires m < |items| && Creatable(s, items, files, 0)
    requires var next := RestoredOne(s, operation, items[0], files[items[0].path], etag);
      (forall j :: 0 <= j < m ==> Creatable(next, items[1..], files, j)) && (m < |items| - 1 ==> !Creatable(next, items[1..], files, m))
    ensures (forall j :: 0 <= j < m + 1 ==> Creatable(s, items, files, j)) && (m + 1 < |items| ==> !Creatable(s, items, files, m + 1))
  {
    forall j | 1 <= j < m + 1 ensures Creatable(s, items, files, j) { CreatableRest(s, operation, items, files, etag, j - 1); }
    if m + 1 < |items| { CreatableRest(s, operation, items, files, etag, m); }
  }

  /** Moving on to the items after the first, which was created. */
  lemma RestoreStep(s: State, operation: string, items: seq<Planned>, files: Backups, etags: seq<string>, m: nat)
    requires |etags| == |items| && items != [] && m < |items| && Creatable(s, items, files, 0)
    requires var next := RestoredOne(s, operation, items[0], files[items[0].path], etags[0]);
      && (forall j :: 0 <= j < m ==> Creatable(next, items[1..], files, j)) && (m < |items| - 1 ==> !Creatable(next, items[1..], files, m))
      && Created(next, RestoreAll(next, operation, items[1..], files, etags[1..]).0, operation, items[1..], files, etags[1..], m)
    ensures (forall j :: 0 <= j < m + 1 ==> Creatable(s, items, files, j)) && (m + 1 < |items| ==> !Creatable(s, items, files, m + 1))
    ensures Created(s, RestoreAll(s, operation, items, files, etags).0, operation, items, files, etags, m + 1)
  {
    var next := RestoredOne(s, operation, items[0], files[items[0].path], etags[0]);
    CreatablesRest(s, operation, items, files, etags[0], m);
    CreatedFirst(s, operation, items[0], files, etags[0]);
    CreatedRest(s, next, RestoreAll(next, operation, items[1..], files, etags[1..]).0, operation, items, files, etags, m);
  }

  /**
   Whatever is asked: exactly the items before the first one that cannot be created are created, each with a
   content that matches its record; nothing else changes, and the refusal says what was wrong with that item.
   */
  lemma {:induction false} RestoreExact(s: State, operation: string, items: seq<Planned>, files: Backups, etags: seq<string>) returns (n: nat)
    requires |etags| == |items|
    ensures n <= |items| && (forall j :: 0 <= j < n ==> Creatable(s, items, files, j)) && (n < |items| ==> !Creatable(s, items, files, n))
    ensures var (t, refused) := RestoreAll(s, operation, items, files, etags);
      && Created(s, t, operation, items, files, etags, n)
      && (refused.None? <==> n == |items|)
      && (n < |items| ==> refused == Some(Refusal(items[n], files)))
    decreases |items|
  {
    if items == [] {
      n := 0;
    } else {
      var p := items[0];
      if Creatable(s, items, files, 0) {
        var next := RestoredOne(s, operation, p, files[p.path], etags[0]);
        var m := RestoreExact(next, operation, items[1..], files, etags[1..]);
        n := m + 1;
        RestoreStep(s, operation, items, files, etags, m);
        if n < |items| { assert items[1..][m] == items[n]; }
      } else {
        n := 0;
      }
    }
  }

  /** What the refusal at an item says. */
  ghost function Refusal(p: Planned, files: Backups): Failure {
    if !Complete(p.record) then IncompleteRecord
    else if p.path !in files || !Faithful(files[p.path], p.record) then BackupMismatch
    else AlreadyExists
  }
}
