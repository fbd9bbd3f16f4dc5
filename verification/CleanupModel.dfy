/**
 Data and pure steps of the exact-deletion protocol (scripts/cleanup_legacy_rag_p2.py).

 A digest stands for the bytes it was computed from, and the digest of an evidence file for the
 file's payload: SHA digests are taken to be injective, so comparing digests is comparing contents.
 */
module CleanupModel {
  import opened Results
  import opened Ordering
  import opened Texts

  type Key = string
  type Body = seq<Byte>

  /** A hexadecimal field: the digest of some bytes, another well-formed text, or not hexadecimal. */
  datatype Hex = DigestOf(body: Body) | OtherHex(id: nat) | NotHex

  /** An object as the store holds it. */
  datatype Stored = Stored(body: Body, etag: string, version: Option<string>, operation: Option<string>, audit: Option<string>)

  /** An object as an inventory describes it. */
  datatype Record = Record(
    key: Key, size: int, sha1: Hex, sha256: Hex, etag: string,
    version: Option<string>, operation: Option<string>, audit: Option<string>)

  type Bucket = map<Key, Stored>
  type Listing = map<Key, Record>

  datatype Failure =
    | IncompleteRecord | MissingActive(keys: set<Key>) | HashMismatch | WrongDigest | BackupMismatch
    | BackupClash | GateClosed | ReceiptExists | LocalMissing | LocalDrift | Stale | NotCompleted
    | ReceiptCoverage | LocalRemains | TargetDiffers | OtherStoreChanged | AlreadyExists

  // ---------------------------------------------------------------- records and inventories

  predicate Complete(r: Record) {
    && r.key != "" && r.key[0] != '/' && ".." !in Split(r.key, '/')
    && r.size >= 0
    && !r.sha1.NotHex? && !r.sha256.NotHex?
    && r.etag != ""
  }

  function Describe(key: Key, o: Stored): Record {
    Record(key, |o.body|, DigestOf(o.body), DigestOf(o.body), o.etag, o.version, o.operation, o.audit)
  }

  function Describes(b: Bucket): Listing {
    map k | k in b :: Describe(k, b[k])
  }

  /** `_inventory_payload`: the listing of a bucket, refused when a record is incomplete. */
  function Inventoried(b: Bucket): Result<Listing, Failure> {
    var l := Describes(b);
    if forall k | k in l :: Complete(l[k]) then Ok(l) else Err(IncompleteRecord)
  }

  // ---------------------------------------------------------------- classification

  datatype Classes = Classes(
    candidates: seq<Key>, active: seq<Key>, probes: seq<Key>, residual: seq<Key>, missing: seq<Key>)

  /** `classify_keys`. */
  function Classify(remote: set<Key>, legacy: set<Key>, rag: set<Key>, wiki: set<Key>, isProbe: Key -> bool)
    : Result<Classes, Failure>
  {
    var active := rag + wiki;
    if active - remote != {} then Err(MissingActive(active - remote))
    else
      var probes := set k | k in remote && isProbe(k);
      var candidates := remote * (legacy - active) - probes;
      var residual := remote - active - candidates - probes;
      Ok(Classes(Sorted(candidates), Sorted(remote * active), Sorted(probes), Sorted(residual), Sorted(legacy - remote)))
  }

  lemma ClassesCover(remote: set<Key>, legacy: set<Key>, rag: set<Key>, wiki: set<Key>, isProbe: Key -> bool)
    ensures Classify(remote, legacy, rag, wiki, isProbe).Ok? <==> rag + wiki <= remote
    ensures match Classify(remote, legacy, rag, wiki, isProbe)
            case Err(e) => e == MissingActive(rag + wiki - remote) && e.keys != {}
            case Ok(c) =>
              var d, a, p, r := Elements(c.candidates), Elements(c.active), Elements(c.probes), Elements(c.residual);
              && d + a + p + r == remote
              && d !! a && d !! p && d !! r && a !! r && p !! r
              && a * p == (set k | k in rag + wiki && isProbe(k))
              && d <= legacy && a == rag + wiki
              && Increasing(c.candidates)
  {
    assert rag + wiki - remote == {} ==> forall k | k in rag + wiki :: k in remote by {
      forall k | k in rag + wiki && k !in remote ensures k in rag + wiki - remote {}
    }
  }

  // ---------------------------------------------------------------- expected hashes

  /** A row of a manifest: blank fields are not compared. */
  datatype Expected = Expected(key: Key, sha1: Option<Hex>, sha256: Option<Hex>, size: Option<int>)

  predicate Agrees(r: Record, e: Expected) {
    && (e.sha1.Some? ==> e.sha1.value == r.sha1)
    && (e.sha256.Some? ==> e.sha256.value == r.sha256)
    && (e.size.Some? ==> e.size.value == r.size)
  }

  predicate HashesAgree(remote: Listing, expected: seq<Expected>) {
    forall i | 0 <= i < |expected| && expected[i].key in remote :: Agrees(remote[expected[i].key], expected[i])
  }

  function KeysOf(rows: seq<Expected>): set<Key> {
    set i | 0 <= i < |rows| :: rows[i].key
  }

  // ---------------------------------------------------------------- the world and the evidence

  type Counts = map<string, Option<nat>>
  type Collections = map<string, (nat, nat)>

  /** The contents of one local candidate: a file, or a directory and the files below it. */
  datatype LocalEntry = File(content: Body) | Dir(files: seq<(string, Body)>)
  type Local = map<string, LocalEntry>

  const LOCAL_CANDIDATES: seq<string> := ["data/raw", "data/processed/documents.jsonl", "data/processed/assets.jsonl"]
  const PROTECTED_BUCKET: string := "a-bucket"

  datatype World = World(buckets: map<string, Bucket>, mysql: Counts, milvus: Collections, local: Local)

  function BucketOf(w: World, name: string): Bucket {
    if name in w.buckets then w.buckets[name] else map[]
  }

  datatype CandidateSet = CandidateSet(bucket: string, objects: seq<Record>)

  datatype Inventory = Inventory(
    bucket: string, target: Listing, protectedBucket: Listing, candidates: CandidateSet,
    rag: set<Key>, wiki: set<Key>, mysql: Counts, milvus: Collections)

  /** One planned object: its record, the bucket and the path of its backup. */
  datatype Planned = Planned(record: Record, bucket: string, path: seq<string>)

  datatype BackupReceipt = BackupReceipt(bucket: string, inventory: Inventory, candidates: CandidateSet, objects: seq<Planned>)

  datatype Plan = Plan(operation: string, bucket: string, objects: seq<Planned>, inventory: Inventory, local: Local)

  // ---------------------------------------------------------------- inventory, backup, plan

  /** The records of the keys. */
  function Select(target: Listing, keys: seq<Key>): (records: seq<Record>)
    requires Elements(keys) <= target.Keys
    ensures |records| == |keys| && forall i :: 0 <= i < |keys| ==> keys[i] in target && records[i] == target[keys[i]]
  {
    assert forall i :: 0 <= i < |keys| ==> keys[i] in Elements(keys);
    seq(|keys|, i requires 0 <= i < |keys| => target[keys[i]])
  }

  /** `command_inventory`: listing, classification and hash check. */
  function TakeInventory(
    w: World, bucket: string, legacy: seq<Expected>, rag: seq<Expected>, wiki: seq<Expected>, isProbe: Key -> bool)
    : Result<Inventory, Failure>
  {
    match (Inventoried(BucketOf(w, bucket)), Inventoried(BucketOf(w, PROTECTED_BUCKET)))
    case (Ok(target), Ok(protectedBucket)) => (
      match Classify(target.Keys, KeysOf(legacy), KeysOf(rag), KeysOf(wiki), isProbe)
      case Err(e) => Err(e)
      case Ok(c) =>
        if !HashesAgree(target, legacy + rag + wiki) then Err(HashMismatch)
        else
          var candidates := CandidateSet(bucket, Select(target, c.candidates));
          Ok(Inventory(bucket, target, protectedBucket, candidates, KeysOf(rag), KeysOf(wiki), w.mysql, w.milvus)))
    case _ => Err(IncompleteRecord)
  }

  type Backups = map<seq<string>, Body>

  /** The path of a backup below the backup root, with empty and "." segments resolved away. */
  function BackupPath(bucket: string, key: Key): seq<string> {
    Named(Split(bucket, '/') + Split(key, '/'))
  }

  function Named(parts: seq<string>): seq<string> {
    if parts == [] then []
    else if parts[0] == "" || parts[0] == "." then Named(parts[1..])
    else [parts[0]] + Named(parts[1..])
  }

  /** Whether a file cannot be created at a path: it exists, or a file stands where a directory is needed. */
  predicate Clashes(path: seq<string>, files: Backups) {
    exists p | p in files :: p <= path || path <= p
  }

  predicate MatchesRecord(body: Body, r: Record) {
    r.sha1 == DigestOf(body) && r.sha256 == DigestOf(body) && r.size == |body|
  }

  /** `command_backup_minio` for the objects from a point on; `bodies` is what the server sends. */
  function BackUp(bucket: string, objects: seq<Record>, bodies: seq<Body>, files: Backups): Result<(Backups, seq<Planned>), Failure>
    requires |objects| == |bodies|
  {
    if objects == [] then Ok((files, []))
    else
      var r, body := objects[0], bodies[0];
      var path := BackupPath(bucket, r.key);
      if !Complete(r) then Err(IncompleteRecord)
      else if Clashes(path, files) then Err(BackupClash)
      else if !MatchesRecord(body, r) then Err(BackupMismatch)
      else
        match BackUp(bucket, objects[1..], bodies[1..], files[path := body])
        case Err(e) => Err(e)
        case Ok((all, planned)) => Ok((all, [Planned(r, bucket, path)] + planned))
  }

  /**
   The files after that, whether it is finished or refused: a download is on disk before it is compared, so
   the one that does not match its record stays as well.
   */
  function FilesAfter(bucket: string, objects: seq<Record>, bodies: seq<Body>, files: Backups): Backups
    requires |objects| == |bodies|
    decreases |objects|
  {
    if objects == [] || !Complete(objects[0]) || Clashes(BackupPath(bucket, objects[0].key), files) then files
    else
      var written := files[BackupPath(bucket, objects[0].key) := bodies[0]];
      if !MatchesRecord(bodies[0], objects[0]) then written else FilesAfter(bucket, objects[1..], bodies[1..], written)
  }

  /** `command_backup_minio`: the candidate file must be the one the inventory pins. */
  function TakeBackup(inventory: Inventory, candidates: CandidateSet, bodies: seq<Body>, files: Backups)
    : Result<(Backups, BackupReceipt), Failure>
    requires |bodies| == |candidates.objects|
  {
    if candidates != inventory.candidates then Err(WrongDigest)
    else
      match BackUp(candidates.bucket, candidates.objects, bodies, files)
      case Err(e) => Err(e)
      case Ok((all, planned)) => Ok((all, BackupReceipt(candidates.bucket, inventory, candidates, planned)))
  }

  /** `command_plan`; `gates` says that every receipt has status "pass". */
  function MakePlan(operation: string, inventory: Inventory, local: Local, receipt: BackupReceipt, gates: bool): Result<Plan, Failure> {
    if !gates then Err(GateClosed)
    else if receipt.inventory != inventory then Err(WrongDigest)
    else if |receipt.objects| != |inventory.candidates.objects| then Err(GateClosed)
    else Ok(Plan(operation, receipt.bucket, receipt.objects, inventory, local))
  }

  // ---------------------------------------------------------------- what the commands establish

  function PlannedKeys(objects: seq<Planned>): set<Key> {
    set i | 0 <= i < |objects| :: objects[i].record.key
  }

  ghost predicate DistinctKeys(objects: seq<Planned>) {
    forall i, j :: 0 <= i < j < |objects| ==> objects[i].record.key != objects[j].record.key
  }

  /** Every planned object is a complete inventory record with a backup of exactly its content. */
  ghost predicate BackedUp(objects: seq<Planned>, target: Listing, files: Backups) {
    forall i :: 0 <= i < |objects| ==>
      var p := objects[i];
      && p.record.key in target && p.record == target[p.record.key] && Complete(p.record)
      && p.path in files && MatchesRecord(files[p.path], p.record)
  }

  /** What an inventory taken by the tool satisfies. */
  ghost predicate Sound(inv: Inventory, isProbe: Key -> bool) {
    && (forall k :: k in inv.target ==> inv.target[k].key == k && Complete(inv.target[k]))
    && inv.rag + inv.wiki <= inv.target.Keys
    && inv.candidates.bucket == inv.bucket
    && (forall i :: 0 <= i < |inv.candidates.objects| ==>
          var r := inv.candidates.objects[i];
          r.key in inv.target && inv.target[r.key] == r && r.key !in inv.rag + inv.wiki && !isProbe(r.key))
    && (forall i, j :: 0 <= i < j < |inv.candidates.objects| ==>
          inv.candidates.objects[i].key != inv.candidates.objects[j].key)
  }

  lemma SelectedSound(target: Listing, keys: seq<Key>)
    requires Increasing(keys) && Elements(keys) <= target.Keys && forall k :: k in target ==> target[k].key == k
    ensures forall i :: 0 <= i < |keys| ==> Select(target, keys)[i].key == keys[i] && keys[i] in Elements(keys)
    ensures forall i, j :: 0 <= i < j < |keys| ==> Select(target, keys)[i].key != Select(target, keys)[j].key
  {
    assert forall i, j :: 0 <= i < j < |keys| ==> Lt(keys[i], keys[j]);
    assert forall i :: 0 <= i < |keys| ==> keys[i] in Elements(keys);
  }

  lemma InventorySound(
    w: World, bucket: string, legacy: seq<Expected>, rag: seq<Expected>, wiki: seq<Expected>, isProbe: Key -> bool)
    requires TakeInventory(w, bucket, legacy, rag, wiki, isProbe).Ok?
    ensures var inv := TakeInventory(w, bucket, legacy, rag, wiki, isProbe).value;
            && Sound(inv, isProbe)
            && inv.bucket == bucket && inv.target == Describes(BucketOf(w, bucket))
            && inv.protectedBucket == Describes(BucketOf(w, PROTECTED_BUCKET))
            && inv.rag == KeysOf(rag) && inv.wiki == KeysOf(wiki) && inv.mysql == w.mysql && inv.milvus == w.milvus
            && (forall i :: 0 <= i < |inv.candidates.objects| ==> inv.candidates.objects[i].key in KeysOf(legacy))
  {
    var target := Describes(BucketOf(w, bucket));
    var c := Classify(target.Keys, KeysOf(legacy), KeysOf(rag), KeysOf(wiki), isProbe).value;
    ClassesCover(target.Keys, KeysOf(legacy), KeysOf(rag), KeysOf(wiki), isProbe);
    SelectedSound(target, c.candidates);
  }

  /** A completed backup keeps every earlier file and holds exactly the recorded content of each object. */
  lemma {:induction false} BackUpContents(bucket: string, objects: seq<Record>, bodies: seq<Body>, files: Backups)
    requires |objects| == |bodies| && BackUp(bucket, objects, bodies, files).Ok?
    ensures var (all, planned) := BackUp(bucket, objects, bodies, files).value;
            && |planned| == |objects|
            && (forall p :: p in files ==> p in all && all[p] == files[p])
            && (forall i :: 0 <= i < |objects| ==>
                  && planned[i].record == objects[i] && planned[i].bucket == bucket
                  && Complete(objects[i])
                  && planned[i].path in all && MatchesRecord(all[planned[i].path], objects[i]))
  {
    if objects != [] {
      var path := BackupPath(bucket, objects[0].key);
      var rest := files[path := bodies[0]];
      BackUpContents(bucket, objects[1..], bodies[1..], rest);
      assert path in rest;
      forall p | p in files ensures p in rest && rest[p] == files[p] {
        assert p == path ==> Clashes(path, files);
      }
    }
  }

  /** Finished or refused, a backup changes no earlier file, and all it adds but the last download matches its record. */
  lemma {:induction false} BackupKeepsFiles(bucket: string, objects: seq<Record>, bodies: seq<Body>, files: Backups)
    requires |objects| == |bodies|
    ensures forall p :: p in files ==> p in FilesAfter(bucket, objects, bodies, files) && FilesAfter(bucket, objects, bodies, files)[p] == files[p]
    ensures BackUp(bucket, objects, bodies, files).Ok? ==> BackUp(bucket, objects, bodies, files).value.0 == FilesAfter(bucket, objects, bodies, files)
    ensures BackUp(bucket, objects, bodies, files) == Err(BackupMismatch) ==>
      exists i :: 0 <= i < |objects| && !MatchesRecord(bodies[i], objects[i])
        && BackupPath(bucket, objects[i].key) in FilesAfter(bucket, objects, bodies, files)
        && FilesAfter(bucket, objects, bodies, files)[BackupPath(bucket, objects[i].key)] == bodies[i]
    decreases |objects|
  {
    if objects != [] && Complete(objects[0]) && !Clashes(BackupPath(bucket, objects[0].key), files) {
      var path := BackupPath(bucket, objects[0].key);
      var written := files[path := bodies[0]];
      forall p | p in files ensures p in written && written[p] == files[p] {
        assert p == path ==> Clashes(path, files);
      }
      if MatchesRecord(bodies[0], objects[0]) {
        BackupKeepsFiles(bucket, objects[1..], bodies[1..], written);
        if BackUp(bucket, objects[1..], bodies[1..], written) == Err(BackupMismatch) {
          var i :| 0 <= i < |objects[1..]| && !MatchesRecord(bodies[1..][i], objects[1..][i])
            && BackupPath(bucket, objects[1..][i].key) in FilesAfter(bucket, objects[1..], bodies[1..], written)
            && FilesAfter(bucket, objects[1..], bodies[1..], written)[BackupPath(bucket, objects[1..][i].key)] == bodies[1..][i];
          assert objects[1..][i] == objects[i + 1] && bodies[1..][i] == bodies[i + 1];
        }
      } else {
        assert path in written && written[path] == bodies[0];
      }
    }
  }

  /** Whatever the server sent and whichever files were supplied, an accepted backup and plan pin the inventory. */
  lemma PlanBound(
    inv: Inventory, isProbe: Key -> bool, candidates: CandidateSet, bodies: seq<Body>, files: Backups,
    operation: string, planned: Inventory, local: Local, gates: bool)
    requires Sound(inv, isProbe) && |bodies| == |candidates.objects|
    requires TakeBackup(inv, candidates, bodies, files).Ok?
    requires MakePlan(operation, planned, local, TakeBackup(inv, candidates, bodies, files).value.1, gates).Ok?
    ensures var (all, receipt) := TakeBackup(inv, candidates, bodies, files).value;
            var plan := MakePlan(operation, planned, local, receipt, gates).value;
            && planned == inv && plan.inventory == inv && plan.bucket == inv.bucket && plan.local == local
            && plan.operation == operation
            && DistinctKeys(plan.objects) && BackedUp(plan.objects, inv.target, all)
            && PlannedKeys(plan.objects) == (set r | r in inv.candidates.objects :: r.key)
            && (forall k :: k in PlannedKeys(plan.objects) ==> k !in inv.rag + inv.wiki && !isProbe(k))
  {
    BackUpContents(candidates.bucket, candidates.objects, bodies, files);
    var (all, receipt) := TakeBackup(inv, candidates, bodies, files).value;
    var objects := receipt.objects;
    forall k ensures k in PlannedKeys(objects) <==> k in (set r | r in inv.candidates.objects :: r.key) {
      if k in PlannedKeys(objects) {
        var i :| 0 <= i < |objects| && objects[i].record.key == k;
        assert inv.candidates.objects[i] in inv.candidates.objects;
      }
      if k in (set r | r in inv.candidates.objects :: r.key) {
        var i :| 0 <= i < |inv.candidates.objects| && inv.candidates.objects[i].key == k;
        assert objects[i].record.key == k;
      }
    }
  }
}
