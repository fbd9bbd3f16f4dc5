/**
 The observable effects of apply and restore, one at a time.  A process that dies after n effects
 leaves the state reached by the first n of them.
 */
module CleanupEffects {
  import opened Results
  import opened Ordering
  import opened CleanupModel

  datatype Row =
    | Started(operation: string, plan: Plan)
    | RemoteDeleted(bucket: string, key: Key, version: Option<string>)
    | LocalDeleted(path: string)
    | MysqlNoop
    | Completed(operation: string)
    | Restored(key: Key, etag: string)

  /** What the process can change: the buckets, the local candidates and the receipt file. */
  datatype State = State(buckets: map<string, Bucket>, local: Local, rows: seq<Row>)

  datatype Effect =
    | Append(row: Row)
    | Remove(bucket: string, key: Key, version: Option<string>)
    | UnlinkLocal(path: string)

  function At(s: State, name: string): Bucket {
    if name in s.buckets then s.buckets[name] else map[]
  }

  /** `remove_object`: the named version, or whatever stands at the key when no version is named. */
  function Without(b: Bucket, key: Key, version: Option<string>): Bucket {
    if key in b && (version.None? || b[key].version == version) then b - {key} else b
  }

  /** One `unlink` of a local candidate; `rmtree` unlinks the files of a directory and then the directory. */
  function Unlinked(l: Local, path: string): Local {
    if path !in l then l
    else
      match l[path]
      case Dir(files) => if files == [] then l - {path} else l[path := Dir(files[1..])]
      case File(_) => l - {path}
  }

  function Perform(s: State, e: Effect): State {
    match e
    case Append(row) => s.(rows := s.rows + [row])
    case Remove(bucket, key, version) => s.(buckets := s.buckets[bucket := Without(At(s, bucket), key, version)])
    case UnlinkLocal(path) => s.(local := Unlinked(s.local, path))
  }

  /** The state left by a process that performs at most `budget` of the effects. */
  function Run(s: State, effects: seq<Effect>, budget: nat): State
    decreases budget
  {
    if effects == [] || budget == 0 then s else Run(Perform(s, effects[0]), effects[1..], budget - 1)
  }

  lemma {:induction false} RunSplit(s: State, first: seq<Effect>, second: seq<Effect>, budget: nat)
    ensures Run(s, first + second, budget) ==
            if budget <= |first| then Run(s, first, budget) else Run(Run(s, first, |first|), second, budget - |first|)
    decreases |first|
  {
    if first == [] {
      assert first + second == second;
    } else if budget > 0 {
      assert (first + second)[1..] == first[1..] + second;
      RunSplit(Perform(s, first[0]), first[1..], second, budget - 1);
    }
  }

  // ---------------------------------------------------------------- the effects of apply

  /** `delete_exact_objects`: validate, remove, append; an incomplete record stops the loop. */
  function DeleteEffects(bucket: string, objects: seq<Planned>): seq<Effect> {
    if objects == [] || !Complete(objects[0].record) then []
    else
      var r := objects[0].record;
      [Remove(bucket, r.key, r.version), Append(RemoteDeleted(bucket, r.key, r.version))]
      + DeleteEffects(bucket, objects[1..])
  }

  predicate AllComplete(objects: seq<Planned>) {
    forall i | 0 <= i < |objects| :: Complete(objects[i].record)
  }

  function UnlinkCount(e: LocalEntry): nat {
    match e case File(_) => 1 case Dir(files) => |files| + 1
  }

  function UnlinkEffects(path: string, n: nat): (r: seq<Effect>)
    ensures |r| == n
  {
    if n == 0 then [] else [UnlinkLocal(path)] + UnlinkEffects(path, n - 1)
  }

  /** `_delete_local_candidates`; a candidate that is no longer there stops the loop. */
  function LocalEffects(paths: seq<string>, local: Local): seq<Effect> {
    if paths == [] || paths[0] !in local then []
    else
      UnlinkEffects(paths[0], UnlinkCount(local[paths[0]])) + [Append(LocalDeleted(paths[0]))]
      + LocalEffects(paths[1..], local)
  }

  predicate AllPresent(paths: seq<string>, local: Local) {
    forall i | 0 <= i < |paths| :: paths[i] in local
  }

  function FinalEffects(operation: string): seq<Effect> {
    [Append(MysqlNoop), Append(Completed(operation))]
  }

  /** Everything `command_apply` does once its checks pass. */
  function ApplyEffects(plan: Plan, local: Local): seq<Effect> {
    [Append(Started(plan.operation, plan))] + DeleteEffects(plan.bucket, plan.objects)
    + (if !AllComplete(plan.objects) then []
       else LocalEffects(LOCAL_CANDIDATES, local)
            + (if !AllPresent(LOCAL_CANDIDATES, local) then [] else FinalEffects(plan.operation)))
  }

  /** `_verify_local_fingerprint`: the candidates are as the local backup receipt lists them. */
  predicate SameCandidates(a: Local, b: Local) {
    forall p | p in LOCAL_CANDIDATES :: p in a && p in b && a[p] == b[p]
  }

  /** The checks `command_apply` makes before its first effect. */
  function ApplyGate(plan: Plan, expected: Plan, w: World, receiptExists: bool): Option<Failure> {
    if plan != expected then Some(WrongDigest)
    else if receiptExists then Some(ReceiptExists)
    else if !AllPresent(LOCAL_CANDIDATES, w.local) then Some(LocalMissing)
    else if !SameCandidates(w.local, plan.local) then Some(LocalDrift)
    else if Inventoried(BucketOf(w, plan.bucket)).Err? || Inventoried(BucketOf(w, PROTECTED_BUCKET)).Err? then Some(IncompleteRecord)
    else if Describes(BucketOf(w, plan.bucket)) != plan.inventory.target
            || Describes(BucketOf(w, PROTECTED_BUCKET)) != plan.inventory.protectedBucket
            || w.mysql != plan.inventory.mysql || w.milvus != plan.inventory.milvus then Some(Stale)
    else None
  }

  // ---------------------------------------------------------------- verify

  function RemoteReceipts(rows: seq<Row>): set<Key> {
    set i | 0 <= i < |rows| && rows[i].RemoteDeleted? :: rows[i].key
  }

  function LocalReceipts(rows: seq<Row>): set<string> {
    set i | 0 <= i < |rows| && rows[i].LocalDeleted? :: rows[i].path
  }

  /** `_expected_remaining_inventory`. */
  function Remaining(before: Listing, deleted: set<Key>): Listing {
    map k | k in before && k !in deleted :: before[k]
  }

  /** `command_verify`: None when it accepts. */
  function Verify(plan: Plan, expected: Plan, rows: seq<Row>, w: World): Option<Failure> {
    var deleted := PlannedKeys(plan.objects);
    if plan != expected then Some(WrongDigest)
    else if rows == [] || !rows[|rows| - 1].Completed? then Some(NotCompleted)
    else if RemoteReceipts(rows) != deleted || LocalReceipts(rows) != Elements(LOCAL_CANDIDATES) then Some(ReceiptCoverage)
    else if exists i :: 0 <= i < |LOCAL_CANDIDATES| && LOCAL_CANDIDATES[i] in w.local then Some(LocalRemains)
    else if Inventoried(BucketOf(w, plan.bucket)).Err? || Inventoried(BucketOf(w, PROTECTED_BUCKET)).Err? then Some(IncompleteRecord)
    else if Describes(BucketOf(w, plan.bucket)) != Remaining(plan.inventory.target, deleted) then Some(TargetDiffers)
    else if Describes(BucketOf(w, PROTECTED_BUCKET)) != plan.inventory.protectedBucket
            || w.mysql != plan.inventory.mysql || w.milvus != plan.inventory.milvus then Some(OtherStoreChanged)
    else None
  }

  // ---------------------------------------------------------------- restore

  /** `conditional_restore_object` from a point on; `etags` is what the store answers. */
  function RestoreAll(s: State, operation: string, items: seq<Planned>, files: Backups, etags: seq<string>): (State, Option<Failure>)
    requires |etags| == |items|
    decreases |items|
  {
    if items == [] then (s, None)
    else
      var p := items[0];
      if !Complete(p.record) then (s, Some(IncompleteRecord))
      else if p.path !in files then (s, Some(BackupMismatch))
      else if !MatchesRecord(files[p.path], p.record) then (s, Some(BackupMismatch))
      else if p.record.key in At(s, p.bucket) then (s, Some(AlreadyExists))
      else RestoreAll(RestoredOne(s, operation, p, files[p.path], etags[0]), operation, items[1..], files, etags[1..])
  }

  function RestoredOne(s: State, operation: string, p: Planned, body: Body, etag: string): State {
    var o := Stored(body, etag, None, Some(operation), None);
    s.(buckets := s.buckets[p.bucket := At(s, p.bucket)[p.record.key := o]], rows := s.rows + [Restored(p.record.key, etag)])
  }
}
