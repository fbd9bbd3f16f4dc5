/**
 The commands that change state, step by step.  A budget bounds the effects a process performs
 before it dies, so a method's result covers every crash point.
 */
module CleanupRun {
  import opened Results
  import opened Ordering
  import opened CleanupModel
  import opened CleanupEffects
  import opened CleanupExact

  /** The outcome of a backup of which `done` is already finished. */
  function After(done: seq<Planned>, rest: Result<(Backups, seq<Planned>), Failure>): Result<(Backups, seq<Planned>), Failure> {
    match rest
    case Ok((all, planned)) => Ok((all, done + planned))
    case Err(e) => Err(e)
  }

  lemma AfterStep(done: seq<Planned>, p: Planned, rest: Result<(Backups, seq<Planned>), Failure>)
    ensures After(done, After([p], rest)) == After(done + [p], rest)
  {
    if rest.Ok? {
      assert done + ([p] + rest.value.1) == done + [p] + rest.value.1;
    }
  }

  lemma AfterNothing(rest: Result<(Backups, seq<Planned>), Failure>)
    ensures After([], rest) == rest
  {
    if rest.Ok? { assert [] + rest.value.1 == rest.value.1; }
  }

  class BackupRoot {
    var files: Backups

    constructor ()
      ensures files == map[]
    {
      files := map[];
    }

    /** `command_backup_minio`; what was written before a refusal stays where it is. */
    method BackupObjects(bucket: string, objects: seq<Record>, bodies: seq<Body>)
      returns (r: Result<seq<Planned>, Failure>)
      requires |bodies| == |objects|
      modifies this
      ensures files == FilesAfter(bucket, objects, bodies, old(files))
      ensures match BackUp(bucket, objects, bodies, old(files))
              case Ok((all, planned)) => files == all && r == Ok(planned)
              case Err(e) => r == Err(e)
    {
      var planned := [];
      var i := 0;
      assert objects[0..] == objects && bodies[0..] == bodies;
      AfterNothing(BackUp(bucket, objects, bodies, files));
      while i < |objects|
        invariant 0 <= i <= |objects|
        invariant BackUp(bucket, objects, bodies, old(files)) == After(planned, BackUp(bucket, objects[i..], bodies[i..], files))
        invariant FilesAfter(bucket, objects, bodies, old(files)) == FilesAfter(bucket, objects[i..], bodies[i..], files)
      {
        var path := BackupPath(bucket, objects[i].key);
        if !Complete(objects[i]) { return Err(IncompleteRecord); }
        if Clashes(path, files) { return Err(BackupClash); }
        files := files[path := bodies[i]];
        if !MatchesRecord(bodies[i], objects[i]) { return Err(BackupMismatch); }
        ghost var rest := BackUp(bucket, objects[i + 1..], bodies[i + 1..], files);
        AfterStep(planned, Planned(objects[i], bucket, path), rest);
        assert objects[i..][1..] == objects[i + 1..] && bodies[i..][1..] == bodies[i + 1..];
        planned := planned + [Planned(objects[i], bucket, path)];
        i := i + 1;
      }
      assert planned + [] == planned;
      r := Ok(planned);
    }
  }

  lemma EffectsOfNext(bucket: string, objects: seq<Planned>, i: nat)
    requires i < |objects| && Complete(objects[i].record)
    ensures var r := objects[i].record;
      DeleteEffects(bucket, objects[i..])
      == [Remove(bucket, r.key, r.version), Append(RemoteDeleted(bucket, r.key, r.version))] + DeleteEffects(bucket, objects[i + 1..])
  {
    assert objects[i..][0] == objects[i] && objects[i..][1..] == objects[i + 1..];
  }

  lemma RunsNext(s: State, bucket: string, objects: seq<Planned>, i: nat, left: nat)
    requires i < |objects| && Complete(objects[i].record)
    ensures var r := objects[i].record;
      var removed := Perform(s, Remove(bucket, r.key, r.version));
      && (left == 0 ==> Run(s, DeleteEffects(bucket, objects[i..]), left) == s)
      && (left == 1 ==> Run(s, DeleteEffects(bucket, objects[i..]), left) == removed)
      && (left >= 2 ==> Run(s, DeleteEffects(bucket, objects[i..]), left)
                        == Run(Perform(removed, Append(RemoteDeleted(bucket, r.key, r.version))), DeleteEffects(bucket, objects[i + 1..]), left - 2))
  {
    EffectsOfNext(bucket, objects, i);
    var effects := DeleteEffects(bucket, objects[i..]);
    assert effects[1..][1..] == DeleteEffects(bucket, objects[i + 1..]);
  }

  class Site {
    var buckets: map<string, Bucket>
    var local: Local
    var rows: seq<Row>

    constructor (s: State)
      ensures Now() == s
    {
      buckets, local, rows := s.buckets, s.local, s.rows;
    }

    function Now(): State reads this { State(buckets, local, rows) }

    method RemoveObject(bucket: string, key: Key, version: Option<string>)
      modifies this
      ensures Now() == Perform(old(Now()), Remove(bucket, key, version))
    {
      buckets := buckets[bucket := Without(At(Now(), bucket), key, version)];
    }

    method AppendReceipt(row: Row)
      modifies this
      ensures Now() == Perform(old(Now()), Append(row))
    {
      rows := rows + [row];
    }

    method Unlink(path: string)
      modifies this
      ensures Now() == Perform(old(Now()), UnlinkLocal(path))
    {
      local := Unlinked(local, path);
    }

    method DeleteExactObjects(bucket: string, objects: seq<Planned>, budget: nat) returns (alive: bool, left: nat)
      modifies this
      ensures Now() == Run(old(Now()), DeleteEffects(bucket, objects), budget)
      ensures alive <==> |DeleteEffects(bucket, objects)| <= budget
      ensures alive ==> left == budget - |DeleteEffects(bucket, objects)|
    {
      var i := 0;
      left := budget;
      while i < |objects| && Complete(objects[i].record)
        invariant 0 <= i <= |objects| && left <= budget
        invariant Run(Now(), DeleteEffects(bucket, objects[i..]), left) == Run(old(Now()), DeleteEffects(bucket, objects), budget)
        invariant budget - left + |DeleteEffects(bucket, objects[i..])| == |DeleteEffects(bucket, objects)|
      {
        var r := objects[i].record;
        EffectsOfNext(bucket, objects, i);
        RunsNext(Now(), bucket, objects, i, left);
        if left == 0 { return false, 0; }
        RemoveObject(bucket, r.key, r.version);
        if left == 1 { return false, 0; }
        AppendReceipt(RemoteDeleted(bucket, r.key, r.version));
        left := left - 2;
        i := i + 1;
      }
      alive := true;
    }

    /** Unlink a candidate, one file of a directory at a time, and then the candidate itself. */
    method RemoveTree(path: string, n: nat, budget: nat) returns (alive: bool, left: nat)
      modifies this
      ensures Now() == Run(old(Now()), UnlinkEffects(path, n), budget)
      ensures alive <==> n <= budget
      ensures alive ==> left == budget - n
    {
      left := budget;
      var k := n;
      while k > 0
        invariant left <= budget && budget - left + k == n
        invariant Run(Now(), UnlinkEffects(path, k), left) == Run(old(Now()), UnlinkEffects(path, n), budget)
      {
        assert UnlinkEffects(path, k)[1..] == UnlinkEffects(path, k - 1);
        if left == 0 { return false, 0; }
        Unlink(path);
        left, k := left - 1, k - 1;
      }
      alive := true;
    }

    method DeleteLocalCandidates(budget: nat) returns (alive: bool, left: nat)
      modifies this
      ensures Now() == Run(old(Now()), LocalEffects(LOCAL_CANDIDATES, old(local)), budget)
      ensures alive <==> |LocalEffects(LOCAL_CANDIDATES, old(local))| <= budget
      ensures alive ==> left == budget - |LocalEffects(LOCAL_CANDIDATES, old(local))|
    {
      var i := 0;
      left := budget;
      ghost var all := LocalEffects(LOCAL_CANDIDATES, old(local));
      assert LOCAL_CANDIDATES[0..] == LOCAL_CANDIDATES;
      while i < |LOCAL_CANDIDATES| && LOCAL_CANDIDATES[i] in local
        invariant 0 <= i <= |LOCAL_CANDIDATES| && left <= budget
        invariant forall j :: i <= j < |LOCAL_CANDIDATES| ==> SameAt(local, old(local), LOCAL_CANDIDATES[j])
        invariant Run(Now(), LocalEffects(LOCAL_CANDIDATES[i..], old(local)), left) == Run(old(Now()), all, budget)
        invariant budget - left + |LocalEffects(LOCAL_CANDIDATES[i..], old(local))| == |all|
      {
        var path := LOCAL_CANDIDATES[i];
        var n := UnlinkCount(local[path]);
        ghost var start, before := Now(), left;
        ghost var rest := LocalEffects(LOCAL_CANDIDATES[i + 1..], old(local));
        ghost var here := UnlinkEffects(path, n);
        assert LOCAL_CANDIDATES[i..][1..] == LOCAL_CANDIDATES[i + 1..];
        assert LocalEffects(LOCAL_CANDIDATES[i..], old(local)) == here + [Append(LocalDeleted(path))] + rest;
        RunSplit(start, here + [Append(LocalDeleted(path))], rest, before);
        RunSplit(start, here, [Append(LocalDeleted(path))], before);
        RunSplit(start, here, [Append(LocalDeleted(path))], n + 1);
        RunSplit(start, here, [], before);
        assert here + [] == here;
        CandidatesDistinct();
        UnlinkFrame(start, path, n, before);
        alive, left := RemoveTree(path, n, left);
        if !alive || left == 0 { return false, 0; }
        AppendReceipt(LocalDeleted(path));
        forall j | i < j < |LOCAL_CANDIDATES| ensures SameAt(local, old(local), LOCAL_CANDIDATES[j]) {
          assert SameAt(local, start.local, LOCAL_CANDIDATES[j]) && SameAt(start.local, old(local), LOCAL_CANDIDATES[j]);
        }
        left := left - 1;
        i := i + 1;
      }
      alive := true;
    }

    /** The effects of `command_apply`, in order, until the budget is spent. */
    method PerformApply(plan: Plan, budget: nat) returns (finished: bool)
      requires AllPresent(LOCAL_CANDIDATES, local)
      modifies this
      ensures Now() == Run(old(Now()), ApplyEffects(plan, old(local)), budget)
      ensures finished <==> AllComplete(plan.objects) && |ApplyEffects(plan, old(local))| <= budget
    {
      finished := false;
      ghost var start := Now();
      PhasesOfApply(start, plan, budget);
      if budget == 0 { return; }
      AppendReceipt(Started(plan.operation, plan));
      ghost var begun := Now();
      var alive, left := DeleteExactObjects(plan.bucket, plan.objects, budget - 1);
      DeletePhaseKeepsLocal(begun, plan.bucket, plan.objects, budget - 1);
      if !alive || !AllComplete(plan.objects) { return; }
      alive, left := DeleteLocalCandidates(left);
      if !alive || left == 0 { return; }
      AppendReceipt(MysqlNoop);
      if left == 1 { return; }
      AppendReceipt(Completed(plan.operation));
      finished := true;
    }

    /**
     `command_apply`: it is refused, and changes nothing, unless the plan is the pinned one and was not used before
     and no local candidate and no store drifted; then it performs its effects.
     */
    method Apply(plan: Plan, expected: Plan, mysql: Counts, milvus: Collections, receiptExists: bool, budget: nat)
      returns (refused: Option<Failure>, finished: bool)
      modifies this
      ensures refused == ApplyGate(plan, expected, World(old(buckets), mysql, milvus, old(local)), receiptExists)
      ensures refused.None? <==>
                && plan == expected && !receiptExists && LocalAsPlanned(old(local), plan)
                && StoresAsInventoried(World(old(buckets), mysql, milvus, old(local)), plan)
      ensures refused.Some? ==> Now() == old(Now()) && !finished
      ensures refused.None? ==>
                && Now() == Run(old(Now()), ApplyEffects(plan, old(local)), budget)
                && (finished <==> AllComplete(plan.objects) && |ApplyEffects(plan, old(local))| <= budget)
    {
      finished := false;
      ApplyPassesIff(plan, expected, World(buckets, mysql, milvus, local), receiptExists);
      refused := ApplyGate(plan, expected, World(buckets, mysql, milvus, local), receiptExists);
      if refused.None? { finished := PerformApply(plan, budget); }
    }

    /**
     `command_restore_partial`: with a proven capability and a new receipt, conditional creation of each object up
     to the first that cannot be created; `n` counts the created ones.
     */
    method RestorePartial(operation: string, items: seq<Planned>, files: Backups, etags: seq<string>, capable: bool, receiptExists: bool)
      returns (refused: Option<Failure>, ghost n: nat)
      requires |etags| == |items|
      modifies this
      ensures !capable || receiptExists ==> refused == Some(if capable then ReceiptExists else GateClosed) && Now() == old(Now())
      ensures capable && !receiptExists ==>
                && (Now(), refused) == RestoreAll(old(Now()), operation, items, files, etags)
                && n <= |items| && Created(old(Now()), Now(), operation, items, files, etags, n)
                && (forall j :: 0 <= j < n ==> Creatable(old(Now()), items, files, j))
                && refused == (if n == |items| then None else Some(Refusal(items[n], files)))
                && (n < |items| ==> !Creatable(old(Now()), items, files, n))
    {
      n := 0;
      if !capable { return Some(GateClosed), 0; }
      if receiptExists { return Some(ReceiptExists), 0; }
      n := RestoreExact(Now(), operation, items, files, etags);
      refused := RestoreItems(operation, items, files, etags);
    }

    /** The loop over the objects. */
    method RestoreItems(operation: string, items: seq<Planned>, files: Backups, etags: seq<string>) returns (refused: Option<Failure>)
      requires |etags| == |items|
      modifies this
      ensures (Now(), refused) == RestoreAll(old(Now()), operation, items, files, etags)
    {
      var i := 0;
      assert items[0..] == items && etags[0..] == etags;
      while i < |items|
        invariant 0 <= i <= |items|
        invariant RestoreAll(Now(), operation, items[i..], files, etags[i..]) == RestoreAll(old(Now()), operation, items, files, etags)
      {
        var p := items[i];
        assert items[i..][1..] == items[i + 1..] && etags[i..][1..] == etags[i + 1..];
        if !Complete(p.record) { return Some(IncompleteRecord); }
        if p.path !in files || !MatchesRecord(files[p.path], p.record) { return Some(BackupMismatch); }
        if p.record.key in At(Now(), p.bucket) { return Some(AlreadyExists); }
        var o := Stored(files[p.path], etags[i], None, Some(operation), None);
        buckets := buckets[p.bucket := At(Now(), p.bucket)[p.record.key := o]];
        AppendReceipt(Restored(p.record.key, etags[i]));
        i := i + 1;
      }
      refused := None;
    }
  }

  lemma {:induction false} DeletePhaseKeepsLocal(s: State, bucket: string, objects: seq<Planned>, n: nat)
    ensures Run(s, DeleteEffects(bucket, objects), n).local == s.local
    decreases |objects|
  {
    var effects := DeleteEffects(bucket, objects);
    if effects != [] && n > 1 {
      assert effects[1..][1..] == DeleteEffects(bucket, objects[1..]);
      DeletePhaseKeepsLocal(Perform(Perform(s, effects[0]), effects[1]), bucket, objects[1..], n - 2);
    }
  }

  /** A budgeted run of apply, phase by phase. */
  lemma PhasesOfApply(s: State, plan: Plan, budget: nat)
    requires AllPresent(LOCAL_CANDIDATES, s.local)
    ensures var begun := Perform(s, Append(Started(plan.operation, plan)));
            var d, l := DeleteEffects(plan.bucket, plan.objects), LocalEffects(LOCAL_CANDIDATES, s.local);
            var f := FinalEffects(plan.operation);
            && |ApplyEffects(plan, s.local)| == 1 + |d| + (if AllComplete(plan.objects) then |l| + 2 else 0)
            && Run(s, ApplyEffects(plan, s.local), budget) ==
               if budget == 0 then s
               else if budget <= |d| || !AllComplete(plan.objects) then Run(begun, d, budget - 1)
               else
                 var deleted, left := Run(begun, d, budget - 1), budget - 1 - |d|;
                 if left <= |l| then Run(deleted, l, left)
                 else
                   var cleared := Run(deleted, l, left);
                   if left == |l| + 1 then Perform(cleared, f[0]) else Perform(Perform(cleared, f[0]), f[1])
  {
    var begin := Append(Started(plan.operation, plan));
    var begun := Perform(s, begin);
    var d, l := DeleteEffects(plan.bucket, plan.objects), LocalEffects(LOCAL_CANDIDATES, s.local);
    var f := FinalEffects(plan.operation);
    var effects := ApplyEffects(plan, s.local);
    if budget > 0 {
      assert effects[0] == begin;
      RunEnough(begun, d, budget - 1);
      if AllComplete(plan.objects) {
        assert effects[1..] == d + (l + f);
        RunSplit(begun, d, l + f, budget - 1);
        if budget - 1 > |d| {
          var deleted, left := Run(begun, d, budget - 1), budget - 1 - |d|;
          RunSplit(deleted, l, f, left);
          RunEnough(deleted, l, left);
          if left > |l| {
            var cleared := Run(deleted, l, left);
            RunTwo(cleared, f[0], f[1], left - |l|);
            assert f == [f[0], f[1]];
          }
        }
      } else {
        assert effects[1..] == d;
      }
    }
  }

  lemma RunTwo(s: State, a: Effect, b: Effect, n: nat)
    requires n > 0
    ensures Run(s, [a, b], n) == if n == 1 then Perform(s, a) else Perform(Perform(s, a), b)
  {
    var t := Perform(s, a);
    assert [a, b][1..] == [b] && [b][1..] == [];
    assert Run(s, [a, b], n) == Run(t, [b], n - 1);
    assert n > 1 ==> Run(t, [b], n - 1) == Run(Perform(t, b), [], n - 2);
  }

  lemma RunEnough(s: State, effects: seq<Effect>, budget: nat)
    ensures budget >= |effects| ==> Run(s, effects, budget) == Run(s, effects, |effects|)
  {
    RunSplit(s, effects, [], budget);
    assert effects + [] == effects;
  }

  predicate SameAt(a: Local, b: Local, path: string) {
    (path in a <==> path in b) && (path in a ==> a[path] == b[path])
  }

  lemma CandidatesDistinct()
    ensures forall i, j :: 0 <= i < j < |LOCAL_CANDIDATES| ==> LOCAL_CANDIDATES[i] != LOCAL_CANDIDATES[j]
  {
    assert |LOCAL_CANDIDATES[0]| < |LOCAL_CANDIDATES[2]| < |LOCAL_CANDIDATES[1]|;
  }

  /** Unlinking touches one candidate. */
  lemma {:induction false} UnlinkFrame(s: State, path: string, n: nat, budget: nat)
    ensures var t := Run(s, UnlinkEffects(path, n), budget);
            t.buckets == s.buckets && t.rows == s.rows && forall p :: p != path ==> SameAt(t.local, s.local, p)
    decreases n
  {
    if n > 0 && budget > 0 {
      assert UnlinkEffects(path, n)[1..] == UnlinkEffects(path, n - 1);
      var next := Perform(s, UnlinkLocal(path));
      UnlinkFrame(next, path, n - 1, budget - 1);
      var t := Run(next, UnlinkEffects(path, n - 1), budget - 1);
      forall p | p != path ensures SameAt(t.local, s.local, p) {
        assert SameAt(t.local, next.local, p);
      }
    }
  }
}
