/**
 The readiness cache of the RAG closure (backend/main.py): a memo of an expensive verifier, keyed by
 fingerprints of the file tree.  The verifier and the file tree are arbitrary at every call.
 */
module Readiness {
  import opened Results

  /** One `lstat` entry: path, kind, and the six numbers of the signature. */
  datatype Entry = Entry(path: string, kind: string, signature: seq<int>)
  type Fingerprint = seq<Entry>
  type Paths = seq<string>

  const RETRY_SECONDS: real := 60.0

  datatype Kind = Closure | Tree
  datatype FailureKind = NoFailure | Invalid | Transient

  /** The dictionary `_rag_cache`. */
  datatype Cache = Cache(
    initialized: bool, root: Option<string>, paths: Paths, fingerprint: Fingerprint, kind: Kind,
    failure: FailureKind, retryAfter: real, ready: bool)

  const INITIAL: Cache := Cache(false, None, [], [], Tree, NoFailure, 0.0, false)

  /** What the verifier process does: it cannot be run, or it exits with a code and perhaps metadata. */
  datatype VerifierRun = Crashed | Exited(code: int, metadata: Option<(Paths, Fingerprint)>)

  /**
   One call and everything it may observe.  `closure` and `closureAfter` give, for any list of files,
   the closure fingerprint of the tree at that instant, or None when reading it fails.
   */
  datatype Call = Call(
    root: string, force: bool, gateTime: real,
    closure: Paths -> Option<Fingerprint>, tree: Fingerprint, reuseTime: real,
    before: (Fingerprint, Fingerprint), run: VerifierRun, closureAfter: Paths -> Option<Fingerprint>,
    after: (Fingerprint, Fingerprint), endTime: real)

  /** A fingerprint that can be read has at least the entry of the root. */
  ghost predicate Plausible(c: Call) {
    && (forall p :: c.closure(p) != Some([])) && (forall p :: c.closureAfter(p) != Some([]))
    && c.tree != [] && c.before.0 != [] && c.before.1 != [] && c.after.0 != [] && c.after.1 != []
  }

  datatype Verdict = ReadyVerdict(paths: Paths, fingerprint: Fingerprint) | InvalidVerdict | TransientVerdict

  /** `_run_full_rag_verification`. */
  function FullVerification(c: Call): Verdict {
    match c.run
    case Crashed => TransientVerdict
    case Exited(code, metadata) =>
      if code != 0 then (if code == 1 then InvalidVerdict else TransientVerdict)
      else if metadata.None? then TransientVerdict
      else
        var (paths, fingerprint) := metadata.value;
        if c.closureAfter(paths) == Some(fingerprint) then ReadyVerdict(paths, fingerprint) else TransientVerdict
  }

  /** The verdict "invalid" is trusted only when four snapshots around it are equal. */
  predicate StableInvalid(c: Call) {
    FullVerification(c).InvalidVerdict? && c.before.0 == c.before.1 && c.after.0 == c.after.1 && c.before.1 == c.after.1
  }

  /** What a call that runs the verifier stores. */
  function Recorded(c: Call): Cache {
    match FullVerification(c)
    case ReadyVerdict(paths, fingerprint) => Cache(true, Some(c.root), paths, fingerprint, Closure, NoFailure, 0.0, true)
    case _ =>
      var fingerprint := if c.after.0 == c.after.1 then c.after.1 else [];
      if StableInvalid(c) then Cache(true, Some(c.root), [], fingerprint, Tree, Invalid, 0.0, false)
      else Cache(true, Some(c.root), [], fingerprint, Tree, Transient, c.endTime + RETRY_SECONDS, false)
  }

  datatype Answer = BackedOff | Reused(ready: bool) | Ran(ready: bool)

  /** The fingerprint a call compares with the cached one; a failed reading gives the empty fingerprint. */
  function Current(s: Cache, c: Call): Fingerprint {
    if s.kind == Closure then
      var read := c.closure(if s.root == Some(c.root) then s.paths else []);
      if read.Some? then read.value else []
    else c.tree
  }

  predicate Usable(s: Cache, c: Call) {
    !c.force && s.initialized && s.root == Some(c.root)
  }

  /** `_verify_rag_artifacts`. */
  function Step(s: Cache, c: Call): (Cache, Answer) {
    if Usable(s, c) && s.failure == Transient && c.gateTime < s.retryAfter then (s, BackedOff)
    else if Usable(s, c) && Current(s, c) == s.fingerprint && !(s.failure == Transient && c.reuseTime >= s.retryAfter)
    then (s, Reused(s.ready))
    else (Recorded(c), Ran(Recorded(c).ready))
  }

  class RagCache {
    var initialized: bool
    var root: Option<string>
    var paths: Paths
    var fingerprint: Fingerprint
    var kind: Kind
    var failure: FailureKind
    var retryAfter: real
    var ready: bool

    function Contents(): Cache reads this {
      Cache(initialized, root, paths, fingerprint, kind, failure, retryAfter, ready)
    }

    constructor ()
      ensures Contents() == INITIAL
    {
      initialized, root, paths, fingerprint := false, None, [], [];
      kind, failure, retryAfter, ready := Tree, NoFailure, 0.0, false;
    }

    /** `_verify_rag_artifacts`: it answers and updates the cache as `Step` says. */
    method VerifyArtifacts(c: Call) returns (r: bool)
      modifies this
      ensures Contents() == Step(old(Contents()), c).0
      ensures var a := Step(old(Contents()), c).1; r <==> a == Reused(true) || a == Ran(true)
    {
      var sameRoot := root == Some(c.root);
      if !c.force && initialized && sameRoot && failure == Transient && c.gateTime < retryAfter { return false; }
      var current: Fingerprint := [];
      if kind == Closure {
        var read := c.closure(if sameRoot then paths else []);
        if read.Some? { current := read.value; }
      } else {
        current := c.tree;
      }
      assert current == Current(Contents(), c);
      if !c.force && initialized && sameRoot && current == fingerprint && !(failure == Transient && c.reuseTime >= retryAfter) {
        return ready;
      }
      r := Refresh(c);
    }

    /** The part that runs the verifier. */
    method Refresh(c: Call) returns (r: bool)
      modifies this
      ensures Contents() == Recorded(c) && r == Recorded(c).ready
    {
      var verdict := FullVerification(c);
      r := verdict.ReadyVerdict?;
      if r {
        paths, fingerprint := verdict.paths, verdict.fingerprint;
        kind, failure, retryAfter := Closure, NoFailure, 0.0;
      } else {
        paths := [];
        var stable := verdict.InvalidVerdict? && c.before.0 == c.before.1 && c.after.0 == c.after.1 && c.before.1 == c.after.1;
        fingerprint := if c.after.0 == c.after.1 then c.after.1 else [];
        kind, failure := Tree, if stable then Invalid else Transient;
        retryAfter := if failure == Transient then c.endTime + RETRY_SECONDS else 0.0;
      }
      initialized, root, ready := true, Some(c.root), r;
    }
  }

  // ---------------------------------------------------------------- runs

  /** The cache before call number n of a run that starts with the empty cache. */
  function Before(calls: seq<Call>, n: nat): Cache
    requires n <= |calls|
  {
    if n == 0 then INITIAL else Step(Before(calls, n - 1), calls[n - 1]).0
  }

  function AnswerTo(calls: seq<Call>, n: nat): Answer
    requires n < |calls|
  {
    Step(Before(calls, n), calls[n]).1
  }

  ghost predicate PlausibleRun(calls: seq<Call>) {
    forall n :: 0 <= n < |calls| ==> Plausible(calls[n])
  }

  /** The clock does not run back. */
  ghost predicate Monotone(calls: seq<Call>) {
    && (forall n :: 0 <= n < |calls| ==> calls[n].gateTime <= calls[n].reuseTime <= calls[n].endTime)
    && (forall m, n :: 0 <= m < n < |calls| ==> calls[m].endTime <= calls[n].gateTime)
  }

  /** Call j is the last one before call n that ran the verifier. */
  ghost predicate LastRun(calls: seq<Call>, j: nat, n: nat) {
    && j < n <= |calls| && AnswerTo(calls, j).Ran?
    && forall m :: j < m < n ==> !AnswerTo(calls, m).Ran?
  }

  /** The cache is what the last run of the verifier stored: no other call changes it. */
  lemma {:induction false} CacheOfLastRun(calls: seq<Call>, n: nat) returns (j: Option<nat>)
    requires n <= |calls|
    ensures match j
            case None => Before(calls, n) == INITIAL && forall m :: 0 <= m < n ==> !AnswerTo(calls, m).Ran?
            case Some(j) => LastRun(calls, j, n) && Before(calls, n) == Recorded(calls[j])
  {
    if n == 0 {
      j := None;
    } else {
      j := CacheOfLastRun(calls, n - 1);
      if AnswerTo(calls, n - 1).Ran? { j := Some(n - 1); }
    }
  }

  /** What holds of the cache in every reachable state. */
  ghost predicate Coherent(s: Cache) {
    && (s.ready ==> s.initialized && s.kind == Closure && s.failure == NoFailure && s.fingerprint != [])
    && (s.kind == Closure ==> s.ready)
    && (s.failure == Invalid ==> s.initialized && s.kind == Tree && s.fingerprint != [] && !s.ready)
    && (s.initialized && !s.ready ==> s.failure != NoFailure)
  }

  lemma ReachableCoherent(calls: seq<Call>, n: nat)
    requires n <= |calls| && PlausibleRun(calls)
    ensures Coherent(Before(calls, n))
  {
    var j := CacheOfLastRun(calls, n);
    if j.Some? {
      var c := calls[j.value];
      assert Plausible(c);
      var v := FullVerification(c);
      if v.ReadyVerdict? { assert c.closureAfter(v.paths) == Some(v.fingerprint); }
    }
  }

  // ---------------------------------------------------------------- answers, in terms of what the verifier did

  /** The verifier exited with 0 and named a closure that reads as it says. */
  predicate Accepted(c: Call) {
    c.run.Exited? && c.run.code == 0 && c.run.metadata.Some? && c.closureAfter(c.run.metadata.value.0) == Some(c.run.metadata.value.1)
  }

  function AcceptedPaths(c: Call): Paths
    requires Accepted(c)
  {
    c.run.metadata.value.0
  }

  function AcceptedFingerprint(c: Call): Fingerprint
    requires Accepted(c)
  {
    c.run.metadata.value.1
  }

  /** The verifier exited with 1, and the four snapshots around it are equal. */
  predicate Rejected(c: Call) {
    c.run.Exited? && c.run.code == 1 && c.before.0 == c.before.1 == c.after.0 == c.after.1
  }

  /** It could not be run, was killed, failed otherwise, contradicted the closure, or the tree did not stand still. */
  predicate Inconclusive(c: Call) { !Accepted(c) && !Rejected(c) }

  /** What a run of the verifier leaves in the cache. */
  lemma RunRecorded(c: Call)
    ensures Recorded(c).initialized && Recorded(c).root == Some(c.root) && Recorded(c).ready == Accepted(c)
    ensures Accepted(c) ==>
      Recorded(c).kind == Closure && Recorded(c).failure == NoFailure
      && Recorded(c).paths == AcceptedPaths(c) && Recorded(c).fingerprint == AcceptedFingerprint(c)
    ensures Rejected(c) ==>
      Recorded(c).kind == Tree && Recorded(c).failure == Invalid && Recorded(c).fingerprint == c.before.0
    ensures Inconclusive(c) ==>
      Recorded(c).kind == Tree && Recorded(c).failure == Transient && Recorded(c).retryAfter == c.endTime + 60.0
  {
  }

  /** A run of the verifier answers True exactly when it accepted. */
  lemma RanAnswers(calls: seq<Call>, n: nat)
    requires n < |calls| && AnswerTo(calls, n).Ran?
    ensures AnswerTo(calls, n) == Ran(Accepted(calls[n]))
  {
    RunRecorded(calls[n]);
  }

  /**
   An unforced call is answered True without the verifier exactly when the last run of the verifier was
   for the same root and accepted, and the closure it accepted reads the same now.
   */
  lemma ReusedTrueIff(calls: seq<Call>, n: nat, j: nat)
    requires n < |calls| && PlausibleRun(calls) && LastRun(calls, j, n)
    ensures AnswerTo(calls, n) == Reused(true) <==>
              && !calls[n].force && calls[j].root == calls[n].root && Accepted(calls[j])
              && calls[n].closure(AcceptedPaths(calls[j])) == Some(AcceptedFingerprint(calls[j]))
  {
    var k := CacheOfLastRun(calls, n);
    assert k == Some(j);
    RunRecorded(calls[j]);
    ReachableCoherent(calls, n);
  }

  /** Before the first run of the verifier nothing is reused. */
  lemma NothingReusedFirst(calls: seq<Call>, n: nat)
    requires n < |calls| && forall m :: 0 <= m < n ==> !AnswerTo(calls, m).Ran?
    ensures AnswerTo(calls, n).Ran?
  {
    var k := CacheOfLastRun(calls, n);
  }

  /**
   An unforced call is answered False from a fingerprint exactly when the last run for the same root was
   a stable "invalid" verdict and the tree still has the fingerprint of the four snapshots around it.
   */
  lemma ReusedFalseIff(calls: seq<Call>, n: nat, j: nat)
    requires n < |calls| && PlausibleRun(calls) && Monotone(calls) && LastRun(calls, j, n)
    ensures AnswerTo(calls, n) == Reused(false) <==>
              && !calls[n].force && calls[j].root == calls[n].root && Rejected(calls[j])
              && calls[n].tree == calls[j].before.0
  {
    var k := CacheOfLastRun(calls, n);
    assert k == Some(j);
    RunRecorded(calls[j]);
    ReachableCoherent(calls, n);
    assert Plausible(calls[j]) && Plausible(calls[n]);
  }

  // ---------------------------------------------------------------- back-off

  /** A run of the verifier without a conclusion. */
  predicate TransientRun(calls: seq<Call>, n: nat)
    requires n < |calls|
  {
    AnswerTo(calls, n).Ran? && Inconclusive(calls[n])
  }

  /**
   After a run the verifier runs again exactly when the call is forced or for another root, 60 seconds after an
   inconclusive end, or when the closure or tree no longer reads as it did.
   */
  lemma RunsAgainIff(calls: seq<Call>, n: nat, j: nat)
    requires n < |calls| && PlausibleRun(calls) && Monotone(calls) && LastRun(calls, j, n)
    ensures AnswerTo(calls, n).Ran? <==>
      || calls[n].force || calls[j].root != calls[n].root
      || (Inconclusive(calls[j]) && calls[n].gateTime >= calls[j].endTime + 60.0)
      || (Accepted(calls[j]) && calls[n].closure(AcceptedPaths(calls[j])) != Some(AcceptedFingerprint(calls[j])))
      || (Rejected(calls[j]) && calls[n].tree != calls[j].before.0)
  {
    var k := CacheOfLastRun(calls, n);
    assert k == Some(j);
    RunRecorded(calls[j]);
    ReachableCoherent(calls, n);
    assert Plausible(calls[n]);
    assert calls[n].gateTime <= calls[n].reuseTime;
  }

  /** After an inconclusive run, the next unforced run for the same root starts 60 seconds later. */
  lemma NextRunWaits(calls: seq<Call>, j: nat, n: nat)
    requires n < |calls| && LastRun(calls, j, n) && TransientRun(calls, j)
    requires AnswerTo(calls, n).Ran? && !calls[n].force && calls[j].root == calls[n].root
    ensures calls[n].gateTime >= calls[j].endTime + 60.0
  {
    var k := CacheOfLastRun(calls, n);
    assert k == Some(j);
    RunRecorded(calls[j]);
  }

  /** A call on the time line: when it starts and ends, and whether it runs the verifier. */
  datatype Mark = Mark(start: real, end: real, ran: bool)

  function Marks(calls: seq<Call>, from: nat, end: nat): (marks: seq<Mark>)
    requires from <= end <= |calls|
    ensures |marks| == end - from
  {
    seq(end - from, i requires 0 <= i < end - from =>
      Mark(calls[from + i].gateTime, calls[from + i].endTime, AnswerTo(calls, from + i).Ran?))
  }

  function RunCount(marks: seq<Mark>): nat {
    if marks == [] then 0 else RunCount(marks[..|marks| - 1]) + if marks[|marks| - 1].ran then 1 else 0
  }

  ghost predicate Forward(marks: seq<Mark>) {
    && (forall i :: 0 <= i < |marks| ==> marks[i].start <= marks[i].end)
    && (forall i, j :: 0 <= i < j < |marks| ==> marks[i].end <= marks[j].start)
  }

  ghost predicate Consecutive(marks: seq<Mark>, i: nat, j: nat) {
    i < j < |marks| && marks[i].ran && marks[j].ran && forall m :: i < m < j ==> !marks[m].ran
  }

  /** Consecutive runs keep the back-off between them. */
  ghost predicate Spaced(marks: seq<Mark>) {
    forall i: nat, j: nat :: Consecutive(marks, i, j) ==> marks[j].start >= marks[i].end + RETRY_SECONDS
  }

  lemma PrefixSpaced(marks: seq<Mark>, n: nat)
    requires n <= |marks| && Forward(marks) && Spaced(marks)
    ensures Forward(marks[..n]) && Spaced(marks[..n])
  {
    var p := marks[..n];
    forall i: nat, j: nat | Consecutive(p, i, j) ensures p[j].start >= p[i].end + RETRY_SECONDS {
      forall m | i < m < j ensures !marks[m].ran { assert !p[m].ran; }
      assert Consecutive(marks, i, j);
    }
  }

  lemma {:induction false} LastMark(marks: seq<Mark>) returns (j: nat)
    requires RunCount(marks) > 0
    ensures j < |marks| && marks[j].ran && (forall m :: j < m < |marks| ==> !marks[m].ran)
    ensures RunCount(marks) == RunCount(marks[..j]) + 1 == RunCount(marks[..j + 1])
  {
    var n := |marks| - 1;
    if marks[n].ran {
      j := n;
      assert marks[..n + 1] == marks;
    } else {
      j := LastMark(marks[..n]);
      assert marks[..n][..j] == marks[..j] && marks[..n][..j + 1] == marks[..j + 1];
    }
  }

  /** The time that k runs need between them. */
  function Gaps(k: nat): real
    requires k > 0
  {
    RETRY_SECONDS * (k - 1) as real
  }

  lemma OneMoreGap(first: real, last: real, end: real, next: real, k: nat)
    requires k > 0 && last >= first + Gaps(k) && end >= last && next >= end + RETRY_SECONDS
    ensures next >= first + Gaps(k + 1)
  {
  }

  lemma LastRunBefore(marks: seq<Mark>, n: nat) returns (j: nat)
    requires n < |marks| && marks[n].ran && RunCount(marks[..n]) > 0
    ensures Consecutive(marks, j, n) && RunCount(marks[..n]) == RunCount(marks[..j + 1])
  {
    j := LastMark(marks[..n]);
    assert marks[..n][..j + 1] == marks[..j + 1] && marks[..n][j] == marks[j];
    forall m | j < m < n ensures !marks[m].ran { assert marks[..n][m] == marks[m]; }
  }

  /** The last of k runs starts at least 60 (k - 1) seconds after the time line does. */
  lemma {:induction false} RunsAreSpaced(marks: seq<Mark>)
    requires marks != [] && Forward(marks) && Spaced(marks) && marks[|marks| - 1].ran
    ensures RunCount(marks) > 0 && marks[|marks| - 1].start >= marks[0].start + Gaps(RunCount(marks))
    decreases |marks|
  {
    var n := |marks| - 1;
    if RunCount(marks[..n]) > 0 {
      var j := LastRunBefore(marks, n);
      PrefixSpaced(marks, j + 1);
      RunsAreSpaced(marks[..j + 1]);
      OneMoreGap(marks[0].start, marks[j].start, marks[j].end, marks[n].start, RunCount(marks[..n]));
    } else if n > 0 {
      assert marks[0].end <= marks[n].start;
    }
  }

  /** An unforced call for the root whose run of the verifier, if it makes one, ends transiently. */
  ghost predicate TransientCall(calls: seq<Call>, root: string, n: nat)
    requires n < |calls|
  {
    !calls[n].force && calls[n].root == root && (AnswerTo(calls, n).Ran? ==> TransientRun(calls, n))
  }

  /** Calls [from, end) are unforced, for one root, and every run among them ends transiently. */
  ghost predicate TransientWindow(calls: seq<Call>, from: nat, end: nat)
    requires from <= end <= |calls|
  {
    forall n {:trigger TransientCall(calls, calls[from].root, n)} :: from <= n < end ==> TransientCall(calls, calls[from].root, n)
  }

  lemma MarkAt(calls: seq<Call>, from: nat, end: nat, i: nat)
    requires from <= end <= |calls| && i < end - from
    ensures Marks(calls, from, end)[i] == Mark(calls[from + i].gateTime, calls[from + i].endTime, AnswerTo(calls, from + i).Ran?)
  {
  }

  lemma ConsecutiveRuns(calls: seq<Call>, from: nat, end: nat, i: nat, j: nat)
    requires from <= end <= |calls| && Consecutive(Marks(calls, from, end), i, j)
    ensures LastRun(calls, from + i, from + j) && AnswerTo(calls, from + j).Ran?
    ensures from + j < end
  {
    MarkAt(calls, from, end, i);
    MarkAt(calls, from, end, j);
    forall m | from + i < m < from + j ensures !AnswerTo(calls, m).Ran? { MarkAt(calls, from, end, m - from); }
  }

  lemma ConsecutiveWait(calls: seq<Call>, root: string, i: nat, j: nat)
    requires i < j < |calls| && LastRun(calls, i, j) && AnswerTo(calls, j).Ran?
    requires TransientCall(calls, root, i) && TransientCall(calls, root, j)
    ensures calls[j].gateTime >= calls[i].endTime + RETRY_SECONDS
  {
    NextRunWaits(calls, i, j);
  }

  lemma MarkTimes(calls: seq<Call>, from: nat, end: nat, i: nat)
    requires from <= end <= |calls| && i < end - from
    ensures Marks(calls, from, end)[i].start == calls[from + i].gateTime && Marks(calls, from, end)[i].end == calls[from + i].endTime
  {
  }

  lemma WindowForward(calls: seq<Call>, from: nat, end: nat)
    requires from <= end <= |calls| && Monotone(calls)
    ensures Forward(Marks(calls, from, end))
  {
    var marks := Marks(calls, from, end);
    forall i | 0 <= i < |marks| ensures marks[i].start <= marks[i].end { MarkTimes(calls, from, end, i); }
    forall i, j | 0 <= i < j < |marks| ensures marks[i].end <= marks[j].start {
      MarkTimes(calls, from, end, i);
      MarkTimes(calls, from, end, j);
    }
  }

  lemma WindowSpaced(calls: seq<Call>, from: nat, end: nat)
    requires from <= end <= |calls| && TransientWindow(calls, from, end)
    ensures Spaced(Marks(calls, from, end))
  {
    var marks := Marks(calls, from, end);
    forall i: nat, j: nat | Consecutive(marks, i, j) ensures marks[j].start >= marks[i].end + RETRY_SECONDS {
      ConsecutiveRuns(calls, from, end, i, j);
      assert TransientCall(calls, calls[from].root, from + i) && TransientCall(calls, calls[from].root, from + j);
      ConsecutiveWait(calls, calls[from].root, from + i, from + j);
      MarkTimes(calls, from, end, i);
      MarkTimes(calls, from, end, j);
    }
  }

  lemma WindowMarks(calls: seq<Call>, from: nat, end: nat)
    requires from < end <= |calls| && Monotone(calls) && TransientWindow(calls, from, end)
    ensures Forward(Marks(calls, from, end)) && Spaced(Marks(calls, from, end))
    ensures Marks(calls, from, end)[0].start == calls[from].gateTime
    ensures Marks(calls, from, end)[end - from - 1].end == calls[end - 1].endTime
  {
    WindowForward(calls, from, end);
    WindowSpaced(calls, from, end);
    MarkTimes(calls, from, end, 0);
    MarkTimes(calls, from, end, end - from - 1);
  }

  lemma GapsFit(first: real, last: real, k: nat, seconds: real)
    requires k > 0 && last >= first + Gaps(k) && last <= first + seconds
    ensures k as real <= 1.0 + seconds / RETRY_SECONDS
  {
  }

  /** The time line is long enough for the gaps between its runs. */
  lemma GapsInMarks(marks: seq<Mark>)
    requires RunCount(marks) > 0 && Forward(marks) && Spaced(marks)
    ensures marks != [] && marks[|marks| - 1].end >= marks[0].start + Gaps(RunCount(marks))
  {
    var last := |marks| - 1;
    var j := LastMark(marks);
    PrefixSpaced(marks, j + 1);
    RunsAreSpaced(marks[..j + 1]);
    assert marks[j].start <= marks[j].end;
    assert j < last ==> marks[j].end <= marks[last].start;
    assert marks[last].start <= marks[last].end;
  }

  lemma NoTimeLost(first: real, last: real, seconds: real)
    requires first <= last <= first + seconds
    ensures 0.0 <= 1.0 + seconds / RETRY_SECONDS
  {
  }

  lemma MarksForward(marks: seq<Mark>)
    requires marks != [] && Forward(marks)
    ensures marks[0].start <= marks[|marks| - 1].end
  {
    if |marks| > 1 { assert marks[0].end <= marks[|marks| - 1].start; }
  }

  lemma BoundedMarks(marks: seq<Mark>, seconds: real)
    requires marks != [] && Forward(marks) && Spaced(marks) && marks[|marks| - 1].end <= marks[0].start + seconds
    ensures RunCount(marks) as real <= 1.0 + seconds / RETRY_SECONDS
  {
    MarksForward(marks);
    if RunCount(marks) > 0 {
      GapsInMarks(marks);
      GapsFit(marks[0].start, marks[|marks| - 1].end, RunCount(marks), seconds);
    } else {
      NoTimeLost(marks[0].start, marks[|marks| - 1].end, seconds);
    }
  }

  /** A window of W seconds in which every run is inconclusive has at most 1 + W/60 runs of the verifier. */
  lemma BoundedRuns(calls: seq<Call>, from: nat, end: nat, seconds: real)
    requires from < end <= |calls| && Monotone(calls) && TransientWindow(calls, from, end)
    requires calls[end - 1].endTime <= calls[from].gateTime + seconds
    ensures RunCount(Marks(calls, from, end)) as real <= 1.0 + seconds / 60.0
  {
    var marks := Marks(calls, from, end);
    WindowMarks(calls, from, end);
    BoundedMarks(marks, seconds);
  }
}
