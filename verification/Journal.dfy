/** The transaction journal (deploy/bin/ops_helper.py): validation, and the crash-atomic phase step. */
module Journal {
  import opened Results
  import opened Texts
  import opened EnvFile
  import opened AtomicFile
  import U = Utf8

  const JOURNAL_KEYS: seq<string> := [
    "JOURNAL_VERSION", "GENERATION", "OPERATION", "PHASE", "OLD_FRAGMENT_BACKUP", "OLD_FRAGMENT_UID",
    "OLD_FRAGMENT_GID", "OLD_FRAGMENT_MODE", "OLD_STATE_PRESENT", "OLD_STATE_BACKUP", "NEW_STATE_GENERATION"]

  const PHASES: set<string> := {"prepared", "traffic_installed", "state_committed"}
  const OPERATIONS: set<string> := {"switch", "rollback"}

  /** What the checks against other files of the state root read from the journal. */
  datatype References = References(
    generation: string, fragment: string, uid: string, gid: string, mode: string, statePresent: string, stateBackup: string)

  /** The process and the files the journal refers to: the checks on them are an arbitrary test. */
  datatype Context = Context(euid: int, referencesValid: References -> bool)

  predicate IsHex(c: char) { IsDigit(c) || 'a' <= c <= 'f' }

  /** `gen-[0-9a-f]{24}`. */
  predicate IsGeneration(s: string) {
    |s| == 28 && s[..4] == "gen-" && forall i | 4 <= i < 28 :: IsHex(s[i])
  }

  /** Positions in JOURNAL_KEYS. */
  const VERSION := 0
  const GENERATION := 1
  const OPERATION := 2
  const PHASE := 3
  const FRAGMENT := 4
  const FRAGMENT_UID := 5
  const FRAGMENT_GID := 6
  const FRAGMENT_MODE := 7
  const STATE_PRESENT := 8
  const STATE_BACKUP := 9
  const NEW_GENERATION := 10

  predicate HasJournalKeys(v: Env) { v.Keys == set i | 0 <= i < 11 :: JOURNAL_KEYS[i] }

  function Field(v: Env, i: nat): string
    requires HasJournalKeys(v) && i < 11
  {
    v[JOURNAL_KEYS[i]]
  }

  predicate ValidFields(v: Env, c: Context) {
    && HasJournalKeys(v)
    && Field(v, VERSION) == "1"
    && IsGeneration(Field(v, GENERATION))
    && Field(v, OPERATION) in OPERATIONS
    && Field(v, PHASE) in PHASES
    && (Field(v, STATE_PRESENT) == "1" || (Field(v, STATE_PRESENT) == "0" && Field(v, STATE_BACKUP) == ""))
    && c.referencesValid(References(
         Field(v, GENERATION), Field(v, FRAGMENT), Field(v, FRAGMENT_UID), Field(v, FRAGMENT_GID),
         Field(v, FRAGMENT_MODE), Field(v, STATE_PRESENT), Field(v, STATE_BACKUP)))
    && Field(v, NEW_GENERATION) == Field(v, GENERATION)
  }

  /** `values["PHASE"] = phase`. */
  function WithPhase(v: Env, phase: string): Env { v[JOURNAL_KEYS[PHASE] := phase] }

  /** `validate_journal` on the file found at the journal path; None when it refuses. */
  function ValidateJournal(f: FileData, c: Context): Option<Env> {
    if f.meta.uid != 0 && f.meta.uid != c.euid then None
    else if f.meta.mode != 0x180 then None
    else
      match StrictEnvFile(f.bytes)
      case Err(_) => None
      case Ok(v) => if ValidFields(v, c) then Some(v) else None
  }

  lemma KeysDistinct()
    ensures |JOURNAL_KEYS| == 11 && JOURNAL_KEYS[PHASE] == "PHASE"
    ensures forall i, j :: 0 <= i < j < 11 ==> JOURNAL_KEYS[i] != JOURNAL_KEYS[j]
  {
    var k := JOURNAL_KEYS;
    assert |k[3]| < |k[2]| < |k[1]| < |k[0]| < |k[5]| == |k[6]| == |k[9]| < |k[7]| == |k[8]| < |k[4]| < |k[10]|;
    assert k[5][13] == 'U' && k[6][13] == 'G' && k[5][4] == 'F' && k[9][4] == 'S' && k[6][4] == 'F';
    assert k[7][4] == 'F' && k[8][4] == 'S';
  }

  /** The journal's keys by name. */
  ghost predicate NamedKeys(v: Env) {
    v.Keys == {"JOURNAL_VERSION", "GENERATION", "OPERATION", "PHASE", "OLD_FRAGMENT_BACKUP", "OLD_FRAGMENT_UID",
               "OLD_FRAGMENT_GID", "OLD_FRAGMENT_MODE", "OLD_STATE_PRESENT", "OLD_STATE_BACKUP", "NEW_STATE_GENERATION"}
  }

  lemma NamedKeysIff(v: Env)
    ensures HasJournalKeys(v) <==> NamedKeys(v)
  {
    var k := JOURNAL_KEYS;
    assert (set i | 0 <= i < 11 :: k[i]) == {k[0], k[1], k[2], k[3], k[4], k[5], k[6], k[7], k[8], k[9], k[10]};
  }

  const LOWER_HEX: string := "0123456789abcdef"

  lemma HexIff(c: char)
    ensures IsHex(c) <==> c in LOWER_HEX
  {
    assert LOWER_HEX[if IsDigit(c) then c as int - '0' as int else if 'a' <= c <= 'f' then c as int - 'a' as int + 10 else 0]
        == if IsDigit(c) || 'a' <= c <= 'f' then c else '0';
  }

  /** "gen-" and 24 lower-case hexadecimal digits. */
  ghost predicate NamesGeneration(s: string) {
    exists digits :: s == "gen-" + digits && |digits| == 24 && forall i :: 0 <= i < 24 ==> digits[i] in LOWER_HEX
  }

  lemma GenerationIff(s: string)
    ensures IsGeneration(s) <==> NamesGeneration(s)
  {
    forall c: char ensures IsHex(c) <==> c in LOWER_HEX { HexIff(c); }
    if IsGeneration(s) {
      var digits := s[4..];
      assert s == "gen-" + digits;
      assert forall i :: 0 <= i < 24 ==> digits[i] == s[i + 4];
    }
    if NamesGeneration(s) {
      var digits :| s == "gen-" + digits && |digits| == 24 && forall i :: 0 <= i < 24 ==> digits[i] in LOWER_HEX;
      assert s[..4] == "gen-" && forall i :: 4 <= i < 28 ==> s[i] == digits[i - 4];
    }
  }

  /** What `validate_journal` demands of the values. */
  ghost predicate Sound(v: Env, c: Context) {
    && NamedKeys(v)
    && v["JOURNAL_VERSION"] == "1" && NamesGeneration(v["GENERATION"]) && v["NEW_STATE_GENERATION"] == v["GENERATION"]
    && v["OPERATION"] in {"switch", "rollback"} && v["PHASE"] in {"prepared", "traffic_installed", "state_committed"}
    && (v["OLD_STATE_PRESENT"] == "1" || (v["OLD_STATE_PRESENT"] == "0" && v["OLD_STATE_BACKUP"] == ""))
    && c.referencesValid(References(
         v["GENERATION"], v["OLD_FRAGMENT_BACKUP"], v["OLD_FRAGMENT_UID"], v["OLD_FRAGMENT_GID"],
         v["OLD_FRAGMENT_MODE"], v["OLD_STATE_PRESENT"], v["OLD_STATE_BACKUP"]))
  }

  lemma SoundIff(v: Env, c: Context)
    ensures ValidFields(v, c) <==> Sound(v, c)
  {
    NamedKeysIff(v);
    if NamedKeys(v) { GenerationIff(v["GENERATION"]); }
  }

  /** A journal is accepted exactly when its owner and mode are right and its records are sound. */
  lemma AcceptedIff(f: FileData, c: Context, v: Env)
    ensures ValidateJournal(f, c) == Some(v) <==>
      (f.meta.uid == 0 || f.meta.uid == c.euid) && f.meta.mode == 384 && StrictEnvFile(f.bytes) == Ok(v) && Sound(v, c)
  {
    SoundIff(v, c);
  }

  lemma KeysEnumerated(v: Env)
    requires HasJournalKeys(v)
    ensures Enumerates(JOURNAL_KEYS, v.Keys)
  {
    KeysDistinct();
  }

  predicate LowerCase(s: string) { forall i | 0 <= i < |s| :: '_' <= s[i] <= 'z' }

  lemma PhasesLowerCase()
    ensures LowerCase("prepared") && LowerCase("traffic_installed") && LowerCase("state_committed")
  {
  }

  lemma PhasesClean(phase: string)
    requires phase in PHASES
    ensures CleanRecord("PHASE", phase)
  {
    PhasesLowerCase();
    assert LowerCase(phase) && phase != "";
  }

  lemma WithPhaseFields(v: Env, phase: string)
    requires HasJournalKeys(v)
    ensures HasJournalKeys(WithPhase(v, phase)) && Field(WithPhase(v, phase), PHASE) == phase
    ensures forall i :: 0 <= i < 11 && i != PHASE ==> Field(WithPhase(v, phase), i) == Field(v, i)
  {
    KeysDistinct();
    assert JOURNAL_KEYS[PHASE] in v.Keys;
    assert WithPhase(v, phase).Keys == v.Keys;
  }

  lemma WithPhaseValid(v: Env, c: Context, phase: string)
    requires ValidFields(v, c) && phase in PHASES
    ensures ValidFields(WithPhase(v, phase), c)
  {
    WithPhaseFields(v, phase);
  }

  lemma WithPhaseClean(v: Env, phase: string)
    requires HasJournalKeys(v) && Clean(v) && phase in PHASES
    ensures Clean(WithPhase(v, phase)) && Enumerates(JOURNAL_KEYS, WithPhase(v, phase).Keys)
  {
    KeysDistinct();
    PhasesClean(phase);
    WithPhaseFields(v, phase);
    KeysEnumerated(WithPhase(v, phase));
  }

  lemma FileClean(bytes: seq<Byte>)
    requires StrictEnvFile(bytes).Ok?
    ensures Clean(StrictEnvFile(bytes).value)
  {
    var text := NormalizeBreaks(U.Decode(bytes).value);
    LinesAreLines(text);
    ReadRecordsClean(SplitLines(text), map[]);
  }

  /** The file that `write_env_atomic` writes: normalized text, private mode, the owner of the old file. */
  function Marked(f: FileData, v: Env, phase: string): FileData
    requires Enumerates(JOURNAL_KEYS, WithPhase(v, phase).Keys)
  {
    FileData(U.Encode(NormalizedEnv(WithPhase(v, phase), JOURNAL_KEYS)), Meta(0x180, f.meta.uid, f.meta.gid))
  }

  /** The marked journal is accepted and differs from the old one exactly in its phase. */
  lemma MarkedIsValid(f: FileData, c: Context, phase: string)
    requires ValidateJournal(f, c).Some? && phase in PHASES
    ensures var v := ValidateJournal(f, c).value;
            && Enumerates(JOURNAL_KEYS, WithPhase(v, phase).Keys)
            && ValidateJournal(Marked(f, v, phase), c) == Some(WithPhase(v, phase))
  {
    var v := ValidateJournal(f, c).value;
    FileClean(f.bytes);
    WithPhaseClean(v, phase);
    WithPhaseValid(v, c, phase);
    CleanReadBack(WithPhase(v, phase), JOURNAL_KEYS);
  }

  /** `command_mark_journal`: a call may fail, and the process dies when the budget of system calls is spent. */
  method MarkJournal(fs: FileSystem, path: string, temp: string, i: Inode, c: Context, phase: string, t: Trouble, budget: nat)
    returns (refused: bool)
    requires phase in PHASES
    modifies fs
    ensures refused <==> Reads(old(fs.disk), path).None? || ValidateJournal(Reads(old(fs.disk), path).value, c).None?
    ensures fs.disk == AfterMark(old(fs.disk), path, temp, i, c, phase, t, budget)
  {
    if path !in fs.disk.names || fs.disk.names[path] !in fs.disk.files { return true; }
    var f := fs.disk.files[fs.disk.names[path]];
    var v := ValidateJournal(f, c);
    refused := v.None?;
    if !refused {
      MarkedIsValid(f, c, phase);
      var _, _ := fs.AtomicReplace(path, temp, i, Marked(f, v.value, phase), t, budget);
    }
  }

  /** The disk after marking with a budget of system calls. */
  ghost function AfterMark(d: Disk, path: string, temp: string, i: Inode, c: Context, phase: string, t: Trouble, budget: nat): Disk
    requires phase in PHASES
  {
    match Reads(d, path)
    case None => d
    case Some(f) =>
      match ValidateJournal(f, c)
      case None => d
      case Some(v) =>
        MarkedIsValid(f, c, phase);
        AtomicFile.Run(d, AttemptCalls(path, temp, i, Marked(f, v, phase), t), budget)
  }

  // ---------------------------------------------------------------- any number of interrupted marks

  /** A journal that validation accepts and that is v with one of the phases. */
  predicate IsMarked(o: Option<FileData>, c: Context, v: Env, phases: set<string>) {
    o.Some? && ValidateJournal(o.value, c).Some? && exists p :: p in phases && ValidateJournal(o.value, c).value == WithPhase(v, p)
  }

  /** Whatever a crash keeps is such a journal. */
  ghost predicate Secure(d: Disk, path: string, c: Context, v: Env, phases: set<string>) {
    WellFormedDisk(d) && Certain(d, path, o => IsMarked(o, c, v, phases))
  }

  /** What a reader finds under the journal path, now or after a crash. */
  ghost predicate Found(d: Disk, path: string, o: Option<FileData>) { MayRead(d, path, o) || o == Reads(d, path) }

  lemma SecureFinds(d: Disk, path: string, c: Context, v: Env, phases: set<string>)
    requires Secure(d, path, c, v, phases)
    ensures forall o :: Found(d, path, o) ==> IsMarked(o, c, v, phases)
  {
    CertainReads(d, path, o => IsMarked(o, c, v, phases));
  }

  /** The phases a mark may leave: a finished one has made its own phase durable. */
  function PhasesAfterMark(phases: set<string>, phase: string, t: Trouble, n: nat): set<string> {
    if t.NoTrouble? && n >= 8 then {phase} else phases + {phase}
  }

  lemma OnePhase(g: FileData, c: Context, v: Env, phase: string)
    requires ValidateJournal(g, c) == Some(WithPhase(v, phase))
    ensures IsMarked(Some(g), c, v, {phase})
  {
    assert phase in {phase};
  }

  lemma MarkedAgain(w: Env, v: Env, phases: set<string>, phase: string)
    requires exists p :: p in phases && w == WithPhase(v, p)
    ensures WithPhase(w, phase) == WithPhase(v, phase)
  {
  }

  lemma MarkedIsMarked(f: FileData, c: Context, v: Env, phases: set<string>, phase: string)
    requires IsMarked(Some(f), c, v, phases) && phase in PHASES
    ensures var w := ValidateJournal(f, c).value;
            Enumerates(JOURNAL_KEYS, WithPhase(w, phase).Keys) && IsMarked(Some(Marked(f, w, phase)), c, v, {phase})
  {
    var w := ValidateJournal(f, c).value;
    MarkedIsValid(f, c, phase);
    MarkedAgain(w, v, phases, phase);
    OnePhase(Marked(f, w, phase), c, v, phase);
  }

  /**
   Whichever call fails and wherever it is cut off, by a signal or by a crash, marking leaves a journal that
   validation accepts and that differs at most in its phase, also when earlier marks were cut off.
   */
  lemma MarkJournalCrashSafe(
    d: Disk, path: string, temp: string, i: Inode, c: Context, v: Env, phases: set<string>, phase: string, t: Trouble, n: nat)
    requires Secure(d, path, c, v, phases) && Fresh(d, i) && temp != path && phase in PHASES
    ensures Secure(AfterMark(d, path, temp, i, c, phase, t, n), path, c, v, PhasesAfterMark(phases, phase, t, n))
  {
    SecureFinds(d, path, c, v, phases);
    assert Found(d, path, Reads(d, path));
    var f := Reads(d, path).value;
    MarkedIsMarked(f, c, v, phases, phase);
    var marked := Marked(f, ValidateJournal(f, c).value, phase);
    AttemptSecure(d, path, temp, i, c, v, phases, phase, marked, t, n);
  }

  lemma AttemptSecure(
    d: Disk, path: string, temp: string, i: Inode, c: Context, v: Env, phases: set<string>, phase: string, marked: FileData, t: Trouble, n: nat)
    requires Secure(d, path, c, v, phases) && Fresh(d, i) && temp != path && IsMarked(Some(marked), c, v, {phase})
    ensures Secure(AtomicFile.Run(d, AttemptCalls(path, temp, i, marked, t), n), path, c, v, PhasesAfterMark(phases, phase, t, n))
  {
    var allowed := o => IsMarked(o, c, v, phases + {phase});
    assert Certain(d, path, allowed);
    assert allowed(Some(marked));
    AttemptCertain(d, path, temp, i, marked, t, n, allowed);
  }

  /** A mark that is cut off, fails or finishes; or a crash. */
  datatype Step = Mark(temp: string, inode: Inode, phase: string, trouble: Trouble, budget: nat) | Crash

  ghost predicate Next(d: Disk, s: Step, e: Disk, path: string, c: Context) {
    match s
    case Mark(temp, i, phase, t, n) => temp != path && Fresh(d, i) && phase in PHASES && e == AfterMark(d, path, temp, i, c, phase, t, n)
    case Crash => Rebooted(d, e)
  }

  ghost predicate History(disks: seq<Disk>, steps: seq<Step>, path: string, c: Context) {
    |disks| == |steps| + 1 && forall k :: 0 <= k < |steps| ==> Next(disks[k], steps[k], disks[k + 1], path, c)
  }

  /** The phases the journal may show: that of the last finished mark, and those of the marks begun since. */
  function PossiblePhases(first: string, steps: seq<Step>): set<string> {
    if steps == [] then {first}
    else
      var before := PossiblePhases(first, steps[..|steps| - 1]);
      match steps[|steps| - 1]
      case Mark(_, _, phase, t, n) => PhasesAfterMark(before, phase, t, n)
      case Crash => before
  }

  /** The journal at the start: valid, and nothing about it is pending. */
  ghost predicate Starts(d: Disk, path: string, c: Context, v: Env) {
    WellFormedDisk(d) && Settled(d, path) && Reads(d, path).Some? && ValidateJournal(Reads(d, path).value, c) == Some(v)
  }

  lemma StartsSecure(d: Disk, path: string, c: Context, v: Env)
    requires Starts(d, path, c, v)
    ensures HasJournalKeys(v) && Secure(d, path, c, v, {Field(v, PHASE)})
  {
    KeysDistinct();
    assert JOURNAL_KEYS[PHASE] in v;
    assert WithPhase(v, Field(v, PHASE)) == v;
  }

  lemma {:induction false} HistorySecure(disks: seq<Disk>, steps: seq<Step>, path: string, c: Context, v: Env, k: nat)
    requires History(disks, steps, path, c) && k <= |steps| && Starts(disks[0], path, c, v)
    ensures HasJournalKeys(v) && Secure(disks[k], path, c, v, PossiblePhases(Field(v, PHASE), steps[..k]))
  {
    if k == 0 {
      StartsSecure(disks[0], path, c, v);
    } else {
      HistorySecure(disks, steps, path, c, v, k - 1);
      var phases := PossiblePhases(Field(v, PHASE), steps[..k - 1]);
      assert steps[..k][..k - 1] == steps[..k - 1];
      assert Next(disks[k - 1], steps[k - 1], disks[k], path, c);
      match steps[k - 1]
      case Mark(temp, i, phase, t, n) => MarkJournalCrashSafe(disks[k - 1], path, temp, i, c, v, phases, phase, t, n);
      case Crash => RebootedCertain(disks[k - 1], disks[k], path, o => IsMarked(o, c, v, phases));
    }
  }

  /**
   However many marks were cut off, failed or finished, and however often the machine crashed: what stands under
   the journal path is a journal that validation accepts; it differs from the first in its phase alone, which is
   that of the last finished mark or of one begun since.
   */
  lemma JournalSurvives(disks: seq<Disk>, steps: seq<Step>, path: string, c: Context, v: Env, k: nat, o: Option<FileData>)
    requires History(disks, steps, path, c) && k <= |steps| && Starts(disks[0], path, c, v)
    requires Found(disks[k], path, o)
    ensures HasJournalKeys(v) && IsMarked(o, c, v, PossiblePhases(Field(v, PHASE), steps[..k]))
  {
    HistorySecure(disks, steps, path, c, v, k);
    SecureFinds(disks[k], path, c, v, PossiblePhases(Field(v, PHASE), steps[..k]));
  }
}
