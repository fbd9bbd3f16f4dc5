/** Environment files (deploy/bin/ops_helper.py): the strict parser and the normalized printer. */
module EnvFile {
  import opened Results
  import opened Texts
  import U = Utf8

  type Env = map<string, string>

  datatype EnvError = NotUtf8 | HasNul | BadSyntax | BadKey | SurroundingBlank | Quoted | Placeholder

  // ---------------------------------------------------------------- lines

  /** The characters at which `str.splitlines` breaks. */
  predicate IsBreak(c: char) {
    var n := c as int;
    0x0A <= n <= 0x0D || 0x1C <= n <= 0x1E || n == 0x85 || n == 0x2028 || n == 0x2029
  }

  function SplitLines(s: string): seq<string>
    decreases |s|
  {
    if s == "" then []
    else if IsBreak(s[0]) then [""] + SplitLines(if s[0] == '\r' && |s| > 1 && s[1] == '\n' then s[2..] else s[1..])
    else
      var rest := SplitLines(s[1..]);
      if rest == [] then [[s[0]]] else Extend(s[0], rest)
  }

  function StripLeft(s: string): string {
    if s != "" && IsBlank(s[0]) then StripLeft(s[1..]) else s
  }

  function StripRight(s: string): string {
    if s != "" && IsBlank(s[|s| - 1]) then StripRight(s[..|s| - 1]) else s
  }

  /** `str.strip`. */
  function Strip(s: string): string { StripRight(StripLeft(s)) }

  // ---------------------------------------------------------------- records

  predicate IsUpper(c: char) { 'A' <= c <= 'Z' }
  predicate IsNameChar(c: char) { IsUpper(c) || 'a' <= c <= 'z' || IsDigit(c) || c == '_' }

  /** `[A-Z][A-Z0-9_]*`. */
  predicate IsKey(s: string) {
    s != "" && IsUpper(s[0]) && forall i | 0 <= i < |s| :: IsUpper(s[i]) || IsDigit(s[i]) || s[i] == '_'
  }

  predicate IsQuote(c: char) { c == '\'' || c == '"' }

  /** A `$NAME` or `${...}` anywhere in the value. */
  predicate HasPlaceholder(s: string) {
    exists i | 0 <= i < |s| - 1 ::
      s[i] == '$' && ((IsNameChar(s[i + 1]) && !IsDigit(s[i + 1])) || (s[i + 1] == '{' && '}' in s[i + 2..]))
  }

  predicate IsComment(raw: string) {
    var line := Strip(raw);
    line == "" || line[0] == '#'
  }

  /** One record line, already known not to be blank or a comment; `known` are the earlier keys. */
  function ReadRecord(raw: string, known: set<string>): Result<(string, string), EnvError> {
    var i := Find(raw, '=');
    if raw != Strip(raw) || i == |raw| || "export " <= raw then Err(BadSyntax)
    else
      var key, value := raw[..i], raw[i + 1..];
      if !IsKey(key) || key in known then Err(BadKey)
      else if value != Strip(value) then Err(SurroundingBlank)
      else if value != "" && (IsQuote(value[0]) || IsQuote(value[|value| - 1])) then Err(Quoted)
      else if HasPlaceholder(value) then Err(Placeholder)
      else Ok((key, value))
  }

  function ReadRecords(lines: seq<string>, values: Env): Result<Env, EnvError>
    decreases |lines|
  {
    if lines == [] then Ok(values)
    else if IsComment(lines[0]) then ReadRecords(lines[1..], values)
    else
      match ReadRecord(lines[0], values.Keys)
      case Err(e) => Err(e)
      case Ok((key, value)) => ReadRecords(lines[1..], values[key := value])
  }

  /** `strict_env` on a text. */
  function StrictEnv(text: string): Result<Env, EnvError> {
    if '\0' in text then Err(HasNul) else ReadRecords(SplitLines(text), map[])
  }

  /** `strict_env` on the bytes of a file, read as UTF-8 with universal newlines. */
  function StrictEnvFile(bytes: seq<Byte>): Result<Env, EnvError> {
    match U.Decode(bytes) case None => Err(NotUtf8) case Some(text) => StrictEnv(NormalizeBreaks(text))
  }

  /** The parser as it runs: a dictionary filled line by line. */
  method ReadStrictEnv(bytes: seq<Byte>) returns (r: Result<Env, EnvError>)
    ensures r == StrictEnvFile(bytes)
  {
    var decoded := U.Decode(bytes);
    if decoded.None? { return Err(NotUtf8); }
    var text := NormalizeBreaks(decoded.value);
    if '\0' in text { return Err(HasNul); }
    var lines := SplitLines(text);
    var values: Env := map[];
    var i := 0;
    assert lines[0..] == lines;
    while i < |lines|
      invariant 0 <= i <= |lines|
      invariant ReadRecords(lines, map[]) == ReadRecords(lines[i..], values)
    {
      assert lines[i..][1..] == lines[i + 1..];
      if !IsComment(lines[i]) {
        match ReadRecord(lines[i], values.Keys) {
          case Err(e) => return Err(e);
          case Ok((key, value)) => values := values[key := value];
        }
      }
      i := i + 1;
    }
    r := Ok(values);
  }

  function Record(key: string, value: string): string { key + "=" + value }

  /** `normalized_env`, before encoding. */
  function NormalizedEnv(values: Env, order: seq<string>): string
    requires forall k :: k in order ==> k in values
  {
    if order == [] then "" else Record(order[0], values[order[0]]) + "\n" + NormalizedEnv(values, order[1..])
  }

  // ---------------------------------------------------------------- what can be read

  predicate OneLine(s: string) { forall i | 0 <= i < |s| :: !IsBreak(s[i]) && s[i] != '\0' }

  predicate Stripped(s: string) { s == "" || (!IsBlank(s[0]) && !IsBlank(s[|s| - 1])) }

  /** A record that strict_env accepts and returns. */
  predicate CleanRecord(key: string, value: string) {
    && IsKey(key) && OneLine(value) && Stripped(value)
    && (value != "" ==> !IsQuote(value[0]) && !IsQuote(value[|value| - 1]))
    && !HasPlaceholder(value)
  }

  predicate Clean(values: Env) {
    forall k | k in values :: CleanRecord(k, values[k])
  }

  lemma {:induction false} StripLeftShape(s: string)
    ensures StripLeft(s) == s <==> s == "" || !IsBlank(s[0])
    ensures (StripLeft(s) == s || |StripLeft(s)| < |s|) && (StripLeft(s) != "" ==> !IsBlank(StripLeft(s)[0]))
  {
    if s != "" && IsBlank(s[0]) { StripLeftShape(s[1..]); }
  }

  lemma {:induction false} StripRightShape(s: string)
    ensures StripRight(s) == s <==> s == "" || !IsBlank(s[|s| - 1])
    ensures StripRight(s) == s || |StripRight(s)| < |s|
  {
    if s != "" && IsBlank(s[|s| - 1]) { StripRightShape(s[..|s| - 1]); }
  }

  lemma StripIff(s: string)
    ensures Strip(s) == s <==> Stripped(s)
  {
    StripLeftShape(s);
    StripRightShape(StripLeft(s));
  }

  lemma {:induction false} LinesAreLines(s: string)
    requires '\0' !in s
    ensures forall i :: 0 <= i < |SplitLines(s)| ==> OneLine(SplitLines(s)[i])
    decreases |s|
  {
    if s != "" {
      if IsBreak(s[0]) {
        LinesAreLines(if s[0] == '\r' && |s| > 1 && s[1] == '\n' then s[2..] else s[1..]);
      } else {
        LinesAreLines(s[1..]);
      }
    }
  }

  lemma ReadRecordClean(raw: string, known: set<string>)
    requires OneLine(raw) && ReadRecord(raw, known).Ok?
    ensures var (key, value) := ReadRecord(raw, known).value; CleanRecord(key, value) && key !in known
  {
    StripIff(raw[Find(raw, '=') + 1..]);
  }

  lemma {:induction false} ReadRecordsClean(lines: seq<string>, values: Env)
    requires Clean(values) && forall i :: 0 <= i < |lines| ==> OneLine(lines[i])
    ensures ReadRecords(lines, values).Ok? ==> Clean(ReadRecords(lines, values).value)
    decreases |lines|
  {
    if lines != [] {
      if IsComment(lines[0]) {
        ReadRecordsClean(lines[1..], values);
      } else if ReadRecord(lines[0], values.Keys).Ok? {
        ReadRecordClean(lines[0], values.Keys);
        var (key, value) := ReadRecord(lines[0], values.Keys).value;
        ReadRecordsClean(lines[1..], values[key := value]);
      }
    }
  }

  lemma {:induction false} FirstLine(line: string, rest: string)
    requires OneLine(line)
    ensures SplitLines(line + "\n" + rest) == [line] + SplitLines(rest)
    decreases |line|
  {
    var s := line + "\n" + rest;
    if line == "" {
      assert s[0] == '\n' && s[1..] == rest;
    } else {
      assert s[0] == line[0] && s[1..] == line[1..] + "\n" + rest;
      FirstLine(line[1..], rest);
      assert ([line[1..]] + SplitLines(rest))[1..] == SplitLines(rest);
      assert [line[0]] + line[1..] == line;
    }
  }

  lemma FindInRecord(key: string, value: string)
    requires IsKey(key)
    ensures Find(Record(key, value), '=') == |key|
    ensures Record(key, value)[..|key|] == key && Record(key, value)[|key| + 1..] == value
  {
    FindAfter(key, '=', value);
    assert Record(key, value) == key + ['='] + value;
  }

  lemma RecordOneLine(key: string, value: string)
    requires CleanRecord(key, value)
    ensures OneLine(Record(key, value))
  {
    var line := Record(key, value);
    forall i | 0 <= i < |line| ensures !IsBreak(line[i]) && line[i] != '\0' {
      if i < |key| { assert line[i] == key[i]; } else if i > |key| { assert line[i] == value[i - |key| - 1]; }
    }
  }

  lemma RecordStripped(key: string, value: string)
    requires CleanRecord(key, value)
    ensures Strip(Record(key, value)) == Record(key, value) && !IsComment(Record(key, value)) && !("export " <= Record(key, value))
  {
    var line := Record(key, value);
    assert line[0] == key[0];
    assert line[|line| - 1] == if value == "" then '=' else value[|value| - 1];
    StripIff(line);
    StripIff(value);
    assert "export "[0] == 'e';
  }

  lemma RecordRead(key: string, value: string, known: set<string>)
    requires CleanRecord(key, value) && key !in known
    ensures ReadRecord(Record(key, value), known) == Ok((key, value)) && !IsComment(Record(key, value))
    ensures OneLine(Record(key, value))
  {
    RecordOneLine(key, value);
    RecordStripped(key, value);
    StripIff(value);
    FindInRecord(key, value);
  }

  ghost predicate Enumerates(order: seq<string>, keys: set<string>) {
    && (forall i :: 0 <= i < |order| ==> order[i] in keys)
    && (forall k :: k in keys ==> k in order)
    && (forall i, j :: 0 <= i < j < |order| ==> order[i] != order[j])
  }

  /** Records added one after the other. */
  function Added(done: Env, values: Env, order: seq<string>): Env
    requires forall k :: k in order ==> k in values
    decreases |order|
  {
    if order == [] then done else Added(done[order[0] := values[order[0]]], values, order[1..])
  }

  lemma {:induction false} AddedContents(done: Env, values: Env, order: seq<string>)
    requires forall k :: k in order ==> k in values
    requires forall k :: k in done ==> k in values && done[k] == values[k]
    ensures forall k :: k in Added(done, values, order) <==> k in done || k in order
    ensures forall k :: k in Added(done, values, order) ==> k in values && Added(done, values, order)[k] == values[k]
    decreases |order|
  {
    if order != [] { AddedContents(done[order[0] := values[order[0]]], values, order[1..]); }
  }

  lemma {:induction false} PrintedRecordsRead(values: Env, order: seq<string>, done: Env)
    requires Clean(values) && forall i :: 0 <= i < |order| ==> order[i] in values && order[i] !in done
    requires forall i, j :: 0 <= i < j < |order| ==> order[i] != order[j]
    ensures '\0' !in NormalizedEnv(values, order) && '\r' !in NormalizedEnv(values, order)
    ensures ReadRecords(SplitLines(NormalizedEnv(values, order)), done) == Ok(Added(done, values, order))
    decreases |order|
  {
    if order != [] {
      var key := order[0];
      var line, rest := Record(key, values[key]), NormalizedEnv(values, order[1..]);
      RecordRead(key, values[key], done.Keys);
      PrintedRecordsRead(values, order[1..], done[key := values[key]]);
      FirstLine(line, rest);
      assert ([line] + SplitLines(rest))[1..] == SplitLines(rest);
    }
  }

  /** Printing and reading back is the identity on every map that can be read from a text. */
  lemma ReadInvertsPrint(text: string, order: seq<string>)
    requires StrictEnv(text).Ok? && Enumerates(order, StrictEnv(text).value.Keys)
    ensures StrictEnv(NormalizedEnv(StrictEnv(text).value, order)) == StrictEnv(text)
  {
    LinesAreLines(text);
    ReadRecordsClean(SplitLines(text), map[]);
    CleanReadBack(StrictEnv(text).value, order);
  }

  lemma CleanReadBack(values: Env, order: seq<string>)
    requires Clean(values) && Enumerates(order, values.Keys)
    ensures StrictEnv(NormalizedEnv(values, order)) == Ok(values)
    ensures StrictEnvFile(U.Encode(NormalizedEnv(values, order))) == Ok(values)
  {
    var text := NormalizedEnv(values, order);
    PrintedRecordsRead(values, order, map[]);
    AddedContents(map[], values, order);
    assert Added(map[], values, order) == values;
    U.DecodeEncode(text);
    NormalizeNothing(text);
  }

  /** A map can be read from some text exactly when its records are clean. */
  lemma ReadableIffClean(values: Env, order: seq<string>)
    requires Enumerates(order, values.Keys)
    ensures Clean(values) <==> exists text :: StrictEnv(text) == Ok(values)
  {
    if Clean(values) {
      CleanReadBack(values, order);
    } else if exists text :: StrictEnv(text) == Ok(values) {
      var text :| StrictEnv(text) == Ok(values);
      LinesAreLines(text);
      ReadRecordsClean(SplitLines(text), map[]);
    }
  }
}
