/** Exactly which environment files are read, and as what (deploy/bin/ops_helper.py, `strict_env`). */
module EnvExact {
  import opened Results
  import opened Texts
  import opened EnvFile
  import U = Utf8

  // ---------------------------------------------------------------- keys, placeholders, comments

  const UPPER: string := "ABCDEFGHIJKLMNOPQRSTUVWXYZ"
  const DIGITS: string := "0123456789"

  lemma UpperIff(c: char)
    ensures c in UPPER <==> IsUpper(c)
  {
    assert UPPER[if 'A' <= c <= 'Z' then c as int - 'A' as int else 0] == if 'A' <= c <= 'Z' then c else 'A';
  }

  lemma DigitIff(c: char)
    ensures c in DIGITS <==> IsDigit(c)
  {
    assert DIGITS[if '0' <= c <= '9' then c as int - '0' as int else 0] == if '0' <= c <= '9' then c else '0';
  }

  /** A key is an upper-case letter and then upper-case letters, digits and underscores. */
  lemma KeyIff(s: string)
    ensures IsKey(s) <==> s != "" && s[0] in UPPER && forall i :: 0 <= i < |s| ==> s[i] in UPPER || s[i] in DIGITS || s[i] == '_'
  {
    forall c: char ensures (c in UPPER <==> IsUpper(c)) && (c in DIGITS <==> IsDigit(c)) { UpperIff(c); DigitIff(c); }
  }

  /** A dollar sign and then a letter or an underscore, or a text in braces. */
  ghost predicate Substitutes(s: string, before: string, rest: string) {
    && s == before + "$" + rest && rest != ""
    && (Starts(rest[0]) || (rest[0] == '{' && '}' in rest[1..]))
  }

  predicate Starts(c: char) { 'a' <= c <= 'z' || c in UPPER || c == '_' }

  lemma StartsIff(c: char)
    ensures Starts(c) <==> IsNameChar(c) && !IsDigit(c)
  {
    UpperIff(c);
  }

  lemma PlaceholderAt(s: string, i: nat)
    requires i < |s| - 1 && s[i] == '$'
    ensures (IsNameChar(s[i + 1]) && !IsDigit(s[i + 1])) || (s[i + 1] == '{' && '}' in s[i + 2..]) <==> Substitutes(s, s[..i], s[i + 1..])
  {
    StartsIff(s[i + 1]);
    assert s == s[..i] + "$" + s[i + 1..] && s[i + 1..][1..] == s[i + 2..];
  }

  lemma PlaceholderFound(s: string, before: string, rest: string)
    requires Substitutes(s, before, rest)
    ensures HasPlaceholder(s)
  {
    var i := |before|;
    assert s[..i] == before && s[i] == '$' && s[i + 1..] == rest;
    PlaceholderAt(s, i);
  }

  /** A value has a placeholder exactly when something in it would be substituted. */
  lemma PlaceholderIff(s: string)
    ensures HasPlaceholder(s) <==> exists before, rest :: Substitutes(s, before, rest)
  {
    if HasPlaceholder(s) {
      var i :| 0 <= i < |s| - 1
        && s[i] == '$' && ((IsNameChar(s[i + 1]) && !IsDigit(s[i + 1])) || (s[i + 1] == '{' && '}' in s[i + 2..]));
      PlaceholderAt(s, i);
    } else {
      forall before, rest ensures !Substitutes(s, before, rest) {
        if Substitutes(s, before, rest) { PlaceholderFound(s, before, rest); }
      }
    }
  }

  /** A line is skipped when nothing but blanks stands before its end or before a number sign. */
  lemma {:induction false} CommentIff(line: string)
    ensures IsComment(line) <==> AllBlank(line) || exists i :: 0 <= i < |line| && line[i] == '#' && AllBlank(line[..i])
  {
    StripLeftCuts(line);
    var rest := StripLeft(line);
    var k := |line| - |rest|;
    StripRightCuts(rest);
    if rest == "" {
      assert line[..k] == line;
    } else {
      assert !IsBlank(line[k]) && line[k] == rest[0];
      assert Strip(line) != "" && Strip(line)[0] == line[k];
      if line[k] == '#' { assert AllBlank(line[..k]); }
      forall i | k < i <= |line| ensures !AllBlank(line[..i]) { assert line[..i][k] == line[k]; }
      forall i | 0 <= i < k ensures line[i] != '#' { assert IsBlank(line[..k][i]); }
    }
  }

  lemma {:induction false} StripLeftCuts(s: string)
    ensures |StripLeft(s)| <= |s| && StripLeft(s) == s[|s| - |StripLeft(s)|..] && AllBlank(s[..|s| - |StripLeft(s)|])
    ensures StripLeft(s) != "" ==> !IsBlank(StripLeft(s)[0])
  {
    if s != "" && IsBlank(s[0]) {
      StripLeftCuts(s[1..]);
      var k := |s| - |StripLeft(s)|;
      forall i | 0 <= i < k ensures IsBlank(s[..k][i]) { if i > 0 { assert s[1..][..k - 1][i - 1] == s[i]; } }
    }
  }

  lemma {:induction false} StripRightCuts(s: string)
    requires s == "" || !IsBlank(s[0])
    ensures s != "" ==> StripRight(s) != "" && StripRight(s)[0] == s[0]
  {
    if s != "" && IsBlank(s[|s| - 1]) { StripRightCuts(s[..|s| - 1]); }
  }

  // ---------------------------------------------------------------- lines

  /** The characters that end a line, by their code points. */
  lemma BreaksIff(c: char)
    ensures IsBreak(c) <==> c as int in {0x0A, 0x0B, 0x0C, 0x0D, 0x1C, 0x1D, 0x1E, 0x85, 0x2028, 0x2029}
  {
  }

  /** A break before the rest of a text: one of these characters, or a carriage return and a line feed together. */
  predicate Ends(end: string, rest: string) {
    || end == "\r\n"
    || (|end| == 1 && IsBreak(end[0]) && (end[0] == '\r' ==> rest == "" || rest[0] != '\n'))
  }

  /** A line that a break ends. */
  lemma {:induction false} LineEnded(line: string, end: string, rest: string)
    requires OneLine(line) && Ends(end, rest)
    ensures SplitLines(line + end + rest) == [line] + SplitLines(rest)
    decreases |line|
  {
    var s := line + end + rest;
    if line == "" {
      assert s[0] == end[0] && s[|end|..] == rest;
      assert |s| > 1 ==> s[1] == if |end| == 2 then '\n' else rest[0];
    } else {
      assert s[0] == line[0] && s[1..] == line[1..] + end + rest;
      LineEnded(line[1..], end, rest);
      assert ([line[1..]] + SplitLines(rest))[1..] == SplitLines(rest);
      assert [line[0]] + line[1..] == line;
    }
  }

  lemma {:induction false} LastLine(line: string)
    requires OneLine(line)
    ensures SplitLines(line) == if line == "" then [] else [line]
  {
    if line != "" {
      LastLine(line[1..]);
      assert [line[0]] + line[1..] == line;
      if line[1..] == "" { assert line == [line[0]]; } else { assert Extend(line[0], [line[1..]]) == [line]; }
    }
  }

  // ---------------------------------------------------------------- records

  /** A line is read as a record exactly when it is one: a clean key and value with "=" between them, for a new key. */
  lemma RecordReadIff(raw: string, known: set<string>, key: string, value: string)
    requires OneLine(raw)
    ensures ReadRecord(raw, known) == Ok((key, value)) <==> raw == Record(key, value) && CleanRecord(key, value) && key !in known
  {
    if ReadRecord(raw, known) == Ok((key, value)) {
      ReadRecordClean(raw, known);
      var i := Find(raw, '=');
      assert raw == raw[..i] + "=" + raw[i + 1..];
    }
    if raw == Record(key, value) && CleanRecord(key, value) && key !in known { RecordRead(key, value, known); }
  }

  /** Why a line is refused, when it has an "=" at i. */
  lemma RecordRefused(raw: string, known: set<string>, i: nat)
    requires i < |raw| && i == Find(raw, '=') && Stripped(raw) && !("export " <= raw)
    ensures var key, value := raw[..i], raw[i + 1..];
      && (ReadRecord(raw, known) == Err(BadKey) <==> !IsKey(key) || key in known)
      && (ReadRecord(raw, known) == Err(SurroundingBlank) <==> IsKey(key) && key !in known && !Stripped(value))
      && (ReadRecord(raw, known) == Err(Quoted) <==> IsKey(key) && key !in known && Stripped(value) && Quotes(value))
      && (ReadRecord(raw, known) == Err(Placeholder) <==> IsKey(key) && key !in known && Stripped(value) && !Quotes(value) && HasPlaceholder(value))
  {
    StripIff(raw);
    StripIff(raw[i + 1..]);
  }

  /** A quote at one of the ends. */
  predicate Quotes(value: string) {
    value != "" && (value[0] == '\'' || value[0] == '"' || value[|value| - 1] == '\'' || value[|value| - 1] == '"')
  }

  /** The shape of a record is wrong: blanks around it, no "=", or an export. */
  lemma SyntaxRefusedIff(raw: string, known: set<string>)
    ensures ReadRecord(raw, known) == Err(BadSyntax) <==> !Stripped(raw) || '=' !in raw || "export " <= raw
  {
    StripIff(raw);
    if Find(raw, '=') == |raw| { assert raw[..|raw|] == raw; }
  }

  // ---------------------------------------------------------------- files

  /**
   Line by line: an earlier error stays, a comment adds nothing, a record adds its value under a new key, and
   anything else is the error of the file.
   */
  lemma {:induction false} LineAdded(lines: seq<string>, line: string, init: Env)
    ensures ReadRecords(lines + [line], init) ==
      match ReadRecords(lines, init)
      case Err(e) => Err(e)
      case Ok(values) =>
        if IsComment(line) then Ok(values)
        else match ReadRecord(line, values.Keys) case Err(e) => Err(e) case Ok((key, value)) => Ok(values[key := value])
    decreases |lines|
  {
    if lines == [] {
      assert [] + [line] == [line] && [line][1..] == [];
    } else {
      assert (lines + [line])[1..] == lines[1..] + [line];
      if IsComment(lines[0]) {
        LineAdded(lines[1..], line, init);
      } else if ReadRecord(lines[0], init.Keys).Ok? {
        var (key, value) := ReadRecord(lines[0], init.Keys).value;
        LineAdded(lines[1..], line, init[key := value]);
      }
    }
  }

  /** A file is refused before its lines are looked at exactly when it is not UTF-8 or has a NUL character. */
  lemma FileRefusedIff(bytes: seq<Byte>)
    ensures StrictEnvFile(bytes) == Err(NotUtf8) <==> forall s :: bytes != U.Encode(s)
    ensures forall s :: bytes == U.Encode(s) ==>
      StrictEnvFile(bytes) == if '\0' in s then Err(HasNul) else ReadRecords(SplitLines(NormalizeBreaks(s)), map[])
  {
    forall s ensures U.Decode(bytes) == Some(s) <==> bytes == U.Encode(s) { U.DecodesIff(bytes, s); }
    if U.Decode(bytes).Some? {
      var text := U.Decode(bytes).value;
      assert bytes == U.Encode(text);
      NulStays(text);
      NeverNotUtf8(SplitLines(NormalizeBreaks(text)), map[]);
    }
  }

  lemma {:induction false} NulStays(s: string)
    ensures '\0' in NormalizeBreaks(s) <==> '\0' in s
    decreases |s|
  {
    if s != "" {
      if s[0] == '\r' {
        var rest := if |s| > 1 && s[1] == '\n' then s[2..] else s[1..];
        NulStays(rest);
        assert s == s[..|s| - |rest|] + rest;
        assert '\0' !in s[..|s| - |rest|];
      } else {
        NulStays(s[1..]);
        assert s == [s[0]] + s[1..];
      }
    }
  }

  lemma {:induction false} NeverNotUtf8(lines: seq<string>, values: Env)
    ensures ReadRecords(lines, values) != Err(NotUtf8) && ReadRecords(lines, values) != Err(HasNul)
    decreases |lines|
  {
    if lines != [] {
      if IsComment(lines[0]) {
        NeverNotUtf8(lines[1..], values);
      } else if ReadRecord(lines[0], values.Keys).Ok? {
        var (key, value) := ReadRecord(lines[0], values.Keys).value;
        NeverNotUtf8(lines[1..], values[key := value]);
      }
    }
  }
}
