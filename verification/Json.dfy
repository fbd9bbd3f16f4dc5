/**
 JSON texts (RFC 8259) as Python's `json.dumps(..., ensure_ascii=False)` writes them and `json.loads`
 reads them.  A number stands by its literal.
 */
module Json {
  import opened Results
  import opened Texts

  datatype Json =
    | Null
    | Bool(b: bool)
    | Num(literal: string)
    | Str(s: string)
    | Arr(items: seq<Json>)
    | Obj(fields: seq<(string, Json)>)

  // ---------------------------------------------------------------- numbers

  function DropDigits(s: string): string {
    if s != [] && IsDigit(s[0]) then DropDigits(s[1..]) else s
  }

  predicate IsExponent(s: string) {
    s == [] ||
    ((s[0] == 'e' || s[0] == 'E') &&
     var d := if |s| > 1 && (s[1] == '+' || s[1] == '-') then s[2..] else s[1..];
     d != [] && DropDigits(d) == [])
  }

  predicate IsFraction(s: string) {
    if s != [] && s[0] == '.' then |s| > 1 && IsDigit(s[1]) && IsExponent(DropDigits(s[1..])) else IsExponent(s)
  }

  /** The number production of section 6 of RFC 8259. */
  predicate IsNumber(s: string) {
    var digits := if s != [] && s[0] == '-' then s[1..] else s;
    && digits != [] && IsDigit(digits[0])
    && IsFraction(if digits[0] == '0' then digits[1..] else DropDigits(digits))
  }

  predicate NumberChar(c: char) {
    IsDigit(c) || c == '-' || c == '+' || c == '.' || c == 'e' || c == 'E'
  }

  predicate All(s: string, p: char -> bool) {
    forall i | 0 <= i < |s| :: p(s[i])
  }

  lemma {:induction false} DigitsAreNumberChars(s: string)
    requires All(DropDigits(s), NumberChar)
    ensures All(s, NumberChar)
  {
    if s != [] && IsDigit(s[0]) {
      DigitsAreNumberChars(s[1..]);
      assert s == [s[0]] + s[1..];
    }
  }

  lemma ExponentChars(s: string)
    requires IsExponent(s)
    ensures All(s, NumberChar)
  {
    if s != [] {
      var d := if |s| > 1 && (s[1] == '+' || s[1] == '-') then s[2..] else s[1..];
      DigitsAreNumberChars(d);
      assert s == (if |s| > 1 && (s[1] == '+' || s[1] == '-') then [s[0], s[1]] else [s[0]]) + d;
    }
  }

  lemma FractionChars(s: string)
    requires IsFraction(s)
    ensures All(s, NumberChar)
  {
    if s != [] && s[0] == '.' {
      ExponentChars(DropDigits(s[1..]));
      DigitsAreNumberChars(s[1..]);
      assert s == ['.'] + s[1..];
    } else {
      ExponentChars(s);
    }
  }

  lemma NumberChars(s: string)
    requires IsNumber(s)
    ensures s != [] && All(s, NumberChar) && (s[0] == '-' || IsDigit(s[0]))
  {
    var digits := if s[0] == '-' then s[1..] else s;
    var rest := if digits[0] == '0' then digits[1..] else DropDigits(digits);
    FractionChars(rest);
    if digits[0] == '0' { assert digits == ['0'] + rest; } else { DigitsAreNumberChars(digits); }
    assert s == if s[0] == '-' then ['-'] + digits else digits;
  }

  // ---------------------------------------------------------------- writing

  function HexDigit(n: nat): char
    requires n < 16
  {
    "0123456789abcdef"[n]
  }

  function EscapeChar(c: char): string {
    if c == '"' then "\\\""
    else if c == '\\' then "\\\\"
    else if c == '\n' then "\\n"
    else if c == '\r' then "\\r"
    else if c == '\t' then "\\t"
    else if c == 8 as char then "\\b"
    else if c == 12 as char then "\\f"
    else if c < ' ' then "\\u00" + [HexDigit(c as int / 16), HexDigit(c as int % 16)]
    else [c]
  }

  function Escape(s: string): string {
    if s == [] then [] else EscapeChar(s[0]) + Escape(s[1..])
  }

  function Quote(s: string): string { "\"" + Escape(s) + "\"" }

  function Dump(v: Json): string
    decreases v, 0
  {
    match v
    case Null => "null"
    case Bool(b) => if b then "true" else "false"
    case Num(literal) => literal
    case Str(s) => Quote(s)
    case Arr(items) => "[" + DumpItems(items)
    case Obj(fields) => "{" + DumpFields(fields)
  }

  /** The items of an array, up to and including the closing bracket. */
  function DumpItems(items: seq<Json>): string
    decreases items, 1
  {
    if items == [] then "]"
    else Dump(items[0]) + (if |items| == 1 then "]" else ", " + DumpItems(items[1..]))
  }

  function DumpFields(fields: seq<(string, Json)>): string
    decreases fields, 1
  {
    if fields == [] then "}"
    else DumpField(fields[0]) + (if |fields| == 1 then "}" else ", " + DumpFields(fields[1..]))
  }

  function DumpField(f: (string, Json)): string
    decreases f, 0
  {
    Quote(f.0) + ": " + Dump(f.1)
  }

  // ---------------------------------------------------------------- reading

  predicate IsSpace(c: char) { c == ' ' || c == '\t' || c == '\n' || c == '\r' }

  function Skip(s: string): (r: string)
    ensures |r| <= |s|
  {
    if s != [] && IsSpace(s[0]) then Skip(s[1..]) else s
  }

  predicate StartsWith(s: string, c: char) { s != [] && s[0] == c }

  /** The number of four hexadecimal digits. */
  function HexNumber(s: string): (r: Option<nat>)
    requires |s| == 4
    ensures r.Some? ==> r.value <= 0xFFFF
  {
    match (HexValue(s[0]), HexValue(s[1]), HexValue(s[2]), HexValue(s[3]))
    case (Some(a), Some(b), Some(c), Some(d)) => Some(((a * 16 + b) * 16 + c) * 16 + d)
    case _ => None
  }

  predicate IsHigh(n: nat) { 0xD800 <= n <= 0xDBFF }

  predicate IsLow(n: nat) { 0xDC00 <= n <= 0xDFFF }

  /** The character of an escape by number, or by two of them, and its length; a lone surrogate is no character. */
  function NumberEscape(s: string): (r: Option<(char, nat)>)
    ensures r.Some? ==> 0 < r.value.1 <= |s|
  {
    if |s| < 6 || HexNumber(s[2..6]) == None then None
    else
      var n := HexNumber(s[2..6]).value;
      if !IsHigh(n) && !IsLow(n) then Some((n as char, 6))
      else if IsHigh(n) && |s| >= 12 && s[6] == '\\' && s[7] == 'u' && HexNumber(s[8..12]).Some? && IsLow(HexNumber(s[8..12]).value) then
        Some(((0x1_0000 + (n - 0xD800) * 0x400 + HexNumber(s[8..12]).value - 0xDC00) as char, 12))
      else None
  }

  function Unescaped(c: char): Option<char> {
    if c == '"' || c == '\\' || c == '/' then Some(c)
    else if c == 'b' then Some(8 as char)
    else if c == 'f' then Some(12 as char)
    else if c == 'n' then Some('\n')
    else if c == 'r' then Some('\r')
    else if c == 't' then Some('\t')
    else None
  }

  /** A string after its opening quote: the text, and what follows the closing quote. */
  function LoadString(s: string): (r: Option<(string, string)>)
    ensures r.Some? ==> |r.value.1| < |s|
    decreases |s|
  {
    if s == [] || s[0] < ' ' then None
    else if s[0] == '"' then Some(("", s[1..]))
    else if s[0] != '\\' then PutFront(s[0], LoadString(s[1..]))
    else if |s| < 2 then None
    else if s[1] == 'u' then
      if NumberEscape(s) == None then None
      else
        var (c, n) := NumberEscape(s).value;
        PutFront(c, LoadString(s[n..]))
    else if Unescaped(s[1]).None? then None
    else PutFront(Unescaped(s[1]).value, LoadString(s[2..]))
  }

  function PutFront(c: char, r: Option<(string, string)>): (q: Option<(string, string)>)
    ensures q.Some? <==> r.Some?
    ensures r.Some? ==> q.value == ([c] + r.value.0, r.value.1)
  {
    match r case None => None case Some((t, rest)) => Some(([c] + t, rest))
  }

  /** The longest prefix of number characters. */
  function NumberRun(s: string): (n: nat)
    ensures n <= |s|
  {
    if s != [] && NumberChar(s[0]) then 1 + NumberRun(s[1..]) else 0
  }

  function After(s: string, word: string): Option<string> {
    if word <= s then Some(s[|word|..]) else None
  }

  /** The value at the start of a text, and what follows it. */
  function LoadValue(s: string): (r: Option<(Json, string)>)
    ensures r.Some? ==> |r.value.1| < |s|
    decreases |s|, 0
  {
    if s == [] then None
    else if s[0] == '"' then
      match LoadString(s[1..]) case None => None case Some((t, rest)) => Some((Str(t), rest))
    else if s[0] == '[' then
      var body := Skip(s[1..]);
      if StartsWith(body, ']') then Some((Arr([]), body[1..]))
      else match LoadItems(body) case None => None case Some((items, rest)) => Some((Arr(items), rest))
    else if s[0] == '{' then
      var body := Skip(s[1..]);
      if StartsWith(body, '}') then Some((Obj([]), body[1..]))
      else match LoadFields(body) case None => None case Some((fields, rest)) => Some((Obj(Dict(fields)), rest))
    else if After(s, "null").Some? then Some((Null, After(s, "null").value))
    else if After(s, "true").Some? then Some((Bool(true), After(s, "true").value))
    else if After(s, "false").Some? then Some((Bool(false), After(s, "false").value))
    else
      var n := NumberRun(s);
      if n > 0 && IsNumber(s[..n]) then Some((Num(s[..n]), s[n..])) else None
  }

  /** A non-empty list of items, and what follows its closing bracket. */
  function LoadItems(s: string): (r: Option<(seq<Json>, string)>)
    ensures r.Some? ==> |r.value.1| < |s|
    decreases |s|, 1
  {
    match LoadValue(s) case None => None case Some((v, rest)) => ItemsAfter(v, rest)
  }

  function ItemsAfter(v: Json, rest: string): (r: Option<(seq<Json>, string)>)
    ensures r.Some? ==> |r.value.1| < |rest|
    decreases |rest|, 0
  {
    var next := Skip(rest);
    if StartsWith(next, ']') then Some(([v], next[1..]))
    else if !StartsWith(next, ',') then None
    else match LoadItems(Skip(next[1..])) case None => None case Some((items, end)) => Some(([v] + items, end))
  }

  /** A non-empty list of fields in the order of the text, and what follows its closing brace. */
  function LoadFields(s: string): (r: Option<(seq<(string, Json)>, string)>)
    ensures r.Some? ==> |r.value.1| < |s|
    decreases |s|, 1
  {
    match LoadField(s) case None => None case Some((f, rest)) => FieldsAfter(f, rest)
  }

  function LoadField(s: string): (r: Option<((string, Json), string)>)
    ensures r.Some? ==> |r.value.1| < |s|
    decreases |s|, 0
  {
    if !StartsWith(s, '"') then None
    else
      match LoadString(s[1..])
      case None => None
      case Some((key, colon)) =>
        if !StartsWith(Skip(colon), ':') then None
        else match LoadValue(Skip(Skip(colon)[1..])) case None => None case Some((v, rest)) => Some(((key, v), rest))
  }

  function FieldsAfter(f: (string, Json), rest: string): (r: Option<(seq<(string, Json)>, string)>)
    ensures r.Some? ==> |r.value.1| < |rest|
    decreases |rest|, 0
  {
    var next := Skip(rest);
    if StartsWith(next, '}') then Some(([f], next[1..]))
    else if !StartsWith(next, ',') then None
    else match LoadFields(Skip(next[1..])) case None => None case Some((fields, end)) => Some(([f] + fields, end))
  }

  /** `dict(pairs)`: a later pair replaces the value of an earlier one with its key. */
  function Dict(fields: seq<(string, Json)>): seq<(string, Json)> {
    if fields == [] then [] else Put(Dict(fields[..|fields| - 1]), fields[|fields| - 1])
  }

  function Put(fields: seq<(string, Json)>, f: (string, Json)): seq<(string, Json)> {
    if fields == [] then [f]
    else if fields[0].0 == f.0 then [f] + fields[1..]
    else [fields[0]] + Put(fields[1..], f)
  }

  function Loads(s: string): Option<Json> {
    match LoadValue(Skip(s)) case None => None case Some((v, rest)) => if Skip(rest) == "" then Some(v) else None
  }

  // ---------------------------------------------------------------- reading inverts writing

  predicate DistinctNames(fields: seq<(string, Json)>) {
    forall i, j | 0 <= i < j < |fields| :: fields[i].0 != fields[j].0
  }

  /** Values as Python holds them: numbers with a literal, dictionaries with distinct keys. */
  predicate WellFormed(v: Json)
    decreases v
  {
    match v
    case Num(literal) => IsNumber(literal)
    case Arr(items) => forall i | 0 <= i < |items| :: WellFormed(items[i])
    case Obj(fields) => DistinctNames(fields) && forall i | 0 <= i < |fields| :: WellFormed(fields[i].1)
    case _ => true
  }

  lemma {:induction false} PutNew(fields: seq<(string, Json)>, f: (string, Json))
    requires forall i :: 0 <= i < |fields| ==> fields[i].0 != f.0
    ensures Put(fields, f) == fields + [f]
  {
    if fields != [] {
      PutNew(fields[1..], f);
      assert [fields[0]] + (fields[1..] + [f]) == fields + [f];
    }
  }

  lemma {:induction false} DictOfDistinct(fields: seq<(string, Json)>)
    requires DistinctNames(fields)
    ensures Dict(fields) == fields
  {
    if fields != [] {
      var n := |fields| - 1;
      DictOfDistinct(fields[..n]);
      PutNew(fields[..n], fields[n]);
      assert fields[..n] + [fields[n]] == fields;
    }
  }

  lemma EscapedChar(c: char, rest: string)
    ensures LoadString(EscapeChar(c) + rest) == PutFront(c, LoadString(rest))
  {
    var e := EscapeChar(c);
    var s := e + rest;
    if |e| == 1 {
      assert s[1..] == rest;
    } else if |e| == 2 {
      assert s[0] == '\\' && s[1] == e[1] && s[2..] == rest;
    } else {
      assert s[..6] == e && s[6..] == rest && s[2..6] == e[2..6];
      assert s[1] == 'u';
      HexDigits(c as int / 16, c as int % 16);
      assert e[2..6] == "00" + [HexDigit(c as int / 16), HexDigit(c as int % 16)];
    }
  }

  lemma HexDigits(a: nat, b: nat)
    requires a < 16 && b < 16
    ensures HexNumber("00" + [HexDigit(a), HexDigit(b)]) == Some(a * 16 + b)
  {
    HexDigitValue(a);
    HexDigitValue(b);
    assert HexValue('0') == Some(0);
  }

  lemma HexDigitValue(a: nat)
    requires a < 16
    ensures HexValue(HexDigit(a)) == Some(a)
  {
    var digits := "0123456789abcdef";
    assert digits[0] == '0' && digits[1] == '1' && digits[2] == '2' && digits[3] == '3';
    assert digits[4] == '4' && digits[5] == '5' && digits[6] == '6' && digits[7] == '7';
    assert digits[8] == '8' && digits[9] == '9' && digits[10] == 'a' && digits[11] == 'b';
    assert digits[12] == 'c' && digits[13] == 'd' && digits[14] == 'e' && digits[15] == 'f';
  }

  lemma {:induction false} StringRoundTrip(s: string, rest: string)
    ensures LoadString(Escape(s) + ("\"" + rest)) == Some((s, rest))
  {
    if s == [] {
      assert Escape(s) + ("\"" + rest) == "\"" + rest;
      assert ("\"" + rest)[1..] == rest;
    } else {
      var later := Escape(s[1..]) + ("\"" + rest);
      EscapedChar(s[0], later);
      StringRoundTrip(s[1..], rest);
      Assoc(EscapeChar(s[0]), Escape(s[1..]), "\"" + rest);
      assert [s[0]] + s[1..] == s;
    }
  }

  lemma QuoteRoundTrip(s: string, rest: string)
    ensures StartsWith(Quote(s) + rest, '"') && LoadString((Quote(s) + rest)[1..]) == Some((s, rest))
  {
    StringRoundTrip(s, rest);
    assert (Quote(s) + rest)[1..] == Escape(s) + ("\"" + rest);
  }

  /** A text that cannot continue a number. */
  predicate Stops(rest: string) { rest == "" || !NumberChar(rest[0]) }

  lemma {:induction false} RunOfNumber(s: string, rest: string)
    requires All(s, NumberChar) && Stops(rest)
    ensures NumberRun(s + rest) == |s|
  {
    if s == [] {
      assert s + rest == rest;
    } else {
      assert (s + rest)[1..] == s[1..] + rest;
      RunOfNumber(s[1..], rest);
    }
  }

  lemma NumberRoundTrip(s: string, rest: string)
    requires IsNumber(s) && Stops(rest)
    ensures LoadValue(s + rest) == Some((Num(s), rest))
  {
    NumberChars(s);
    RunOfNumber(s, rest);
    assert (s + rest)[0] == s[0] && (s + rest)[..|s|] == s && (s + rest)[|s|..] == rest;
  }

  lemma WordRoundTrip(v: Json, rest: string)
    requires v.Null? || v.Bool?
    ensures LoadValue(Dump(v) + rest) == Some((v, rest))
  {
    var word := Dump(v);
    assert word <= word + rest && (word + rest)[|word|..] == rest;
    assert (word + rest)[0] == word[0];
  }

  /** The first character of a value is not a space. */
  lemma DumpStart(v: Json, rest: string)
    requires WellFormed(v)
    ensures var s := Dump(v) + rest; s != [] && !IsSpace(s[0]) && s[0] != ']' && s[0] != '}' && Skip(s) == s
  {
    if v.Num? { NumberChars(v.literal); }
    assert (Dump(v) + rest)[0] == Dump(v)[0];
  }

  lemma ReadArray(body: string, items: seq<Json>, rest: string)
    requires Skip(body) == body
    requires if items == [] then body == "]" + rest else !StartsWith(body, ']') && LoadItems(body) == Some((items, rest))
    ensures LoadValue("[" + body) == Some((Arr(items), rest))
  {
    assert ("[" + body)[1..] == body;
    if items == [] { assert body[1..] == rest; }
  }

  lemma ReadObject(body: string, fields: seq<(string, Json)>, rest: string)
    requires Skip(body) == body
    requires if fields == [] then body == "}" + rest else !StartsWith(body, '}') && LoadFields(body) == Some((fields, rest))
    ensures LoadValue("{" + body) == Some((Obj(Dict(fields)), rest))
  {
    assert ("{" + body)[1..] == body;
    if fields == [] { assert body[1..] == rest; }
  }

  lemma ReadItems(v: Json, more: string, items: seq<Json>, rest: string)
    ensures ItemsAfter(v, "]" + rest) == Some(([v], rest))
    ensures Skip(more) == more && LoadItems(more) == Some((items, rest)) ==> ItemsAfter(v, ", " + more) == Some(([v] + items, rest))
  {
    assert ("]" + rest)[1..] == rest;
    assert (", " + more)[1..] == " " + more && (" " + more)[1..] == more;
  }

  lemma ReadFields(f: (string, Json), more: string, fields: seq<(string, Json)>, rest: string)
    ensures FieldsAfter(f, "}" + rest) == Some(([f], rest))
    ensures Skip(more) == more && LoadFields(more) == Some((fields, rest)) ==> FieldsAfter(f, ", " + more) == Some(([f] + fields, rest))
  {
    assert ("}" + rest)[1..] == rest;
    assert (", " + more)[1..] == " " + more && (" " + more)[1..] == more;
  }

  lemma ItemsStep(s: string, v: Json, later: string)
    requires LoadValue(s) == Some((v, later))
    ensures LoadItems(s) == ItemsAfter(v, later)
  {
  }

  lemma FieldsStep(s: string, f: (string, Json), later: string)
    requires LoadField(s) == Some((f, later))
    ensures LoadFields(s) == FieldsAfter(f, later)
  {
  }

  /**
   Reading a written value gives it back and leaves what follows, for every value and every text that
   does not continue a number.
   */
  lemma {:induction false} ValueRoundTrip(v: Json, rest: string)
    requires WellFormed(v) && Stops(rest)
    ensures LoadValue(Dump(v) + rest) == Some((v, rest))
    decreases v, 0
  {
    match v {
      case Null => WordRoundTrip(v, rest);
      case Bool(_) => WordRoundTrip(v, rest);
      case Num(literal) => NumberRoundTrip(literal, rest);
      case Str(t) => QuoteRoundTrip(t, rest);
      case Arr(items) =>
        var body := DumpItems(items) + rest;
        assert Dump(v) + rest == "[" + body;
        if items != [] { ItemsRoundTrip(items, rest); }
        ReadArray(body, items, rest);
      case Obj(fields) =>
        var body := DumpFields(fields) + rest;
        assert Dump(v) + rest == "{" + body;
        if fields != [] { FieldsRoundTrip(fields, rest); }
        ReadObject(body, fields, rest);
        DictOfDistinct(fields);
    }
  }

  /** What follows the first of the items. */
  function AfterItem(items: seq<Json>, rest: string): string
    requires items != []
  {
    if |items| == 1 then "]" + rest else ", " + (DumpItems(items[1..]) + rest)
  }

  lemma ItemsText(items: seq<Json>, rest: string)
    requires items != []
    ensures DumpItems(items) + rest == Dump(items[0]) + AfterItem(items, rest)
    ensures Stops(AfterItem(items, rest))
  {
    var head := Dump(items[0]);
    if |items| == 1 {
      Assoc(head, "]", rest);
    } else {
      var more := DumpItems(items[1..]);
      Assoc(head, ", " + more, rest);
      Assoc(", ", more, rest);
    }
  }

  lemma ItemsRead(v: Json, tail: seq<Json>, more: string, rest: string)
    requires tail != [] ==> Skip(more) == more && LoadItems(more) == Some((tail, rest))
    ensures ItemsAfter(v, if tail == [] then "]" + rest else ", " + more) == Some(([v] + tail, rest))
  {
    ReadItems(v, more, tail, rest);
    assert tail == [] ==> [v] + tail == [v];
  }

  lemma {:induction false} ItemsRoundTrip(items: seq<Json>, rest: string)
    requires items != [] && forall i :: 0 <= i < |items| ==> WellFormed(items[i])
    ensures Skip(DumpItems(items) + rest) == DumpItems(items) + rest && !StartsWith(DumpItems(items) + rest, ']')
    ensures LoadItems(DumpItems(items) + rest) == Some((items, rest))
    decreases items, 1
  {
    var tail := items[1..];
    ItemsText(items, rest);
    DumpStart(items[0], AfterItem(items, rest));
    ValueRoundTrip(items[0], AfterItem(items, rest));
    if tail != [] { ItemsRoundTrip(tail, rest); }
    ItemsRead(items[0], tail, DumpItems(tail) + rest, rest);
    ItemsStep(DumpItems(items) + rest, items[0], AfterItem(items, rest));
    assert [items[0]] + tail == items;
  }

  /** What follows the first of the fields. */
  function AfterFirst(fields: seq<(string, Json)>, rest: string): string
    requires fields != []
  {
    if |fields| == 1 then "}" + rest else ", " + (DumpFields(fields[1..]) + rest)
  }

  lemma FieldsText(fields: seq<(string, Json)>, rest: string)
    requires fields != []
    ensures DumpFields(fields) + rest == DumpField(fields[0]) + AfterFirst(fields, rest)
    ensures Stops(AfterFirst(fields, rest))
  {
    var head := DumpField(fields[0]);
    if |fields| == 1 {
      Assoc(head, "}", rest);
    } else {
      var more := DumpFields(fields[1..]);
      Assoc(head, ", " + more, rest);
      Assoc(", ", more, rest);
    }
  }

  lemma FieldsRead(f: (string, Json), tail: seq<(string, Json)>, more: string, rest: string)
    requires tail != [] ==> Skip(more) == more && LoadFields(more) == Some((tail, rest))
    ensures FieldsAfter(f, if tail == [] then "}" + rest else ", " + more) == Some(([f] + tail, rest))
  {
    ReadFields(f, more, tail, rest);
    assert tail == [] ==> [f] + tail == [f];
  }

  lemma {:induction false} FieldsRoundTrip(fields: seq<(string, Json)>, rest: string)
    requires fields != [] && forall i :: 0 <= i < |fields| ==> WellFormed(fields[i].1)
    ensures Skip(DumpFields(fields) + rest) == DumpFields(fields) + rest && !StartsWith(DumpFields(fields) + rest, '}')
    ensures LoadFields(DumpFields(fields) + rest) == Some((fields, rest))
    decreases fields, 1
  {
    var tail := fields[1..];
    FieldsText(fields, rest);
    FieldRoundTrip(fields[0], AfterFirst(fields, rest));
    if tail != [] { FieldsRoundTrip(tail, rest); }
    FieldsRead(fields[0], tail, DumpFields(tail) + rest, rest);
    FieldsStep(DumpFields(fields) + rest, fields[0], AfterFirst(fields, rest));
    assert [fields[0]] + tail == fields;
  }

  lemma {:induction false} FieldRoundTrip(f: (string, Json), later: string)
    requires WellFormed(f.1) && Stops(later)
    ensures var s := DumpField(f) + later;
            Skip(s) == s && !StartsWith(s, '}') && LoadField(s) == Some((f, later))
    decreases f, 0
  {
    var s := DumpField(f) + later;
    var value := Dump(f.1) + later;
    var colon := ": " + value;
    Assoc(Quote(f.0) + ": ", Dump(f.1), later);
    Assoc(Quote(f.0), ": ", value);
    QuoteRoundTrip(f.0, colon);
    assert Skip(colon) == colon;
    assert colon[1..] == " " + value && colon[1..][1..] == value;
    DumpStart(f.1, later);
    ValueRoundTrip(f.1, later);
  }

  /** `json.loads` inverts `json.dumps` on every value. */
  lemma LoadsDump(v: Json)
    requires WellFormed(v)
    ensures Loads(Dump(v)) == Some(v)
  {
    ValueRoundTrip(v, "");
    DumpStart(v, "");
    assert Dump(v) + "" == Dump(v);
  }

  // ---------------------------------------------------------------- no control characters

  predicate Printable(c: char) { c >= ' ' }

  lemma {:induction false} EscapePrintable(s: string)
    ensures All(Escape(s), Printable)
  {
    if s != [] {
      EscapePrintable(s[1..]);
      var c := s[0];
      var a, b := c as int / 16 % 16, c as int % 16;
      HexDigitValue(a);
      HexDigitValue(b);
      assert All(EscapeChar(c), Printable);
    }
  }

  lemma QuotePrintable(s: string)
    ensures All(Quote(s), Printable)
  {
    EscapePrintable(s);
  }

  /** A written value has no control character, so no line break: strings escape theirs (section 7 of RFC 8259). */
  lemma {:induction false} DumpPrintable(v: Json)
    requires WellFormed(v)
    ensures All(Dump(v), Printable)
    decreases v, 0
  {
    match v {
      case Num(literal) => NumberChars(literal);
      case Str(s) => QuotePrintable(s);
      case Arr(items) => ItemsPrintable(items);
      case Obj(fields) => FieldsPrintable(fields);
      case _ =>
    }
  }

  lemma {:induction false} ItemsPrintable(items: seq<Json>)
    requires forall i :: 0 <= i < |items| ==> WellFormed(items[i])
    ensures All(DumpItems(items), Printable)
    decreases items, 1
  {
    if items != [] {
      DumpPrintable(items[0]);
      ItemsPrintable(items[1..]);
    }
  }

  lemma {:induction false} FieldsPrintable(fields: seq<(string, Json)>)
    requires forall i :: 0 <= i < |fields| ==> WellFormed(fields[i].1)
    ensures All(DumpFields(fields), Printable)
    decreases fields, 1
  {
    if fields != [] {
      FieldPrintable(fields[0]);
      FieldsPrintable(fields[1..]);
    }
  }

  lemma {:induction false} FieldPrintable(f: (string, Json))
    requires WellFormed(f.1)
    ensures All(DumpField(f), Printable)
    decreases f, 0
  {
    QuotePrintable(f.0);
    DumpPrintable(f.1);
  }
}
