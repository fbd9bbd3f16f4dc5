/** What percent-decoding reads, from the text alone: escaped characters and broken ones (deploy/bin/ops_helper.py). */
module UrlExact {
  import opened Results
  import opened Texts
  import opened Utf8
  import opened UrlPath

  // ---------------------------------------------------------------- characters that were escaped

  function HexDigit(n: int, upper: bool): (c: char)
    requires 0 <= n < 16
    ensures HexValue(c) == Some(n)
  {
    (if upper then "0123456789ABCDEF" else "0123456789abcdef")[n]
  }

  function Escape(b: Byte, upper: bool): string { ['%', HexDigit(b / 16, upper), HexDigit(b % 16, upper)] }

  function EscapeAll(bytes: seq<Byte>, upper: bool): string {
    if bytes == [] then "" else Escape(bytes[0], upper) + EscapeAll(bytes[1..], upper)
  }

  /** A text with each character kept or written as the escapes of its UTF-8 bytes. */
  function Quoted(t: string, keep: seq<bool>, upper: bool): string
    requires |keep| == |t|
  {
    if t == "" then ""
    else (if keep[0] then [t[0]] else EscapeAll(EncodeChar(t[0]), upper)) + Quoted(t[1..], keep[1..], upper)
  }

  lemma EscapeIsRead(b: Byte, upper: bool, s: string)
    ensures EscapeAt(Escape(b, upper) + s) == Some(b) && (Escape(b, upper) + s)[3..] == s
  {
    var e := Escape(b, upper) + s;
    assert e[0] == '%' && e[1] == HexDigit(b / 16, upper) && e[2] == HexDigit(b % 16, upper);
  }

  lemma EscapeStep(p: Pending, b: Byte, upper: bool, s: string)
    ensures UnquoteFrom(p, Escape(b, upper) + s) == FeedReplacing(p, b).0 + UnquoteFrom(FeedReplacing(p, b).1, s)
  {
    EscapeIsRead(b, upper, s);
  }

  lemma FedByte(p: Pending, bytes: seq<Byte>)
    requires bytes != [] && FeedAll(p, bytes).Some?
    ensures var (t, q) := FeedReplacing(p, bytes[0]);
      && FeedAll(q, bytes[1..]).Some?
      && FeedAll(p, bytes).value == (t + FeedAll(q, bytes[1..]).value.0, FeedAll(q, bytes[1..]).value.1)
  {
    if Feed(p, bytes[0]).More? {
      var r := FeedAll(Feed(p, bytes[0]).pending, bytes[1..]);
      assert r.Some? ==> "" + r.value.0 == r.value.0;
    }
  }

  /** Escaped bytes are read as the decoder reads the bytes themselves. */
  lemma {:induction false} EscapesAreRead(p: Pending, bytes: seq<Byte>, upper: bool, s: string)
    requires FeedAll(p, bytes).Some?
    ensures var (t, q) := FeedAll(p, bytes).value; UnquoteFrom(p, EscapeAll(bytes, upper) + s) == t + UnquoteFrom(q, s)
    decreases |bytes|
  {
    if bytes == [] {
      assert EscapeAll(bytes, upper) + s == s;
    } else {
      var rest := EscapeAll(bytes[1..], upper) + s;
      assert EscapeAll(bytes, upper) + s == Escape(bytes[0], upper) + rest;
      EscapeStep(p, bytes[0], upper, rest);
      var (t, q) := FeedReplacing(p, bytes[0]);
      FedByte(p, bytes);
      EscapesAreRead(q, bytes[1..], upper, s);
      var (u, r) := FeedAll(q, bytes[1..]).value;
      Assoc(t, u, UnquoteFrom(r, s));
    }
  }

  lemma EscapedCharacter(c: char, upper: bool, s: string)
    ensures Unquote(EscapeAll(EncodeChar(c), upper) + s) == [c] + Unquote(s)
  {
    CharRoundTrip(c, []);
    assert EncodeChar(c) + [] == EncodeChar(c);
    EscapesAreRead(Start, EncodeChar(c), upper, s);
  }

  lemma KeptCharacter(c: char, s: string)
    requires c != '%'
    ensures Unquote([c] + s) == [c] + Unquote(s)
  {
    assert ([c] + s)[1..] == s;
  }

  /** Every text is read back from every way to escape some of its characters, the percent signs among them. */
  lemma {:induction false} QuotedReadsBack(t: string, keep: seq<bool>, upper: bool)
    requires |keep| == |t| && forall i :: 0 <= i < |t| && keep[i] ==> t[i] != '%'
    ensures Unquote(Quoted(t, keep, upper)) == t
  {
    if t != "" {
      QuotedReadsBack(t[1..], keep[1..], upper);
      var rest := Quoted(t[1..], keep[1..], upper);
      if keep[0] { KeptCharacter(t[0], rest); } else { EscapedCharacter(t[0], upper, rest); }
      assert [t[0]] + t[1..] == t;
    }
  }

  // ---------------------------------------------------------------- bytes that are no character

  /** The next byte that a text gives to the decoder: that of an escape or of an ASCII character. */
  function NextByte(s: string): Option<Byte> {
    if EscapeAt(s).Some? then EscapeAt(s) else if s != "" && s[0] as int < 0x80 then Some(s[0] as int) else None
  }

  /** An escape of a byte that begins no character is one replacement character. */
  lemma StrayByte(b: Byte, upper: bool, s: string)
    requires 0x80 <= b <= 0xC1 || 0xF5 <= b
    ensures Unquote(Escape(b, upper) + s) == [REPLACEMENT] + Unquote(s)
  {
    EscapeIsRead(b, upper, s);
  }

  lemma BrokenOff(p: Pending, s: string)
    requires p.Need? && (NextByte(s).Some? ==> Feed(p, NextByte(s).value).Bad?)
    ensures UnquoteFrom(p, s) == [REPLACEMENT] + Unquote(s)
  {
    if NextByte(s).Some? {
      var b := NextByte(s).value;
      var (t, q) := FeedReplacing(Start, b);
      assert [REPLACEMENT] + "" == [REPLACEMENT] && [REPLACEMENT] + [REPLACEMENT] == [REPLACEMENT, REPLACEMENT];
      if First(b).Char? { assert [REPLACEMENT] + [First(b).c] == [REPLACEMENT, First(b).c]; }
      assert FeedReplacing(p, b) == ([REPLACEMENT] + t, q);
      var k := if EscapeAt(s).Some? then 3 else 1;
      Assoc([REPLACEMENT], t, UnquoteFrom(q, s[k..]));
    }
  }

  /** Bytes that leave nothing pending have given a character. */
  lemma {:induction false} SomethingRead(p: Pending, bytes: seq<Byte>)
    requires bytes != [] && FeedAll(p, bytes).Some? && FeedAll(p, bytes).value.1 == Start
    ensures FeedAll(p, bytes).value.0 != ""
    decreases |bytes|
  {
    var step := Feed(p, bytes[0]);
    if step.More? { SomethingRead(step.pending, bytes[1..]); }
  }

  lemma UnfinishedPending(c: char, k: nat) returns (p: Pending)
    requires 0 < k < |EncodeChar(c)|
    ensures FeedAll(Start, EncodeChar(c)[..k]) == Some(("", p)) && p.Need?
  {
    var e := EncodeChar(c);
    CharRoundTrip(c, []);
    assert e + [] == e && e[..k] + e[k..] == e;
    FeedAllConcat(Start, e[..k], e[k..]);
    var (t, q) := FeedAll(Start, e[..k]).value;
    p := q;
    SomethingRead(q, e[k..]);
    assert FeedAll(Start, e).value.0 == [c] && FeedAll(Start, e).value.0 == t + FeedAll(q, e[k..]).value.0;
    if q == Start { SomethingRead(Start, e[..k]); }
  }

  /**
   The bytes of an unfinished character that the text does not go on with are one replacement character
   together, and reading goes on with what broke them off.
   */
  lemma UnfinishedCharacter(c: char, k: nat, upper: bool, s: string)
    requires 0 < k < |EncodeChar(c)|
    requires NextByte(s).Some? ==> FeedAll(Start, EncodeChar(c)[..k] + [NextByte(s).value]).None?
    ensures Unquote(EscapeAll(EncodeChar(c)[..k], upper) + s) == [REPLACEMENT] + Unquote(s)
  {
    var bytes := EncodeChar(c)[..k];
    var p := UnfinishedPending(c, k);
    EscapesAreRead(Start, bytes, upper, s);
    assert "" + UnquoteFrom(p, s) == UnquoteFrom(p, s);
    if NextByte(s).Some? {
      FeedAllConcat(Start, bytes, [NextByte(s).value]);
      OneByte(p, NextByte(s).value, []);
      assert [NextByte(s).value] + [] == [NextByte(s).value];
    }
    BrokenOff(p, s);
  }

  // ---------------------------------------------------------------- slashes and dot segments

  /** Trimming takes off slashes at the end, and all of them. */
  lemma {:induction false} TrimmedSlashes(s: string) returns (n: nat)
    ensures s == TrimSlashes(s) + seq(n, _ => '/')
    ensures TrimSlashes(s) == "" || TrimSlashes(s)[|TrimSlashes(s)| - 1] != '/'
  {
    if s != "" && s[|s| - 1] == '/' {
      var m := TrimmedSlashes(s[..|s| - 1]);
      n := m + 1;
      assert s == s[..|s| - 1] + ['/'];
      assert seq(m, _ => '/') + ['/'] == seq(n, _ => '/');
    } else {
      n := 0;
    }
  }

  lemma {:induction false} DropShortens(output: string)
    ensures |DropLastSegment(output)| <= |output|
  {
    if output != "" && output[|output| - 1] != '/' { DropShortens(output[..|output| - 1]); }
  }

  /** A text whose first segment is no dot segment. */
  lemma NoRuleStep(s: string, output: string)
    requires s != "" && !DotRule(s)
    ensures RemoveDots(s, output) == RemoveDots(s[Leading(s)..], output + s[..Leading(s)])
  {
  }

  /** Removal never makes a text longer, and a rule at its start makes it shorter. */
  lemma {:induction false} RemovalShortens(s: string, output: string)
    ensures |RemoveDots(s, output)| <= |s| + |output| - (if DotRule(s) then 1 else 0)
    decreases |s|
  {
    DropShortens(output);
    if s == "" || s == "." || s == ".." {
    } else if "../" <= s { RemovalShortens(s[3..], output);
    } else if "./" <= s || "/./" <= s { RemovalShortens(s[2..], output);
    } else if s == "/." { RemovalShortens("/", output);
    } else if "/../" <= s { RemovalShortens(s[3..], DropLastSegment(output));
    } else if s == "/.." { RemovalShortens("/", DropLastSegment(output));
    } else {
      NoRuleStep(s, output);
      RemovalShortens(s[Leading(s)..], output + s[..Leading(s)]);
    }
  }

  /** The first segment, without a slash before it. */
  function FirstWord(s: string): (word: string)
    requires s != ""
    ensures '/' !in word
    ensures s[..Leading(s)] == (if s[0] == '/' then "/" + word else word)
  {
    if s[0] == '/' then
      assert s[1..Leading(s)] == s[1..][..Find(s[1..], '/')];
      s[1..Leading(s)]
    else s[..Leading(s)]
  }

  lemma FirstIsNoDot(s: string)
    requires s != "" && !DotRule(s)
    ensures FirstWord(s) != "." && FirstWord(s) != ".."
  {
    var k := Leading(s);
    if k < |s| { assert s[..k] + ['/'] == s[..k + 1] && s[..k + 1] <= s; } else { assert s[..k] == s; }
    assert "/" + "." == "/." && "/" + ".." == "/.." && "." + ['/'] == "./" && ".." + ['/'] == "../";
    assert "/." + ['/'] == "/./" && "/.." + ['/'] == "/../";
  }

  lemma OnlySegment(s: string)
    requires s != "" && Leading(s) == |s|
    ensures Split(s, '/') == if s[0] == '/' then ["", FirstWord(s)] else [FirstWord(s)]
  {
    SplitNothing(FirstWord(s), '/');
    assert s[..|s|] == s;
    SlashFirst(FirstWord(s));
  }

  lemma CutFirst(s: string)
    requires s != "" && Leading(s) < |s|
    ensures var text := FirstWord(s) + ['/'] + s[Leading(s) + 1..]; s == if s[0] == '/' then "/" + text else text
  {
    var k, front := Leading(s), s[..Leading(s)];
    assert s[k..] == ['/'] + s[k + 1..] && s == front + s[k..];
    if s[0] == '/' { assert front == "/" + FirstWord(s); } else { assert front == FirstWord(s); }
  }

  lemma SplitCut(word: string, rest: string)
    requires '/' !in word
    ensures Split(word + ['/'] + rest, '/') == [word] + Split(rest, '/')
  {
    SplitNothing(word, '/');
    SplitAt(word, '/', rest);
  }

  lemma MoreSegments(s: string)
    requires s != "" && Leading(s) < |s|
    ensures var more := [FirstWord(s)] + Split(s[Leading(s) + 1..], '/');
      Split(s, '/') == if s[0] == '/' then [""] + more else more
  {
    var rest := s[Leading(s) + 1..];
    CutFirst(s);
    SplitCut(FirstWord(s), rest);
    SlashFirst(FirstWord(s) + ['/'] + rest);
  }

  /** The segments of a text are those of the rest after the first one, and the first one. */
  lemma SplitFirst(s: string, word: string)
    requires s != "" && word in Split(s, '/')
    ensures word == "" || word == FirstWord(s) || word in Split(s[Leading(s)..], '/')
  {
    var k := Leading(s);
    if k == |s| {
      OnlySegment(s);
    } else {
      MoreSegments(s);
      SlashFirst(s[k + 1..]);
      assert s[k..] == "/" + s[k + 1..];
    }
  }

  lemma {:induction false} DotsShorten(s: string, output: string)
    requires !DotFree(Split(s, '/'))
    ensures |RemoveDots(s, output)| < |s| + |output|
    decreases |s|
  {
    RemovalShortens(s, output);
    if s == "" {
      SplitNothing(s, '/');
    } else if !DotRule(s) {
      NoRuleStep(s, output);
      var k := Leading(s);
      FirstIsNoDot(s);
      SplitFirst(s, if "." in Split(s, '/') then "." else "..");
      DotsShorten(s[k..], output + s[..k]);
    }
  }

  /** The check for dot segments finds a text exactly when removing dot segments would change it. */
  lemma DotFreeIffFixed(s: string)
    ensures DotFree(Split(s, '/')) <==> RemoveDots(s, "") == s
  {
    if DotFree(Split(s, '/')) {
      RemoveDotsUnchanged(s, "");
      assert "" + s == s;
    } else {
      DotsShorten(s, "");
    }
  }
}
