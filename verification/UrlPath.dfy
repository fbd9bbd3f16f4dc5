/** Percent-decoding of media paths to a fixpoint (deploy/bin/ops_helper.py; RFC 3986, sections 2.1 and 5.2.4). */
module UrlPath {
  import opened Results
  import opened Texts
  import opened Utf8

  // ---------------------------------------------------------------- one pass of unquote

  /** The byte of an escape at the start of a text. */
  function EscapeAt(s: string): Option<Byte> {
    if |s| < 3 || s[0] != '%' || HexValue(s[1]).None? || HexValue(s[2]).None? then None
    else Some(HexValue(s[1]).value * 16 + HexValue(s[2]).value)
  }

  predicate HasEscape(s: string) {
    s != "" && (EscapeAt(s).Some? || HasEscape(s[1..]))
  }

  const REPLACEMENT: char := '\U{FFFD}'

  /** What an unfinished character decodes to when it is broken off. */
  function Flush(p: Pending): string { if p.Start? then "" else [REPLACEMENT] }

  /** `bytes.decode("utf-8", "replace")`, one byte: the text it yields and the state after it. */
  function FeedReplacing(p: Pending, b: Byte): (string, Pending) {
    var step := Feed(p, b);
    if step.Char? then ([step.c], Start)
    else if step.More? then ("", step.pending)
    else if p.Start? then ([REPLACEMENT], Start)
    else
      var again := First(b);
      if again.Char? then ([REPLACEMENT, again.c], Start)
      else if again.More? then ([REPLACEMENT], again.pending)
      else ([REPLACEMENT, REPLACEMENT], Start)
  }

  /** `urllib.parse.unquote` from a position on, inside a run of ASCII characters with pending bytes. */
  function UnquoteFrom(p: Pending, s: string): string
    decreases |s|
  {
    if s == "" then Flush(p)
    else if EscapeAt(s).Some? then
      var (t, q) := FeedReplacing(p, EscapeAt(s).value);
      t + UnquoteFrom(q, s[3..])
    else if s[0] as int < 0x80 then
      var (t, q) := FeedReplacing(p, s[0] as int);
      t + UnquoteFrom(q, s[1..])
    else Flush(p) + [s[0]] + UnquoteFrom(Start, s[1..])
  }

  function Unquote(s: string): string { UnquoteFrom(Start, s) }

  // ---------------------------------------------------------------- passes shorten

  function Credit(p: Pending): nat { if p.Start? then 0 else 1 }

  lemma FeedReplacingLength(p: Pending, b: Byte)
    ensures |FeedReplacing(p, b).0| + Credit(FeedReplacing(p, b).1) <= Credit(p) + 1
  {
  }

  lemma {:induction false} UnquoteLength(p: Pending, s: string)
    ensures |UnquoteFrom(p, s)| <= |s| + Credit(p)
    ensures HasEscape(s) ==> |UnquoteFrom(p, s)| <= |s| + Credit(p) - 2
    decreases |s|
  {
    if s != "" {
      if EscapeAt(s).Some? {
        FeedReplacingLength(p, EscapeAt(s).value);
        UnquoteLength(FeedReplacing(p, EscapeAt(s).value).1, s[3..]);
      } else if s[0] as int < 0x80 {
        FeedReplacingLength(p, s[0] as int);
        UnquoteLength(FeedReplacing(p, s[0] as int).1, s[1..]);
      } else {
        UnquoteLength(Start, s[1..]);
      }
    }
  }

  lemma {:induction false} UnquoteWithoutEscape(s: string)
    requires !HasEscape(s)
    ensures Unquote(s) == s
    decreases |s|
  {
    if s != "" {
      UnquoteWithoutEscape(s[1..]);
      assert [s[0]] + s[1..] == s;
    }
  }

  /** A pass changes a text exactly when it has an escape, and then makes it at least two characters shorter. */
  lemma PassShortens(s: string)
    ensures Unquote(s) == s <==> !HasEscape(s)
    ensures Unquote(s) != s ==> |Unquote(s)| <= |s| - 2
  {
    UnquoteLength(Start, s);
    if !HasEscape(s) { UnquoteWithoutEscape(s); }
  }

  // ---------------------------------------------------------------- the fixpoint

  function FullyDecoded(s: string): string
    decreases |s|
  {
    PassShortens(s);
    if Unquote(s) == s then s else FullyDecoded(Unquote(s))
  }

  predicate DotFree(segments: seq<string>) { "." !in segments && ".." !in segments }

  /** `decoded_url_path_segments`: at most len + 1 passes, and then the dot check; None when it refuses. */
  method DecodedSegments(path: string) returns (r: Option<seq<string>>)
    ensures var segments := Split(FullyDecoded(path), '/');
            r == if DotFree(segments) then Some(segments) else None
    ensures !HasEscape(FullyDecoded(path))
  {
    var decoded := path;
    var i := 0;
    var done := false;
    while i < |path| + 1 && !done
      invariant 0 <= i <= |path| + 1
      invariant FullyDecoded(decoded) == FullyDecoded(path)
      invariant done ==> Unquote(decoded) == decoded
      invariant !done ==> |decoded| + i <= |path|
    {
      var next := Unquote(decoded);
      PassShortens(decoded);
      if next == decoded { done := true; } else { decoded := next; }
      i := i + 1;
    }
    PassShortens(decoded);
    var segments := Split(decoded, '/');
    r := if "." in segments || ".." in segments then None else Some(segments);
  }

  /** Decoding ends at a text that decoding does not change and that has no escape left. */
  lemma {:induction false} FullyDecodedIsFixed(s: string)
    ensures Unquote(FullyDecoded(s)) == FullyDecoded(s) && !HasEscape(FullyDecoded(s))
    ensures |FullyDecoded(s)| <= |s|
    decreases |s|
  {
    PassShortens(s);
    if Unquote(s) != s { FullyDecodedIsFixed(Unquote(s)); }
  }

  // ---------------------------------------------------------------- slashes stay boundaries

  lemma Regroup(t: string, x: string, y: string)
    ensures t + (x + "/" + y) == t + x + "/" + y
  {
  }

  lemma EscapeBeforeSlash(a: string, b: string)
    requires a != ""
    ensures EscapeAt(a + "/" + b) == EscapeAt(a)
  {
    var s := a + "/" + b;
    assert s[0] == a[0];
    assert |a| >= 2 ==> s[1] == a[1];
    assert |a| >= 3 ==> s[2] == a[2];
    assert |a| == 1 ==> s[1] == '/';
    assert |a| == 2 ==> s[2] == '/';
    assert HexValue('/').None?;
  }

  lemma TailBeforeSlash(a: string, k: nat, b: string)
    requires k <= |a|
    ensures (a + "/" + b)[k..] == a[k..] + "/" + b
  {
  }

  /** What one step of unquoting does: the text it yields, the state after it, and what it consumes. */
  function Step(p: Pending, s: string): (string, Pending, nat)
    requires s != ""
    ensures 1 <= Step(p, s).2 <= |s|
  {
    if EscapeAt(s).Some? then
      var (t, q) := FeedReplacing(p, EscapeAt(s).value); (t, q, 3)
    else if s[0] as int < 0x80 then
      var (t, q) := FeedReplacing(p, s[0] as int); (t, q, 1)
    else (Flush(p) + [s[0]], Start, 1)
  }

  lemma UnquoteStep(p: Pending, s: string)
    requires s != ""
    ensures UnquoteFrom(p, s) == Step(p, s).0 + UnquoteFrom(Step(p, s).1, s[Step(p, s).2..])
  {
  }

  lemma SlashStep(p: Pending, b: string)
    ensures UnquoteFrom(p, "/" + b) == Flush(p) + "/" + Unquote(b)
  {
    assert ("/" + b)[1..] == b;
    UnquoteStep(p, "/" + b);
    assert First(0x2F) == Char('/');
    assert p.Start? || Feed(p, 0x2F).Bad?;
    assert Flush(p) + "/" == if p.Start? then ['/'] else [REPLACEMENT, '/'];
    assert FeedReplacing(p, 0x2F) == (Flush(p) + "/", Start);
  }

  lemma {:induction false} UnquoteAtSlash(p: Pending, a: string, b: string)
    ensures UnquoteFrom(p, a + "/" + b) == UnquoteFrom(p, a) + "/" + Unquote(b)
    decreases |a|
  {
    if a == "" {
      SlashStep(p, b);
      assert a + "/" + b == "/" + b;
    } else {
      var (t, q, k) := Step(p, a);
      EscapeBeforeSlash(a, b);
      assert Step(p, a + "/" + b) == (t, q, k);
      UnquoteStep(p, a + "/" + b);
      UnquoteStep(p, a);
      TailBeforeSlash(a, k, b);
      UnquoteAtSlash(q, a[k..], b);
      Regroup(t, UnquoteFrom(q, a[k..]), Unquote(b));
    }
  }

  /** A dot segment cannot be hidden from the check: every pass keeps the ones that are there. */
  lemma {:induction false} PassKeepsDotSegments(s: string, dot: string)
    requires dot == "." || dot == ".."
    requires dot in Split(s, '/')
    ensures dot in Split(Unquote(s), '/')
    decreases |s|
  {
    var i := Find(s, '/');
    if i == |s| {
      SplitNothing(s, '/');
      assert s == dot;
      assert !HasEscape(dot[1..]);
      UnquoteWithoutEscape(s);
    } else {
      var a, b := s[..i], s[i + 1..];
      assert s == a + ['/'] + b && s == a + "/" + b;
      SplitAt(a, '/', b);
      SplitNothing(a, '/');
      UnquoteAtSlash(Start, a, b);
      SplitAt(Unquote(a), '/', Unquote(b));
      assert Unquote(a) + ['/'] + Unquote(b) == Unquote(a) + "/" + Unquote(b);
      if dot == a {
        assert !HasEscape(dot[1..]);
        UnquoteWithoutEscape(a);
        assert dot in Split(Unquote(a), '/');
      } else {
        PassKeepsDotSegments(b, dot);
      }
    }
  }

  lemma {:induction false} DecodedDotFree(s: string)
    requires DotFree(Split(FullyDecoded(s), '/'))
    ensures DotFree(Split(s, '/'))
    decreases |s|
  {
    PassShortens(s);
    if Unquote(s) != s {
      DecodedDotFree(Unquote(s));
      if "." in Split(s, '/') { PassKeepsDotSegments(s, "."); }
      if ".." in Split(s, '/') { PassKeepsDotSegments(s, ".."); }
    }
  }

  // ---------------------------------------------------------------- remove_dot_segments

  function DropLastSegment(output: string): string {
    if output == "" then "" else if output[|output| - 1] == '/' then output[..|output| - 1] else DropLastSegment(output[..|output| - 1])
  }

  /** Section 5.2.4 of RFC 3986. */
  function RemoveDots(input: string, output: string): string
    decreases |input|
  {
    if input == "" then output
    else if "../" <= input then RemoveDots(input[3..], output)
    else if "./" <= input then RemoveDots(input[2..], output)
    else if "/./" <= input then RemoveDots(input[2..], output)
    else if input == "/." then RemoveDots("/", output)
    else if "/../" <= input then RemoveDots(input[3..], DropLastSegment(output))
    else if input == "/.." then RemoveDots("/", DropLastSegment(output))
    else if input == "." || input == ".." then output
    else
      var k := if input[0] == '/' then 1 + Find(input[1..], '/') else Find(input, '/');
      RemoveDots(input[k..], output + input[..k])
  }

  lemma SlashFirst(s: string)
    ensures Split("/" + s, '/') == [""] + Split(s, '/')
  {
    assert ("/" + s)[1..] == s;
  }

  lemma LeadingSegment(s: string, word: string)
    requires '/' !in word
    ensures word + "/" <= s || s == word ==> word in Split(s, '/')
  {
    SplitNothing(word, '/');
    if word + "/" <= s {
      SplitAt(word, '/', s[|word| + 1..]);
      assert s == word + ['/'] + s[|word| + 1..];
    }
  }

  lemma SecondSegment(s: string, word: string)
    requires '/' !in word
    ensures "/" + word + "/" <= s || s == "/" + word ==> word in Split(s, '/')
  {
    if "/" + word + "/" <= s || s == "/" + word {
      var t := s[1..];
      assert s[0] == '/' && s == "/" + t;
      SlashFirst(t);
      assert "/" + word + "/" <= s ==> word + "/" <= t;
      LeadingSegment(t, word);
    }
  }

  /** A rule for dot segments applies at the start of the text. */
  predicate DotRule(s: string) {
    "../" <= s || "./" <= s || "/./" <= s || s == "/." || "/../" <= s || s == "/.." || s == "." || s == ".."
  }

  /** None of the rules applies to a text without dot segments. */
  lemma NoDotRule(s: string)
    requires DotFree(Split(s, '/'))
    ensures !DotRule(s)
  {
    LeadingSegment(s, ".");
    LeadingSegment(s, "..");
    SecondSegment(s, ".");
    SecondSegment(s, "..");
    assert "." + "/" == "./" && ".." + "/" == "../";
    assert "/" + "." + "/" == "/./" && "/" + ".." + "/" == "/../" && "/" + "." == "/." && "/" + ".." == "/..";
  }

  /** Length of the first segment, with the slash before it. */
  function Leading(s: string): (k: nat)
    requires s != ""
    ensures 1 <= k <= |s| && (k < |s| ==> s[k] == '/')
  {
    if s[0] == '/' then 1 + Find(s[1..], '/') else Find(s, '/')
  }

  lemma NoDotStep(s: string, output: string)
    requires s != "" && DotFree(Split(s, '/'))
    ensures RemoveDots(s, output) == RemoveDots(s[Leading(s)..], output + s[..Leading(s)])
  {
    NoDotRule(s);
  }

  lemma NoDotTail(s: string)
    requires s != "" && DotFree(Split(s, '/'))
    ensures DotFree(Split(s[Leading(s)..], '/'))
  {
    var k := Leading(s);
    if k == |s| {
      SplitNothing("", '/');
    } else {
      SplitAt(s[..k], '/', s[k + 1..]);
      assert s == s[..k] + ['/'] + s[k + 1..];
      SlashFirst(s[k + 1..]);
      assert s[k..] == "/" + s[k + 1..];
    }
  }

  lemma CutAndJoin(output: string, s: string, k: nat)
    requires k <= |s|
    ensures output + s[..k] + s[k..] == output + s
  {
    assert s[..k] + s[k..] == s;
  }

  lemma {:induction false} RemoveDotsUnchanged(s: string, output: string)
    requires DotFree(Split(s, '/'))
    ensures RemoveDots(s, output) == output + s
    decreases |s|
  {
    if s == "" {
      assert output + s == output;
    } else {
      var k := Leading(s);
      NoDotStep(s, output);
      NoDotTail(s);
      RemoveDotsUnchanged(s[k..], output + s[..k]);
      CutAndJoin(output, s, k);
    }
  }

  // ---------------------------------------------------------------- the media check

  function TrimSlashes(s: string): string {
    if s != "" && s[|s| - 1] == '/' then TrimSlashes(s[..|s| - 1]) else s
  }

  /** `validate_media_path`: true when it accepts. */
  method ValidateMediaPath(base: string, candidate: string) returns (ok: bool)
    ensures ok == MediaPathAccepted(base, candidate)
  {
    var b := DecodedSegments(TrimSlashes(base));
    if b.None? { return false; }
    var c := DecodedSegments(candidate);
    if c.None? { return false; }
    ok := |c.value| > |b.value| && c.value[..|b.value|] == b.value;
  }

  predicate MediaPathAccepted(base: string, candidate: string) {
    var b, c := Split(FullyDecoded(TrimSlashes(base)), '/'), Split(FullyDecoded(candidate), '/');
    DotFree(b) && DotFree(c) && |c| > |b| && c[..|b|] == b
  }

  /**
   A path is accepted exactly when base and path decode to texts without dot segments and the decoded
   path lies below the decoded base.
   */
  lemma AcceptedIffBelow(base: string, candidate: string)
    ensures var b, c := FullyDecoded(TrimSlashes(base)), FullyDecoded(candidate);
            MediaPathAccepted(base, candidate) <==>
              DotFree(Split(b, '/')) && DotFree(Split(c, '/')) && exists rest :: c == b + "/" + rest
  {
    var b, c := FullyDecoded(TrimSlashes(base)), FullyDecoded(candidate);
    var bs, cs := Split(b, '/'), Split(c, '/');
    if MediaPathAccepted(base, candidate) {
      JoinSplit(b, '/');
      JoinSplit(c, '/');
      assert cs == bs + cs[|bs|..];
      JoinConcat(bs, cs[|bs|..], '/');
      assert c == b + "/" + Join(cs[|bs|..], '/');
    }
    if exists rest :: c == b + "/" + rest {
      var rest :| c == b + "/" + rest;
      SplitAt(b, '/', rest);
      assert b + "/" + rest == b + ['/'] + rest;
    }
  }

  /** Dot-segment removal changes neither an accepted path nor what it decodes to. */
  lemma AcceptedHasNoDots(base: string, candidate: string)
    requires MediaPathAccepted(base, candidate)
    ensures RemoveDots(candidate, "") == candidate
    ensures RemoveDots(FullyDecoded(candidate), "") == FullyDecoded(candidate)
  {
    DecodedDotFree(candidate);
    RemoveDotsUnchanged(candidate, "");
    RemoveDotsUnchanged(FullyDecoded(candidate), "");
    assert "" + candidate == candidate && "" + FullyDecoded(candidate) == FullyDecoded(candidate);
  }
}
