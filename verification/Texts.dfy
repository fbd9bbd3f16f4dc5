/** Python string operations used by several parts. */
module Texts {
  import opened Results

  lemma Assoc(a: string, b: string, c: string)
    ensures a + b + c == a + (b + c)
  {
  }

  /** `s.split(c)`. */
  function Split(s: string, c: char): (parts: seq<string>)
    ensures parts != []
    ensures forall i :: 0 <= i < |parts| ==> c !in parts[i]
  {
    if s == [] then [""]
    else
      var rest := Split(s[1..], c);
      if s[0] == c then [""] + rest else Extend(s[0], rest)
  }

  /** Put a character before the first part. */
  function Extend(x: char, parts: seq<string>): seq<string>
    requires parts != []
  {
    [[x] + parts[0]] + parts[1..]
  }

  function Join(parts: seq<string>, c: char): string {
    if parts == [] then "" else if |parts| == 1 then parts[0] else parts[0] + [c] + Join(parts[1..], c)
  }

  lemma SplitCons(x: char, s: string, c: char)
    ensures Split([x] + s, c) == PutBefore(x, c, Split(s, c))
  {
    assert ([x] + s)[1..] == s;
  }

  lemma ExtendConcat(x: char, a: seq<string>, b: seq<string>)
    requires a != []
    ensures Extend(x, a + b) == Extend(x, a) + b
  {
    assert (a + b)[1..] == a[1..] + b;
  }

  /** Put a character before the parts of a text. */
  function PutBefore(x: char, c: char, parts: seq<string>): seq<string>
    requires parts != []
  {
    if x == c then [""] + parts else Extend(x, parts)
  }

  lemma PutBeforeConcat(x: char, c: char, a: seq<string>, b: seq<string>)
    requires a != []
    ensures PutBefore(x, c, a + b) == PutBefore(x, c, a) + b
  {
    ExtendConcat(x, a, b);
    assert [""] + (a + b) == [""] + a + b;
  }

  /** Splitting at a separator that is put between two texts splits each of them. */
  lemma {:induction false} SplitAt(a: string, c: char, b: string)
    ensures Split(a + [c] + b, c) == Split(a, c) + Split(b, c)
  {
    if a == [] {
      SplitCons(c, b, c);
      assert a + [c] + b == [c] + b;
    } else {
      SplitAt(a[1..], c, b);
      SplitAtStep(a[0], a[1..], c, b);
      assert [a[0]] + a[1..] == a;
    }
  }

  lemma SplitAtStep(x: char, t: string, c: char, b: string)
    requires Split(t + [c] + b, c) == Split(t, c) + Split(b, c)
    ensures Split([x] + t + [c] + b, c) == Split([x] + t, c) + Split(b, c)
  {
    SplitCons(x, t + [c] + b, c);
    SplitCons(x, t, c);
    assert [x] + t + [c] + b == [x] + (t + [c] + b);
    PutBeforeConcat(x, c, Split(t, c), Split(b, c));
  }

  lemma {:induction false} SplitNothing(a: string, c: char)
    requires c !in a
    ensures Split(a, c) == [a]
  {
    if a != [] {
      SplitNothing(a[1..], c);
      assert [a[0]] + a[1..] == a;
    }
  }

  /** Joining undoes splitting. */
  lemma {:induction false} JoinSplit(s: string, c: char)
    ensures Join(Split(s, c), c) == s
  {
    if s != "" {
      var rest := Split(s[1..], c);
      JoinSplit(s[1..], c);
      assert s == [s[0]] + s[1..];
      if s[0] == c {
        assert ([""] + rest)[1..] == rest;
        assert Join([""] + rest, c) == "" + [c] + Join(rest, c);
      } else {
        JoinExtend(s[0], rest, c);
      }
    }
  }

  lemma JoinExtend(x: char, parts: seq<string>, c: char)
    requires parts != []
    ensures Join(Extend(x, parts), c) == [x] + Join(parts, c)
  {
    var e := Extend(x, parts);
    if |parts| == 1 {
      assert e == [[x] + parts[0]];
    } else {
      assert e[1..] == parts[1..];
      assert [x] + parts[0] + [c] + Join(parts[1..], c) == [x] + (parts[0] + [c] + Join(parts[1..], c));
    }
  }

  lemma {:induction false} JoinConcat(a: seq<string>, b: seq<string>, c: char)
    requires a != [] && b != []
    ensures Join(a + b, c) == Join(a, c) + [c] + Join(b, c)
  {
    if |a| == 1 {
      assert a + b == [a[0]] + b && ([a[0]] + b)[1..] == b;
    } else {
      assert (a + b)[0] == a[0] && (a + b)[1..] == a[1..] + b;
      JoinConcat(a[1..], b, c);
    }
  }

  /** Splitting undoes joining. */
  lemma {:induction false} SplitJoin(parts: seq<string>, c: char)
    requires parts != [] && forall i :: 0 <= i < |parts| ==> c !in parts[i]
    ensures Split(Join(parts, c), c) == parts
  {
    SplitNothing(parts[0], c);
    if |parts| > 1 {
      SplitJoin(parts[1..], c);
      SplitAt(parts[0], c, Join(parts[1..], c));
      assert parts == [parts[0]] + parts[1..];
    } else {
      assert parts == [parts[0]];
    }
  }

  /** `str.isspace` of one character. */
  predicate IsBlank(c: char) {
    var n := c as int;
    || 0x09 <= n <= 0x0D || 0x1C <= n <= 0x20 || n == 0x85 || n == 0xA0 || n == 0x1680
    || 0x2000 <= n <= 0x200A || n == 0x2028 || n == 0x2029 || n == 0x202F || n == 0x205F || n == 0x3000
  }

  predicate AllBlank(s: string) { forall i | 0 <= i < |s| :: IsBlank(s[i]) }

  predicate IsDigit(c: char) { '0' <= c <= '9' }

  /** The value of a hexadecimal digit. */
  function HexValue(c: char): (r: Option<nat>)
    ensures r.Some? ==> r.value < 16
  {
    if IsDigit(c) then Some(c as nat - '0' as nat)
    else if 'a' <= c <= 'f' then Some(c as nat - 'a' as nat + 10)
    else if 'A' <= c <= 'F' then Some(c as nat - 'A' as nat + 10)
    else None
  }

  /** Index of the first occurrence of a character, or the length. */
  function Find(s: string, c: char): (i: nat)
    ensures i <= |s| && (i < |s| ==> s[i] == c) && c !in s[..i]
  {
    if s == [] || s[0] == c then 0 else 1 + Find(s[1..], c)
  }

  lemma {:induction false} FindAfter(a: string, c: char, b: string)
    requires c !in a
    ensures Find(a + [c] + b, c) == |a|
  {
    if a != [] {
      assert (a + [c] + b)[1..] == a[1..] + [c] + b;
      FindAfter(a[1..], c, b);
    }
  }

  /** `.replace("\r\n", "\n").replace("\r", "\n")`. */
  function NormalizeBreaks(s: string): string
    decreases |s|
  {
    if s == "" then ""
    else if s[0] == '\r' then "\n" + NormalizeBreaks(if |s| > 1 && s[1] == '\n' then s[2..] else s[1..])
    else [s[0]] + NormalizeBreaks(s[1..])
  }

  lemma {:induction false} NormalizeNothing(s: string)
    requires '\r' !in s
    ensures NormalizeBreaks(s) == s
  {
    if s != "" {
      NormalizeNothing(s[1..]);
      assert [s[0]] + s[1..] == s;
    }
  }
}
