/** UTF-8 (section 3 of RFC 3629), with the incremental decoder of Python's codecs. */
module Utf8 {
  import opened Results

  function EncodeChar(c: char): seq<Byte> {
    var n := c as int;
    if n < 0x80 then [n]
    else if n < 0x800 then [0xC0 + n / 64, 0x80 + n % 64]
    else if n < 0x1_0000 then [0xE0 + n / 4096, 0x80 + n / 64 % 64, 0x80 + n % 64]
    else [0xF0 + n / 262144, 0x80 + n / 4096 % 64, 0x80 + n / 64 % 64, 0x80 + n % 64]
  }

  function Encode(s: string): seq<Byte> {
    if s == [] then [] else EncodeChar(s[0]) + Encode(s[1..])
  }

  /** Bytes of an unfinished character: how many are missing, the bits so far, the range of the next byte. */
  datatype PendingBytes = Start | Need(count: nat, bits: nat, low: int, high: int)

  /** Every completion of an unfinished character is a Unicode scalar value. */
  predicate Completable(p: PendingBytes) {
    p.Start? ||
    (1 <= p.count <= 3 && 0x80 <= p.low <= p.high <= 0xBF &&
     var unit := if p.count == 1 then 1 else if p.count == 2 then 64 else 4096;
     var least, greatest := (p.bits * 64 + p.low - 0x80) * unit, (p.bits * 64 + p.high - 0x80 + 1) * unit - 1;
     greatest < 0xD800 || (0xE000 <= least && greatest <= 0x10_FFFF))
  }

  type Pending = p: PendingBytes | Completable(p) witness Start

  datatype Step = More(pending: Pending) | Char(c: char) | Bad

  function First(b: Byte): Step {
    if b < 0x80 then Char(b as char)
    else if 0xC2 <= b <= 0xDF then More(Need(1, b - 0xC0, 0x80, 0xBF))
    else if b == 0xE0 then More(Need(2, 0, 0xA0, 0xBF))
    else if b == 0xED then More(Need(2, 0xD, 0x80, 0x9F))
    else if 0xE1 <= b <= 0xEF then More(Need(2, b - 0xE0, 0x80, 0xBF))
    else if b == 0xF0 then More(Need(3, 0, 0x90, 0xBF))
    else if 0xF1 <= b <= 0xF3 then More(Need(3, b - 0xF0, 0x80, 0xBF))
    else if b == 0xF4 then More(Need(3, 4, 0x80, 0x8F))
    else Bad
  }

  function Feed(p: Pending, b: Byte): Step {
    match p
    case Start => First(b)
    case Need(count, bits, low, high) =>
      if !(low <= b <= high) then Bad
      else
        var more := bits * 64 + b - 0x80;
        if count == 1 then Char(more as char) else More(Need(count - 1, more, 0x80, 0xBF))
  }

  /** Decode bytes from a pending state: the text, and what is left pending; None when they are invalid. */
  function FeedAll(p: Pending, bytes: seq<Byte>): Option<(string, Pending)>
    decreases |bytes|
  {
    if bytes == [] then Some(("", p))
    else
      var step := Feed(p, bytes[0]);
      if step.Bad? then None
      else if step.More? then FeedAll(step.pending, bytes[1..])
      else Prepend([step.c], FeedAll(Start, bytes[1..]))
  }

  function Prepend(s: string, r: Option<(string, Pending)>): Option<(string, Pending)> {
    match r case None => None case Some((t, p)) => Some((s + t, p))
  }

  /** The text of a complete byte string; None when it is not UTF-8. */
  function Decode(bytes: seq<Byte>): Option<string> {
    match FeedAll(Start, bytes) case Some((s, Start)) => Some(s) case _ => None
  }

  /** Continue a decoding that has produced a text and left bytes pending. */
  function Resume(r: Option<(string, Pending)>, bytes: seq<Byte>): Option<(string, Pending)> {
    match r case None => None case Some((s, p)) => Prepend(s, FeedAll(p, bytes))
  }

  lemma PrependTwice(a: string, b: string, r: Option<(string, Pending)>)
    ensures Prepend(a, Prepend(b, r)) == Prepend(a + b, r)
  {
    if r.Some? { assert a + (b + r.value.0) == a + b + r.value.0; }
  }

  lemma PrependNothing(r: Option<(string, Pending)>)
    ensures Prepend("", r) == r
  {
    if r.Some? { assert "" + r.value.0 == r.value.0; }
  }

  /** Decoding may stop and resume anywhere, even inside a character. */
  lemma {:induction false} FeedAllConcat(p: Pending, a: seq<Byte>, b: seq<Byte>)
    ensures FeedAll(p, a + b) == Resume(FeedAll(p, a), b)
    decreases |a|
  {
    if a == [] {
      assert a + b == b;
      PrependNothing(FeedAll(p, b));
    } else {
      assert (a + b)[0] == a[0] && (a + b)[1..] == a[1..] + b;
      match Feed(p, a[0]) {
        case Bad =>
        case More(q) => FeedAllConcat(q, a[1..], b);
        case Char(c) =>
          FeedAllConcat(Start, a[1..], b);
          var r := FeedAll(Start, a[1..]);
          if r.Some? { PrependTwice([c], r.value.0, FeedAll(r.value.1, b)); }
      }
    }
  }

  lemma OneByte(p: Pending, b: Byte, rest: seq<Byte>)
    ensures var step := Feed(p, b);
            FeedAll(p, [b] + rest) ==
            if step.Bad? then None
            else if step.More? then FeedAll(step.pending, rest)
            else Prepend([step.c], FeedAll(Start, rest))
  {
    assert ([b] + rest)[1..] == rest;
  }

  lemma Sextets(n: nat)
    ensures n / 64 * 64 + n % 64 == n
    ensures n / 4096 * 64 + n / 64 % 64 == n / 64
    ensures n / 262144 * 64 + n / 4096 % 64 == n / 4096
  {
  }

  predicate Sextet(x: int) { 0 <= x < 64 }

  /** The last byte of a character. */
  lemma LastByte(bits: nat, z: int, rest: seq<Byte>)
    requires Sextet(z) && Completable(Need(1, bits, 0x80, 0xBF))
    ensures FeedAll(Need(1, bits, 0x80, 0xBF), [0x80 + z] + rest) == Prepend([(bits * 64 + z) as char], FeedAll(Start, rest))
  {
    OneByte(Need(1, bits, 0x80, 0xBF), 0x80 + z, rest);
  }

  lemma TwoBytes(a: int, z: int, rest: seq<Byte>)
    requires 2 <= a < 32 && Sextet(z)
    ensures FeedAll(Start, [0xC0 + a] + ([0x80 + z] + rest)) == Prepend([(a * 64 + z) as char], FeedAll(Start, rest))
  {
    OneByte(Start, 0xC0 + a, [0x80 + z] + rest);
    LastByte(a, z, rest);
  }

  lemma ThreeBytes(a: int, y: int, z: int, rest: seq<Byte>)
    requires 0 <= a < 16 && Sextet(y) && Sextet(z)
    requires a == 0 ==> y >= 32
    requires a == 13 ==> y < 32
    ensures FeedAll(Start, [0xE0 + a] + ([0x80 + y] + ([0x80 + z] + rest)))
            == Prepend([((a * 64 + y) * 64 + z) as char], FeedAll(Start, rest))
  {
    OneByte(Start, 0xE0 + a, [0x80 + y] + ([0x80 + z] + rest));
    OneByte(Feed(Start, 0xE0 + a).pending, 0x80 + y, [0x80 + z] + rest);
    LastByte(a * 64 + y, z, rest);
  }

  lemma LastTwoBytes(bits: nat, y: int, z: int, rest: seq<Byte>)
    requires Sextet(y) && Sextet(z) && Completable(Need(2, bits, 0x80, 0xBF))
    ensures FeedAll(Need(2, bits, 0x80, 0xBF), [0x80 + y] + ([0x80 + z] + rest))
            == Prepend([((bits * 64 + y) * 64 + z) as char], FeedAll(Start, rest))
  {
    OneByte(Need(2, bits, 0x80, 0xBF), 0x80 + y, [0x80 + z] + rest);
    LastByte(bits * 64 + y, z, rest);
  }

  lemma FourBytesBegin(a: int, x: int) returns (p: Pending)
    requires 0 <= a <= 4 && Sextet(x)
    requires a == 0 ==> x >= 16
    requires a == 4 ==> x < 16
    ensures Feed(Start, 0xF0 + a) == More(p)
    ensures Completable(Need(2, a * 64 + x, 0x80, 0xBF)) && Feed(p, 0x80 + x) == More(Need(2, a * 64 + x, 0x80, 0xBF))
  {
    p := Feed(Start, 0xF0 + a).pending;
  }

  lemma FourBytes(a: int, x: int, y: int, z: int, rest: seq<Byte>)
    requires 0 <= a <= 4 && Sextet(x) && Sextet(y) && Sextet(z)
    requires a == 0 ==> x >= 16
    requires a == 4 ==> x < 16
    ensures FeedAll(Start, [0xF0 + a] + ([0x80 + x] + ([0x80 + y] + ([0x80 + z] + rest))))
            == Prepend([(((a * 64 + x) * 64 + y) * 64 + z) as char], FeedAll(Start, rest))
  {
    FourBytesFirst(a, x, [0x80 + y] + ([0x80 + z] + rest));
    LastTwoBytes(a * 64 + x, y, z, rest);
  }

  lemma FourBytesFirst(a: int, x: int, last: seq<Byte>)
    requires 0 <= a <= 4 && Sextet(x)
    requires a == 0 ==> x >= 16
    requires a == 4 ==> x < 16
    ensures Completable(Need(2, a * 64 + x, 0x80, 0xBF))
    ensures FeedAll(Start, [0xF0 + a] + ([0x80 + x] + last)) == FeedAll(Need(2, a * 64 + x, 0x80, 0xBF), last)
  {
    var p := FourBytesBegin(a, x);
    OneByte(Start, 0xF0 + a, [0x80 + x] + last);
    OneByte(p, 0x80 + x, last);
  }

  /** Encoding written from the sextets of the code point, most significant first. */
  lemma EncodedShape(c: char, a: int, x: int, y: int, z: int, rest: seq<Byte>)
    requires c as int >= 0x800 && Sextet(x) && Sextet(y) && Sextet(z) && 0 <= a
    requires c as int == ((a * 64 + x) * 64 + y) * 64 + z
    ensures c as int >= 0x1_0000 ==>
              EncodeChar(c) + rest == [0xF0 + a] + ([0x80 + x] + ([0x80 + y] + ([0x80 + z] + rest)))
    ensures c as int < 0x1_0000 ==> a == 0 && x < 16 && EncodeChar(c) + rest == [0xE0 + x] + ([0x80 + y] + ([0x80 + z] + rest))
  {
    var n := c as int;
    assert n % 64 == z && n / 64 == (a * 64 + x) * 64 + y;
    assert n / 64 % 64 == y && n / 4096 == a * 64 + x;
    assert n / 4096 % 64 == x && n / 262144 == a;
  }

  lemma ShortCharRoundTrip(c: char, rest: seq<Byte>)
    requires c as int < 0x800
    ensures FeedAll(Start, EncodeChar(c) + rest) == Prepend([c], FeedAll(Start, rest))
  {
    var n := c as int;
    if n < 0x80 {
      OneByte(Start, n, rest);
    } else {
      TwoBytes(n / 64, n % 64, rest);
      assert EncodeChar(c) + rest == [0xC0 + n / 64] + ([0x80 + n % 64] + rest);
    }
  }

  lemma LongCharRoundTrip(c: char, rest: seq<Byte>)
    requires c as int >= 0x800
    ensures FeedAll(Start, EncodeChar(c) + rest) == Prepend([c], FeedAll(Start, rest))
  {
    var n := c as int;
    var a, x, y, z := n / 262144, n / 4096 % 64, n / 64 % 64, n % 64;
    Sextets(n);
    EncodedShape(c, a, x, y, z, rest);
    if n < 0x1_0000 { ThreeBytes(x, y, z, rest); } else { FourBytes(a, x, y, z, rest); }
  }

  lemma CharRoundTrip(c: char, rest: seq<Byte>)
    ensures FeedAll(Start, EncodeChar(c) + rest) == Prepend([c], FeedAll(Start, rest))
  {
    if c as int < 0x800 { ShortCharRoundTrip(c, rest); } else { LongCharRoundTrip(c, rest); }
  }

  /** Decoding inverts encoding, for every text. */
  lemma {:induction false} DecodeEncode(s: string)
    ensures FeedAll(Start, Encode(s)) == Some((s, Start)) && Decode(Encode(s)) == Some(s)
  {
    if s != [] {
      CharRoundTrip(s[0], Encode(s[1..]));
      DecodeEncode(s[1..]);
      assert [s[0]] + s[1..] == s;
    }
  }

  // ---------------------------------------------------------------- only encodings are decoded

  /** What is left after one byte that was fed successfully. */
  lemma FedOne(p: Pending, bytes: seq<Byte>, s: string)
    requires bytes != [] && FeedAll(p, bytes) == Some((s, Start))
    ensures match Feed(p, bytes[0])
            case Bad => false
            case More(q) => FeedAll(q, bytes[1..]) == Some((s, Start))
            case Char(c) => s != "" && s[0] == c && FeedAll(Start, bytes[1..]) == Some((s[1..], Start))
  {
  }

  /** The last byte of a character that was decoded. */
  lemma LastFed(bits: nat, low: int, high: int, bytes: seq<Byte>, s: string)
    requires Completable(Need(1, bits, low, high)) && FeedAll(Need(1, bits, low, high), bytes) == Some((s, Start))
    ensures bytes != [] && low <= bytes[0] <= high && s != "" && s[0] as int == bits * 64 + (bytes[0] - 0x80)
    ensures FeedAll(Start, bytes[1..]) == Some((s[1..], Start))
  {
    FedOne(Need(1, bits, low, high), bytes, s);
  }

  lemma LastTwoFed(bits: nat, low: int, high: int, bytes: seq<Byte>, s: string)
    requires Completable(Need(2, bits, low, high)) && FeedAll(Need(2, bits, low, high), bytes) == Some((s, Start))
    ensures |bytes| >= 2 && low <= bytes[0] <= high && 0x80 <= bytes[1] <= 0xBF && s != ""
    ensures s[0] as int == (bits * 64 + (bytes[0] - 0x80)) * 64 + (bytes[1] - 0x80)
    ensures FeedAll(Start, bytes[2..]) == Some((s[1..], Start))
  {
    FedOne(Need(2, bits, low, high), bytes, s);
    LastFed(bits * 64 + (bytes[0] - 0x80), 0x80, 0xBF, bytes[1..], s);
    assert bytes[1..][1..] == bytes[2..];
  }

  lemma ThirdLastFed(bits: nat, low: int, high: int, bytes: seq<Byte>, s: string)
    requires Completable(Need(3, bits, low, high)) && FeedAll(Need(3, bits, low, high), bytes) == Some((s, Start))
    ensures bytes != [] && low <= bytes[0] <= high
    ensures var next := Need(2, bits * 64 + (bytes[0] - 0x80), 0x80, 0xBF);
      Completable(next) && FeedAll(next, bytes[1..]) == Some((s, Start))
  {
    FedOne(Need(3, bits, low, high), bytes, s);
  }

  lemma LastThreeFed(bits: nat, low: int, high: int, bytes: seq<Byte>, s: string)
    requires Completable(Need(3, bits, low, high)) && FeedAll(Need(3, bits, low, high), bytes) == Some((s, Start))
    ensures |bytes| >= 3 && low <= bytes[0] <= high && 0x80 <= bytes[1] <= 0xBF && 0x80 <= bytes[2] <= 0xBF && s != ""
    ensures s[0] as int == ((bits * 64 + (bytes[0] - 0x80)) * 64 + (bytes[1] - 0x80)) * 64 + (bytes[2] - 0x80)
    ensures FeedAll(Start, bytes[3..]) == Some((s[1..], Start))
  {
    ThirdLastFed(bits, low, high, bytes, s);
    LastTwoFed(bits * 64 + (bytes[0] - 0x80), 0x80, 0xBF, bytes[1..], s);
    assert bytes[1..][2..] == bytes[3..];
  }

  /** The sextets of a code point are those of its encoding. */
  lemma EncodedTwo(c: char, a: int, z: int)
    requires 2 <= a < 32 && Sextet(z) && c as int == a * 64 + z
    ensures EncodeChar(c) == [0xC0 + a, 0x80 + z]
  {
  }

  lemma EncodedMore(c: char, a: int, x: int, y: int, z: int)
    requires c as int >= 0x800 && 0 <= a && Sextet(x) && Sextet(y) && Sextet(z) && c as int == ((a * 64 + x) * 64 + y) * 64 + z
    ensures EncodeChar(c) == if c as int >= 0x1_0000 then [0xF0 + a, 0x80 + x, 0x80 + y, 0x80 + z] else [0xE0 + x, 0x80 + y, 0x80 + z]
  {
    EncodedShape(c, a, x, y, z, []);
    assert EncodeChar(c) + [] == EncodeChar(c);
  }

  lemma EncodedThree(c: char, x: int, y: int, z: int)
    requires 0 <= x < 16 && Sextet(y) && Sextet(z) && (x == 0 ==> y >= 32) && c as int == (x * 64 + y) * 64 + z
    ensures EncodeChar(c) == [0xE0 + x, 0x80 + y, 0x80 + z]
  {
    EncodedMore(c, 0, x, y, z);
  }

  lemma EncodedFour(c: char, a: int, x: int, y: int, z: int)
    requires 0 <= a && Sextet(x) && Sextet(y) && Sextet(z) && (a == 0 ==> x >= 16) && c as int == ((a * 64 + x) * 64 + y) * 64 + z
    ensures EncodeChar(c) == [0xF0 + a, 0x80 + x, 0x80 + y, 0x80 + z]
  {
    EncodedMore(c, a, x, y, z);
  }

  lemma FirstBytes(bytes: seq<Byte>)
    ensures |bytes| >= 3 ==> bytes[..3] == [bytes[0], bytes[1], bytes[2]] && bytes[1..][2..] == bytes[3..]
    ensures |bytes| >= 4 ==> bytes[..4] == [bytes[0], bytes[1], bytes[2], bytes[3]] && bytes[1..][3..] == bytes[4..]
  {
  }

  /** The first character that was decoded, and the bytes it was decoded from. */
  lemma FirstDecoded(bytes: seq<Byte>, s: string) returns (k: nat)
    requires bytes != [] && FeedAll(Start, bytes) == Some((s, Start))
    ensures 0 < k <= |bytes| && s != "" && bytes[..k] == EncodeChar(s[0]) && FeedAll(Start, bytes[k..]) == Some((s[1..], Start))
  {
    var b := bytes[0];
    FedOne(Start, bytes, s);
    if b < 0x80 {
      k := 1;
      assert bytes[..1] == [b];
    } else if b <= 0xDF {
      k := 2;
      LastFed(b - 0xC0, 0x80, 0xBF, bytes[1..], s);
      EncodedTwo(s[0], b - 0xC0, bytes[1] - 0x80);
      assert bytes[..2] == [b, bytes[1]] && bytes[1..][1..] == bytes[2..];
    } else if b <= 0xEF {
      k := 3;
      ThreeDecoded(bytes, s);
    } else {
      k := 4;
      FourDecoded(bytes, s);
    }
  }

  lemma ThreeFed(bytes: seq<Byte>, s: string) returns (y: int, z: int)
    requires bytes != [] && 0xE0 <= bytes[0] <= 0xEF && FeedAll(Start, bytes) == Some((s, Start))
    ensures |bytes| >= 3 && s != "" && bytes[1] == 0x80 + y && bytes[2] == 0x80 + z && FeedAll(Start, bytes[3..]) == Some((s[1..], Start))
    ensures Sextet(y) && Sextet(z) && (bytes[0] == 0xE0 ==> y >= 32) && s[0] as int == ((bytes[0] - 0xE0) * 64 + y) * 64 + z
  {
    var b := bytes[0];
    var low, high := if b == 0xE0 then 0xA0 else 0x80, if b == 0xED then 0x9F else 0xBF;
    FedOne(Start, bytes, s);
    assert Feed(Start, b) == More(Need(2, b - 0xE0, low, high));
    LastTwoFed(b - 0xE0, low, high, bytes[1..], s);
    y, z := bytes[1] - 0x80, bytes[2] - 0x80;
    FirstBytes(bytes);
  }

  lemma ThreeDecoded(bytes: seq<Byte>, s: string)
    requires bytes != [] && 0xE0 <= bytes[0] <= 0xEF && FeedAll(Start, bytes) == Some((s, Start))
    ensures |bytes| >= 3 && s != "" && bytes[..3] == EncodeChar(s[0]) && FeedAll(Start, bytes[3..]) == Some((s[1..], Start))
  {
    var y, z := ThreeFed(bytes, s);
    EncodedThree(s[0], bytes[0] - 0xE0, y, z);
    FirstBytes(bytes);
  }

  lemma FourStarted(bytes: seq<Byte>, s: string) returns (low: int, high: int)
    requires bytes != [] && bytes[0] >= 0xF0 && FeedAll(Start, bytes) == Some((s, Start))
    ensures bytes[0] <= 0xF4 && low == (if bytes[0] == 0xF0 then 0x90 else 0x80) && high == (if bytes[0] == 0xF4 then 0x8F else 0xBF)
    ensures Completable(Need(3, bytes[0] - 0xF0, low, high)) && FeedAll(Need(3, bytes[0] - 0xF0, low, high), bytes[1..]) == Some((s, Start))
  {
    low, high := if bytes[0] == 0xF0 then 0x90 else 0x80, if bytes[0] == 0xF4 then 0x8F else 0xBF;
    FedOne(Start, bytes, s);
  }

  lemma FourFed(bytes: seq<Byte>, s: string) returns (x: int, y: int, z: int)
    requires bytes != [] && bytes[0] >= 0xF0 && FeedAll(Start, bytes) == Some((s, Start))
    ensures |bytes| >= 4 && s != "" && bytes[1] == 0x80 + x && bytes[2] == 0x80 + y && bytes[3] == 0x80 + z
    ensures FeedAll(Start, bytes[4..]) == Some((s[1..], Start))
    ensures Sextet(x) && Sextet(y) && Sextet(z) && (bytes[0] == 0xF0 ==> x >= 16)
    ensures s[0] as int == (((bytes[0] - 0xF0) * 64 + x) * 64 + y) * 64 + z
  {
    var low, high := FourStarted(bytes, s);
    LastThreeFed(bytes[0] - 0xF0, low, high, bytes[1..], s);
    x, y, z := bytes[1] - 0x80, bytes[2] - 0x80, bytes[3] - 0x80;
    FirstBytes(bytes);
  }

  lemma FourDecoded(bytes: seq<Byte>, s: string)
    requires bytes != [] && bytes[0] >= 0xF0 && FeedAll(Start, bytes) == Some((s, Start))
    ensures |bytes| >= 4 && s != "" && bytes[..4] == EncodeChar(s[0]) && FeedAll(Start, bytes[4..]) == Some((s[1..], Start))
  {
    var x, y, z := FourFed(bytes, s);
    EncodedFour(s[0], bytes[0] - 0xF0, x, y, z);
    FirstBytes(bytes);
  }

  /** Encoding inverts decoding: nothing but the encoding of a text is decoded. */
  lemma {:induction false} EncodeDecode(bytes: seq<Byte>, s: string)
    requires FeedAll(Start, bytes) == Some((s, Start))
    ensures Encode(s) == bytes
    decreases |bytes|
  {
    if bytes != [] {
      var k := FirstDecoded(bytes, s);
      EncodeDecode(bytes[k..], s[1..]);
      assert bytes == bytes[..k] + bytes[k..];
    }
  }

  /** Decoding accepts exactly the encodings of texts. */
  lemma DecodesIff(bytes: seq<Byte>, s: string)
    ensures Decode(bytes) == Some(s) <==> bytes == Encode(s)
  {
    DecodeEncode(s);
    if Decode(bytes) == Some(s) { EncodeDecode(bytes, s); }
  }
}
