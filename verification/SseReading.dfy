/** Every event stream, line by line: what the evaluator's parser makes of it (section 9.2.6 of the WHATWG HTML standard). */
module SseReading {
  import opened Results
  import opened Texts
  import opened Utf8
  import opened Json
  import opened SseFormat

  // ---------------------------------------------------------------- lines

  /** A line that is not empty: a comment, a field with a value, or a field name alone. */
  datatype Line = Comment(text: string) | Field(name: string, value: string, spaced: bool) | Bare(name: string)

  function LineText(l: Line): string {
    match l
    case Comment(text) => ":" + text
    case Field(name, value, spaced) => name + ":" + (if spaced then " " else "") + value
    case Bare(name) => name
  }

  predicate IsName(name: string) { name != "" && ':' !in name && NoBreaks(name) }

  predicate PlainLine(l: Line) {
    match l
    case Comment(text) => NoBreaks(text)
    case Field(name, value, spaced) => IsName(name) && NoBreaks(value) && (!spaced ==> value == "" || value[0] != ' ')
    case Bare(name) => IsName(name)
  }

  /** Each line that is not empty is one of these. */
  lemma LineOf(text: string) returns (l: Line)
    requires text != "" && NoBreaks(text)
    ensures PlainLine(l) && LineText(l) == text
  {
    var i := Find(text, ':');
    if i == 0 {
      l := Comment(text[1..]);
      assert text == ":" + text[1..];
    } else if i == |text| {
      l := Bare(text);
      assert text[..i] == text;
    } else {
      var name, raw := text[..i], text[i + 1..];
      assert text == name + ":" + raw;
      if raw != "" && raw[0] == ' ' {
        l := Field(name, raw[1..], true);
        assert raw == " " + raw[1..];
        assert name + ":" + " " + raw[1..] == name + ":" + raw;
      } else {
        l := Field(name, raw, false);
        assert name + ":" + "" + raw == name + ":" + raw;
      }
    }
  }

  /** The value of a line for a field, if it is one for that field. */
  function ValueFor(l: Line, name: string): Option<string> {
    match l
    case Comment(_) => None
    case Field(n, value, _) => if n == name then Some(value) else None
    case Bare(n) => if n == name then Some("") else None
  }

  /** The last event line names the event; without one, or with an empty one, it is a message. */
  function EventName(lines: seq<Line>): string {
    if lines == [] then "message"
    else
      match ValueFor(lines[|lines| - 1], "event")
      case None => EventName(lines[..|lines| - 1])
      case Some(value) => if value == "" then "message" else value
  }

  /** The values of the data lines. */
  function DataLines(lines: seq<Line>): seq<string> {
    if lines == [] then []
    else
      DataLines(lines[..|lines| - 1])
      + match ValueFor(lines[|lines| - 1], "data") case None => [] case Some(value) => [value]
  }

  function LineTexts(lines: seq<Line>): (r: seq<string>)
    ensures |r| == |lines| && forall i :: 0 <= i < |lines| ==> r[i] == LineText(lines[i])
  {
    seq(|lines|, i requires 0 <= i < |lines| => LineText(lines[i]))
  }

  predicate AllPlain(lines: seq<Line>) { forall i | 0 <= i < |lines| :: PlainLine(lines[i]) }

  /** What one line does to a block. */
  lemma LineRead(b: BlockState, l: Line)
    requires PlainLine(l)
    ensures ReadLine(b, LineText(l)) ==
      BlockState(match ValueFor(l, "event") case None => b.name case Some(v) => if v == "" then "message" else v,
                 b.data + match ValueFor(l, "data") case None => [] case Some(v) => [v])
  {
    assert b.data + [] == b.data;
    match l {
      case Comment(text) =>
      case Field(name, value, spaced) => FieldRead(b, name, value, spaced);
      case Bare(name) => BareRead(b, name);
    }
  }

  lemma FieldRead(b: BlockState, name: string, value: string, spaced: bool)
    requires PlainLine(Field(name, value, spaced))
    ensures ReadLine(b, LineText(Field(name, value, spaced))) ==
      if name == "event" then b.(name := if value == "" then "message" else value) else if name == "data" then b.(data := b.data + [value]) else b
  {
    var raw := (if spaced then " " else "") + value;
    var line := LineText(Field(name, value, spaced));
    assert line == name + [':'] + raw;
    FindAfter(name, ':', raw);
    assert line[..|name|] == name && line[|name| + 1..] == raw;
    assert raw != "" && raw[0] == ' ' ==> spaced && raw[1..] == value;
    assert line[0] == name[0];
  }

  lemma BareRead(b: BlockState, name: string)
    requires IsName(name)
    ensures ReadLine(b, name) == if name == "event" then b.(name := "message") else if name == "data" then b.(data := b.data + [""]) else b
  {
    assert Find(name, ':') == |name|;
    assert name[..|name|] == name;
  }

  lemma {:induction false} ReadLinesAppend(b: BlockState, lines: seq<string>, last: string)
    ensures ReadLines(b, lines + [last]) == ReadLine(ReadLines(b, lines), last)
    decreases |lines|
  {
    if lines == [] {
      assert [] + [last] == [last] && [last][1..] == [];
      assert ReadLines(ReadLine(b, last), []) == ReadLine(b, last);
    } else {
      assert (lines + [last])[1..] == lines[1..] + [last];
      ReadLinesAppend(ReadLine(b, lines[0]), lines[1..], last);
    }
  }

  /** What the lines of a block say together. */
  lemma {:induction false} LinesRead(lines: seq<Line>)
    requires AllPlain(lines)
    ensures ReadLines(NEW_BLOCK, LineTexts(lines)) == BlockState(EventName(lines), DataLines(lines))
    decreases |lines|
  {
    if lines == [] {
      assert LineTexts(lines) == [];
    } else {
      var before, last := lines[..|lines| - 1], lines[|lines| - 1];
      LinesRead(before);
      ReadLinesAppend(NEW_BLOCK, LineTexts(before), LineText(last));
      assert LineTexts(lines) == LineTexts(before) + [LineText(last)];
      LineRead(ReadLines(NEW_BLOCK, LineTexts(before)), last);
    }
  }

  // ---------------------------------------------------------------- blocks

  function BlockText(lines: seq<Line>): string { Join(LineTexts(lines), '\n') }

  /** What a block means: nothing without data lines, else an event with the object that they spell. */
  function Meaning(lines: seq<Line>): Result<Events, TransportError> {
    if DataLines(lines) == [] then Ok([])
    else
      match Loads(Join(DataLines(lines), '\n'))
      case None => Err(InvalidJson)
      case Some(v) => if v.Obj? then Ok([(EventName(lines), v)]) else Err(InvalidPayload)
  }

  lemma LineNonempty(l: Line)
    requires PlainLine(l)
    ensures LineText(l) != "" && NoBreaks(LineText(l))
  {
  }

  /** A blank line has no data. */
  lemma BlankLine(l: Line)
    requires PlainLine(l)
    ensures AllBlank(LineText(l)) ==> ValueFor(l, "data") == None
  {
    if ValueFor(l, "data").Some? { assert LineText(l)[0] == 'd' && !IsBlank(LineText(l)[0]); }
  }

  lemma {:induction false} BlankLines(lines: seq<Line>)
    requires AllPlain(lines) && forall i :: 0 <= i < |lines| ==> AllBlank(LineText(lines[i]))
    ensures DataLines(lines) == []
  {
    if lines != [] {
      BlankLines(lines[..|lines| - 1]);
      BlankLine(lines[|lines| - 1]);
    }
  }

  lemma {:induction false} BlankJoin(parts: seq<string>, i: nat)
    requires AllBlank(Join(parts, '\n')) && i < |parts|
    ensures AllBlank(parts[i])
  {
    if |parts| > 1 {
      var joined := Join(parts, '\n');
      if i == 0 {
        forall k | 0 <= k < |parts[0]| ensures IsBlank(parts[0][k]) { assert joined[k] == parts[0][k]; }
      } else {
        var rest := Join(parts[1..], '\n');
        forall k | 0 <= k < |rest| ensures IsBlank(rest[k]) { assert joined[|parts[0]| + 1 + k] == rest[k]; }
        BlankJoin(parts[1..], i - 1);
      }
    }
  }

  /** The parser makes of a block what it means. */
  lemma BlockRead(lines: seq<Line>)
    requires lines != [] && AllPlain(lines)
    ensures ReadBlock(BlockText(lines)) == Meaning(lines)
  {
    var texts := LineTexts(lines);
    forall i | 0 <= i < |texts| ensures '\n' !in texts[i] { LineNonempty(lines[i]); }
    SplitJoin(texts, '\n');
    LinesRead(lines);
    if AllBlank(BlockText(lines)) {
      forall i | 0 <= i < |lines| ensures AllBlank(LineText(lines[i])) { BlankJoin(texts, i); }
      BlankLines(lines);
    }
  }

  // ---------------------------------------------------------------- streams

  /** A block and the number of blank lines after the first one that closes it. */
  type Spaced = (seq<Line>, nat)

  function Newlines(n: nat): string { seq(n, _ => '\n') }

  /** The text of a stream with "\n" at the line ends; the last block may be unfinished. */
  function StreamText(blocks: seq<Spaced>, tail: seq<Line>): string {
    if blocks == [] then BlockText(tail)
    else BlockText(blocks[0].0) + "\n\n" + (Newlines(blocks[0].1) + StreamText(blocks[1..], tail))
  }

  predicate PlainStream(blocks: seq<Spaced>, tail: seq<Line>) {
    (forall i | 0 <= i < |blocks| :: blocks[i].0 != [] && AllPlain(blocks[i].0)) && AllPlain(tail)
  }

  /** The events of the blocks in order, or the error of the first that has one. */
  function StreamMeaning(blocks: seq<Spaced>, tail: seq<Line>): Result<Events, TransportError> {
    if blocks == [] then Meaning(tail)
    else
      match Meaning(blocks[0].0)
      case Err(e) => Err(e)
      case Ok(first) => match StreamMeaning(blocks[1..], tail) case Err(e) => Err(e) case Ok(rest) => Ok(first + rest)
  }

  lemma {:induction false} JoinClosable(parts: seq<string>)
    requires parts != [] && forall i :: 0 <= i < |parts| ==> parts[i] != "" && '\n' !in parts[i]
    ensures Closable(Join(parts, '\n')) && Join(parts, '\n') != "" && Join(parts, '\n')[0] != '\n'
  {
    if |parts| > 1 {
      var rest := Join(parts[1..], '\n');
      JoinClosable(parts[1..]);
      ConsClosable(parts[0], rest);
    }
  }

  lemma ConsClosable(first: string, rest: string)
    requires first != "" && '\n' !in first && Closable(rest) && rest != "" && rest[0] != '\n'
    ensures Closable(first + ['\n'] + rest)
  {
    var s := first + ['\n'] + rest;
    assert forall k :: 0 <= k < |s| ==> s[k] == if k < |first| then first[k] else if k == |first| then '\n' else rest[k - |first| - 1];
    forall i | 0 <= i < |s| - 1 ensures !(s[i] == '\n' && s[i + 1] == '\n') {
      if i > |first| { assert s[i] == rest[i - |first| - 1] && s[i + 1] == rest[i - |first|]; }
    }
  }

  lemma BlockTextClosable(lines: seq<Line>)
    requires lines != [] && AllPlain(lines)
    ensures Closable(BlockText(lines)) && BlockText(lines) != "" && BlockText(lines)[0] != '\n'
  {
    forall i | 0 <= i < |lines| ensures LineTexts(lines)[i] != "" && '\n' !in LineTexts(lines)[i] { LineNonempty(lines[i]); }
    JoinClosable(LineTexts(lines));
  }

  lemma {:induction false} DropNewlines(n: nat, rest: string)
    requires rest == "" || rest[0] != '\n'
    ensures DropBreaks(Newlines(n) + rest) == rest
  {
    if n > 0 {
      assert (Newlines(n) + rest)[1..] == Newlines(n - 1) + rest;
      DropNewlines(n - 1, rest);
    } else {
      assert Newlines(0) + rest == rest;
    }
  }

  lemma {:induction false} BlockThenGap(b: string, n: nat, rest: string)
    requires Closable(b) && (rest == "" || rest[0] != '\n')
    ensures Blocks(b + "\n\n" + (Newlines(n) + rest)) == [b] + Blocks(rest)
    decreases |b|
  {
    var s := b + "\n\n" + (Newlines(n) + rest);
    if b == "" {
      assert s[2..] == Newlines(n) + rest;
      DropNewlines(n, rest);
    } else {
      var tail := b[1..];
      forall i | 0 <= i < |tail| - 1 ensures !(tail[i] == '\n' && tail[i + 1] == '\n') { assert tail[i] == b[i + 1]; }
      BlockThenGap(tail, n, rest);
      assert s[0] == b[0] && s[1..] == tail + "\n\n" + (Newlines(n) + rest);
      if b[0] == '\n' { assert s[1] == b[1]; }
      assert ([tail] + Blocks(rest))[1..] == Blocks(rest);
      assert [b[0]] + tail == b;
    }
  }

  lemma {:induction false} LastBlock(b: string)
    requires Closable(b)
    ensures Blocks(b) == [b]
    decreases |b|
  {
    if |b| >= 2 {
      var tail := b[1..];
      forall i | 0 <= i < |tail| - 1 ensures !(tail[i] == '\n' && tail[i + 1] == '\n') { assert tail[i] == b[i + 1]; }
      LastBlock(tail);
      assert [b[0]] + tail == b;
    }
  }

  lemma TailRead(tail: seq<Line>)
    requires AllPlain(tail)
    ensures ReadBlocks(Blocks(BlockText(tail))) == Meaning(tail)
  {
    if tail == [] {
      var none: Events := [];
      assert LineTexts(tail) == [] && BlockText(tail) == "" && Blocks("") == [""];
      ReadFirst("", none, [], none);
      assert [""] + [] == [""] && none + none == none;
    } else {
      BlockTextClosable(tail);
      LastBlock(BlockText(tail));
      BlockRead(tail);
      var b := BlockText(tail);
      var none: Events := [];
      assert [b][1..] == [] && ReadBlocks([]) == Ok(none);
      if Meaning(tail).Ok? { assert Meaning(tail).value + none == Meaning(tail).value; }
    }
  }

  lemma StreamStart(blocks: seq<Spaced>, tail: seq<Line>)
    requires PlainStream(blocks, tail)
    ensures StreamText(blocks, tail) == "" || StreamText(blocks, tail)[0] != '\n'
  {
    if blocks != [] {
      BlockTextClosable(blocks[0].0);
    } else if tail != [] {
      BlockTextClosable(tail);
    }
  }

  /** Read as text with "\n" at the line ends, a stream gives what it means. */
  lemma {:induction false} StreamRead(blocks: seq<Spaced>, tail: seq<Line>)
    requires PlainStream(blocks, tail)
    ensures ReadBlocks(Blocks(StreamText(blocks, tail))) == StreamMeaning(blocks, tail)
    decreases |blocks|
  {
    if blocks == [] {
      TailRead(tail);
    } else {
      var rest := StreamText(blocks[1..], tail);
      StreamRead(blocks[1..], tail);
      StreamStart(blocks[1..], tail);
      BlockTextClosable(blocks[0].0);
      BlockThenGap(BlockText(blocks[0].0), blocks[0].1, rest);
      BlockRead(blocks[0].0);
      assert ([BlockText(blocks[0].0)] + Blocks(rest))[1..] == Blocks(rest);
    }
  }

  // ---------------------------------------------------------------- line ends and bytes

  /** The same text with another line end. */
  function Written(s: string, end: string): string {
    if s == "" then "" else (if s[0] == '\n' then end else [s[0]]) + Written(s[1..], end)
  }

  lemma {:induction false} WrittenNormalized(s: string, end: string)
    requires '\r' !in s && (end == "\n" || end == "\r\n" || end == "\r" )
    ensures NormalizeBreaks(Written(s, end)) == s
    ensures Written(s, end) != "" && Written(s, end)[0] == '\n' ==> end == "\n"
  {
    if s != "" {
      var rest := Written(s[1..], end);
      WrittenNormalized(s[1..], end);
      assert s == [s[0]] + s[1..];
      if s[0] != '\n' {
        assert ([s[0]] + rest)[1..] == rest;
      } else if end == "\r\n" {
        assert (end + rest)[2..] == rest;
      } else {
        assert (end + rest)[1..] == rest;
      }
    }
  }

  lemma {:induction false} NoReturns(blocks: seq<Spaced>, tail: seq<Line>)
    requires PlainStream(blocks, tail)
    ensures '\r' !in StreamText(blocks, tail)
    decreases |blocks|
  {
    if blocks == [] {
      LinesNoReturns(tail);
    } else {
      LinesNoReturns(blocks[0].0);
      NoReturns(blocks[1..], tail);
    }
  }

  lemma LinesNoReturns(lines: seq<Line>)
    requires AllPlain(lines)
    ensures '\r' !in BlockText(lines)
  {
    forall i | 0 <= i < |lines| ensures '\r' !in LineTexts(lines)[i] { LineNonempty(lines[i]); }
    JoinNoReturns(LineTexts(lines));
  }

  lemma {:induction false} JoinNoReturns(parts: seq<string>)
    requires forall i :: 0 <= i < |parts| ==> '\r' !in parts[i]
    ensures '\r' !in Join(parts, '\n')
  {
    if |parts| > 1 { JoinNoReturns(parts[1..]); }
  }

  /**
   Whatever lines a stream has, with any of the three line ends, any number of blank lines between its blocks, and
   cut anywhere, even inside a character: the parser returns what its blocks mean, or the error of the first bad one.
   */
  lemma AnyStreamRead(blocks: seq<Spaced>, tail: seq<Line>, end: string, chunks: seq<seq<Byte>>)
    requires PlainStream(blocks, tail) && (end == "\n" || end == "\r\n" || end == "\r")
    requires Concat(chunks) == Encode(Written(StreamText(blocks, tail), end))
    ensures Parse(AsChunks(chunks)) == StreamMeaning(blocks, tail)
  {
    var text := Written(StreamText(blocks, tail), end);
    ChunksDecodeAsWhole(Start, chunks);
    DecodeEncode(text);
    NoReturns(blocks, tail);
    WrittenNormalized(StreamText(blocks, tail), end);
    StreamRead(blocks, tail);
  }

  // ---------------------------------------------------------------- chunks of bytes and of text

  function BytesOf(chunks: seq<Chunk>): seq<Byte> {
    if chunks == [] then [] else (if chunks[0].Bytes? then chunks[0].bytes else []) + BytesOf(chunks[1..])
  }

  /** Chunks of text stand between those of bytes and leave the decoding of these alone. */
  lemma {:induction false} MixedRefusedIff(p: Pending, chunks: seq<Chunk>)
    ensures DecodeChunks(p, chunks).Some? <==>
      FeedAll(p, BytesOf(chunks)).Some? && FeedAll(p, BytesOf(chunks)).value.1 == Start
    decreases |chunks|
  {
    if chunks != [] {
      var later := BytesOf(chunks[1..]);
      match chunks[0] {
        case Text(t) =>
          assert [] + later == later;
          MixedRefusedIff(p, chunks[1..]);
        case Bytes(b) =>
          FeedAllConcat(p, b, later);
          if FeedAll(p, b).Some? { MixedRefusedIff(FeedAll(p, b).value.1, chunks[1..]); }
      }
    }
  }

  /** Texts as chunks: each as its bytes or as it is. */
  function AnyChunks(texts: seq<string>, asBytes: seq<bool>): seq<Chunk>
    requires |asBytes| == |texts|
  {
    seq(|texts|, i requires 0 <= i < |texts| => if asBytes[i] then Bytes(Encode(texts[i])) else Chunk.Text(texts[i]))
  }

  function Joined(texts: seq<string>): string { if texts == [] then "" else texts[0] + Joined(texts[1..]) }

  /** Chunks of bytes and of text are put together in their order. */
  lemma {:induction false} AnyChunksRead(texts: seq<string>, asBytes: seq<bool>)
    requires |asBytes| == |texts|
    ensures DecodeChunks(Start, AnyChunks(texts, asBytes)) == Some(Joined(texts))
  {
    if texts != [] {
      var chunks := AnyChunks(texts, asBytes);
      assert chunks[1..] == AnyChunks(texts[1..], asBytes[1..]);
      AnyChunksRead(texts[1..], asBytes[1..]);
      DecodeEncode(texts[0]);
    }
  }

  /** Bytes are refused as text exactly when they are not the encoding of one. */
  lemma RefusedTextIff(chunks: seq<seq<Byte>>)
    ensures Parse(AsChunks(chunks)) == Err(InvalidUtf8) <==> forall s :: Concat(chunks) != Encode(s)
  {
    ChunksDecodeAsWhole(Start, chunks);
    var bytes := Concat(chunks);
    forall s ensures Decode(bytes) == Some(s) <==> bytes == Encode(s) { DecodesIff(bytes, s); }
    assert DecodeChunks(Start, AsChunks(chunks)) == Decode(bytes);
    if Decode(bytes).Some? {
      var text := Decode(bytes).value;
      assert bytes == Encode(text);
      NeverUtf8Later(Blocks(NormalizeBreaks(text)));
    }
  }

  lemma {:induction false} NeverUtf8Later(blocks: seq<string>)
    ensures ReadBlocks(blocks) != Err(InvalidUtf8)
  {
    if blocks != [] {
      NeverUtf8Later(blocks[1..]);
      assert ReadBlock(blocks[0]) != Err(InvalidUtf8);
    }
  }
}
