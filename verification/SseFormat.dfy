/**
 Server-sent events (section 9.2.6 of the WHATWG HTML standard): the printer of the backend
 (backend/sse.py) and the parser of the evaluator (scripts/verify_multi_intent_voice.py).
 */
module SseFormat {
  import opened Results
  import opened Texts
  import opened Utf8
  import opened Json

  // ---------------------------------------------------------------- printing

  /** One thing the stream sends: an event with an object, or a heartbeat comment. */
  datatype Item = Sent(event: string, data: Json) | Beat

  function EventBlock(event: string, data: Json): string {
    "event: " + event + "\n" + ("data: " + Dump(data))
  }

  const HEARTBEAT_BLOCK: string := ": heartbeat"

  function Block(i: Item): string {
    match i case Sent(event, data) => EventBlock(event, data) case Beat => HEARTBEAT_BLOCK
  }

  /** The text of a stream: every block is closed by an empty line. */
  function Print(items: seq<Item>): string {
    if items == [] then "" else Block(items[0]) + "\n\n" + Print(items[1..])
  }

  // ---------------------------------------------------------------- parsing

  datatype TransportError = InvalidUtf8 | InvalidJson | InvalidPayload
  datatype Chunk = Bytes(bytes: seq<Byte>) | Text(text: string)

  /** `"".join(decoded)`, where the decoder keeps an unfinished character between chunks. */
  function DecodeChunks(p: Pending, chunks: seq<Chunk>): Option<string>
    decreases |chunks|
  {
    if chunks == [] then (if p.Start? then Some("") else None)
    else
      match chunks[0]
      case Text(t) => Front(t, DecodeChunks(p, chunks[1..]))
      case Bytes(b) =>
        var fed := FeedAll(p, b);
        if fed.None? then None else Front(fed.value.0, DecodeChunks(fed.value.1, chunks[1..]))
  }

  function Front(t: string, rest: Option<string>): Option<string> {
    match rest case None => None case Some(s) => Some(t + s)
  }

  function DropBreaks(s: string): (r: string)
    ensures |r| <= |s|
  {
    if s != "" && s[0] == '\n' then DropBreaks(s[1..]) else s
  }

  /** `re.split(r"\n\n+", s)`. */
  function Blocks(s: string): (r: seq<string>)
    ensures r != []
    decreases |s|
  {
    if |s| < 2 then [s]
    else if s[0] == '\n' && s[1] == '\n' then [""] + Blocks(DropBreaks(s[2..]))
    else Extend(s[0], Blocks(s[1..]))
  }

  /** What the lines of a block have said so far. */
  datatype BlockState = BlockState(name: string, data: seq<string>)

  const NEW_BLOCK: BlockState := BlockState("message", [])

  function ReadLine(b: BlockState, line: string): BlockState {
    if line == "" || line[0] == ':' then b
    else
      var i := Find(line, ':');
      var field, separator := line[..i], i < |line|;
      var raw := if separator then line[i + 1..] else "";
      var value := if raw != "" && raw[0] == ' ' then raw[1..] else raw;
      if field == "event" then b.(name := if value == "" then "message" else value)
      else if field == "data" then b.(data := b.data + [value])
      else b
  }

  function ReadLines(b: BlockState, lines: seq<string>): BlockState
    decreases |lines|
  {
    if lines == [] then b else ReadLines(ReadLine(b, lines[0]), lines[1..])
  }

  type Events = seq<(string, Json)>

  /** What a block adds to the events, or why the whole text is refused. */
  function ReadBlock(block: string): Result<Events, TransportError> {
    if AllBlank(block) then Ok([])
    else
      var b := ReadLines(NEW_BLOCK, Split(block, '\n'));
      if b.data == [] then Ok([])
      else
        match Loads(Join(b.data, '\n'))
        case None => Err(InvalidJson)
        case Some(v) => if v.Obj? then Ok([(b.name, v)]) else Err(InvalidPayload)
  }

  function ReadBlocks(blocks: seq<string>): Result<Events, TransportError> {
    if blocks == [] then Ok([])
    else
      match ReadBlock(blocks[0])
      case Err(e) => Err(e)
      case Ok(first) => match ReadBlocks(blocks[1..]) case Err(e) => Err(e) case Ok(rest) => Ok(first + rest)
  }

  /** `parse_sse_events`. */
  function Parse(chunks: seq<Chunk>): Result<Events, TransportError> {
    match DecodeChunks(Start, chunks)
    case None => Err(InvalidUtf8)
    case Some(text) => ReadBlocks(Blocks(NormalizeBreaks(text)))
  }

  /** The loop over the chunks, with the incremental decoder. */
  method ReadText(chunks: seq<Chunk>) returns (r: Option<string>)
    ensures r == DecodeChunks(Start, chunks)
  {
    var p: Pending := Start;
    var text := "";
    var i := 0;
    assert chunks[0..] == chunks;
    FrontNothing(DecodeChunks(Start, chunks));
    while i < |chunks|
      invariant 0 <= i <= |chunks|
      invariant DecodeChunks(Start, chunks) == Front(text, DecodeChunks(p, chunks[i..]))
    {
      assert chunks[i..][1..] == chunks[i + 1..];
      match chunks[i] {
        case Text(t) =>
          FrontTwice(text, t, DecodeChunks(p, chunks[i + 1..]));
          text := text + t;
        case Bytes(b) =>
          var fed := FeedAll(p, b);
          if fed.None? { return None; }
          FrontTwice(text, fed.value.0, DecodeChunks(fed.value.1, chunks[i + 1..]));
          text, p := text + fed.value.0, fed.value.1;
      }
      i := i + 1;
    }
    assert text + "" == text;
    r := if p.Start? then Some(text) else None;
  }

  /** One block, line by line. */
  method ReadLinesOf(block: string) returns (r: Result<Events, TransportError>)
    ensures r == ReadBlock(block)
  {
    if AllBlank(block) { return Ok([]); }
    var lines := Split(block, '\n');
    var b := NEW_BLOCK;
    var k := 0;
    assert lines[0..] == lines;
    while k < |lines|
      invariant 0 <= k <= |lines|
      invariant ReadLines(NEW_BLOCK, lines) == ReadLines(b, lines[k..])
    {
      assert lines[k..][1..] == lines[k + 1..];
      b := ReadLine(b, lines[k]);
      k := k + 1;
    }
    if b.data == [] { return Ok([]); }
    var payload := Loads(Join(b.data, '\n'));
    if payload.None? { return Err(InvalidJson); }
    if !payload.value.Obj? { return Err(InvalidPayload); }
    r := Ok([(b.name, payload.value)]);
  }

  lemma ReadBlocksStep(events: Events, blocks: seq<string>)
    requires blocks != []
    ensures AddEvents(events, ReadBlocks(blocks)) ==
      match ReadBlock(blocks[0]) case Err(e) => Err(e) case Ok(first) => AddEvents(events + first, ReadBlocks(blocks[1..]))
  {
    if ReadBlock(blocks[0]).Ok? { AddTwice(events, ReadBlock(blocks[0]).value, ReadBlocks(blocks[1..])); }
  }

  /** The parser as it runs: the text first, then block by block. */
  method ParseSseEvents(chunks: seq<Chunk>) returns (r: Result<Events, TransportError>)
    ensures r == Parse(chunks)
  {
    var text := ReadText(chunks);
    if text == None { return Err(InvalidUtf8); }
    r := ReadAll(Blocks(NormalizeBreaks(text.value)));
  }

  method ReadAll(blocks: seq<string>) returns (r: Result<Events, TransportError>)
    ensures r == ReadBlocks(blocks)
  {
    var events: Events := [];
    var i := 0;
    assert blocks[0..] == blocks;
    AddNoEvents(ReadBlocks(blocks));
    while i < |blocks|
      invariant 0 <= i <= |blocks|
      invariant ReadBlocks(blocks) == AddEvents(events, ReadBlocks(blocks[i..]))
    {
      ReadBlocksStep(events, blocks[i..]);
      assert blocks[i..][0] == blocks[i] && blocks[i..][1..] == blocks[i + 1..];
      var found := ReadLinesOf(blocks[i]);
      if found.Err? { return found; }
      events := events + found.value;
      i := i + 1;
    }
    assert events + [] == events;
    r := Ok(events);
  }

  function AddEvents(events: Events, r: Result<Events, TransportError>): Result<Events, TransportError> {
    match r case Err(e) => Err(e) case Ok(rest) => Ok(events + rest)
  }

  lemma AddTwice(a: Events, b: Events, r: Result<Events, TransportError>)
    ensures AddEvents(a, AddEvents(b, r)) == AddEvents(a + b, r)
  {
    if r.Ok? { assert a + (b + r.value) == a + b + r.value; }
  }

  lemma AddNoEvents(r: Result<Events, TransportError>)
    ensures AddEvents([], r) == r
  {
    if r.Ok? { assert [] + r.value == r.value; }
  }

  lemma FrontTwice(a: string, b: string, rest: Option<string>)
    ensures Front(a, Front(b, rest)) == Front(a + b, rest)
  {
    if rest.Some? { assert a + (b + rest.value) == a + b + rest.value; }
  }

  lemma FrontNothing(rest: Option<string>)
    ensures Front("", rest) == rest
  {
    if rest.Some? { assert "" + rest.value == rest.value; }
  }

  // ---------------------------------------------------------------- chunks do not matter

  function Concat(chunks: seq<seq<Byte>>): seq<Byte> {
    if chunks == [] then [] else chunks[0] + Concat(chunks[1..])
  }

  function AsChunks(chunks: seq<seq<Byte>>): seq<Chunk> {
    seq(|chunks|, i requires 0 <= i < |chunks| => Bytes(chunks[i]))
  }

  /** Decoding chunk by chunk is decoding the concatenated bytes, wherever the cuts fall. */
  lemma {:induction false} ChunksDecodeAsWhole(p: Pending, chunks: seq<seq<Byte>>)
    ensures DecodeChunks(p, AsChunks(chunks)) == match FeedAll(p, Concat(chunks)) case Some((s, Start)) => Some(s) case _ => None
    decreases |chunks|
  {
    if chunks == [] {
      assert AsChunks(chunks) == [];
    } else {
      var all := AsChunks(chunks);
      assert all[1..] == AsChunks(chunks[1..]);
      FeedAllConcat(p, chunks[0], Concat(chunks[1..]));
      var fed := FeedAll(p, chunks[0]);
      if fed.Some? { ChunksDecodeAsWhole(fed.value.1, chunks[1..]); }
    }
  }

  /** What is parsed depends only on the bytes, not on how they were cut into chunks. */
  lemma ParseIgnoresCuts(a: seq<seq<Byte>>, b: seq<seq<Byte>>)
    requires Concat(a) == Concat(b)
    ensures Parse(AsChunks(a)) == Parse(AsChunks(b))
  {
    ChunksDecodeAsWhole(Start, a);
    ChunksDecodeAsWhole(Start, b);
  }

  // ---------------------------------------------------------------- parsing inverts printing

  predicate NoBreaks(s: string) { '\n' !in s && '\r' !in s }

  /** An event of the stream: a named event with an object. */
  predicate Printed(i: Item) {
    i.Sent? ==> i.event != "" && NoBreaks(i.event) && i.data.Obj? && WellFormed(i.data)
  }

  function EventsOf(items: seq<Item>): Events {
    if items == [] then []
    else EventOf(items[0]) + EventsOf(items[1..])
  }

  function EventOf(i: Item): Events {
    match i case Sent(event, data) => [(event, data)] case Beat => []
  }

  /** A text that a blank line may close: it has no empty line and no break at its end. */
  predicate Closable(b: string) {
    && (forall i | 0 <= i < |b| - 1 :: !(b[i] == '\n' && b[i + 1] == '\n'))
    && (b != "" ==> b[|b| - 1] != '\n')
  }

  lemma {:induction false} FirstBlock(b: string, rest: string)
    requires Closable(b) && (rest == "" || rest[0] != '\n')
    ensures Blocks(b + "\n\n" + rest) == [b] + Blocks(rest)
    decreases |b|
  {
    var s := b + "\n\n" + rest;
    if b == "" {
      assert s[2..] == rest;
    } else {
      var tail := b[1..];
      forall i | 0 <= i < |tail| - 1 ensures !(tail[i] == '\n' && tail[i + 1] == '\n') { assert tail[i] == b[i + 1]; }
      FirstBlock(tail, rest);
      assert s[0] == b[0] && s[1..] == tail + "\n\n" + rest;
      if b[0] == '\n' { assert s[1] == b[1]; }
      assert ([tail] + Blocks(rest))[1..] == Blocks(rest);
      assert [b[0]] + tail == b;
    }
  }

  lemma DumpNoBreaks(v: Json)
    requires WellFormed(v)
    ensures NoBreaks(Dump(v))
  {
    DumpPrintable(v);
  }

  lemma BlockClosable(i: Item)
    requires Printed(i)
    ensures Closable(Block(i)) && Block(i) != "" && Block(i)[0] != '\n' && '\r' !in Block(i)
  {
    if i.Sent? {
      DumpNoBreaks(i.data);
      var head, tail := "event: " + i.event, "data: " + Dump(i.data);
      assert '\n' !in head && '\n' !in tail && '\r' !in head && '\r' !in tail;
      var b := Block(i);
      assert b == head + "\n" + tail;
      assert forall k :: 0 <= k < |b| ==> b[k] == if k < |head| then head[k] else if k == |head| then '\n' else tail[k - |head| - 1];
    }
  }

  lemma EventLine(b: BlockState, event: string)
    requires event != ""
    ensures ReadLine(b, "event: " + event) == b.(name := event)
  {
    FindAfter("event", ':', " " + event);
    var line := "event: " + event;
    assert line == "event" + [':'] + (" " + event);
    assert line[..5] == "event" && line[6..] == " " + event && (" " + event)[1..] == event;
  }

  lemma DataLine(b: BlockState, text: string)
    ensures ReadLine(b, "data: " + text) == b.(data := b.data + [text])
  {
    FindAfter("data", ':', " " + text);
    var line := "data: " + text;
    assert line == "data" + [':'] + (" " + text);
    assert line[..4] == "data" && line[5..] == " " + text && (" " + text)[1..] == text;
  }

  lemma ReadPrintedLines(event: string, text: string)
    requires event != "" && NoBreaks(event) && NoBreaks(text)
    ensures ReadLines(NEW_BLOCK, Split("event: " + event + "\n" + ("data: " + text), '\n')) == BlockState(event, [text])
  {
    var head, tail := "event: " + event, "data: " + text;
    SplitAt(head, '\n', tail);
    SplitNothing(head, '\n');
    SplitNothing(tail, '\n');
    assert head + "\n" + tail == head + ['\n'] + tail;
    assert [head] + [tail] == [head, tail] && [head, tail][1..] == [tail];
    EventLine(NEW_BLOCK, event);
    DataLine(BlockState(event, []), text);
    assert ReadLines(NEW_BLOCK, [head, tail]) == ReadLines(BlockState(event, []), [tail]);
    assert ReadLines(BlockState(event, []), [tail]) == ReadLines(BlockState(event, [text]), []);
  }

  lemma ReadHeartbeat()
    ensures ReadBlock(HEARTBEAT_BLOCK) == Ok([])
  {
    SplitNothing(HEARTBEAT_BLOCK, '\n');
    assert [HEARTBEAT_BLOCK][1..] == [];
    assert ReadLines(NEW_BLOCK, [HEARTBEAT_BLOCK]) == ReadLines(ReadLine(NEW_BLOCK, HEARTBEAT_BLOCK), []);
  }

  lemma ReadEvent(event: string, data: Json)
    requires Printed(Sent(event, data))
    ensures ReadBlock(EventBlock(event, data)) == Ok([(event, data)])
  {
    var block := EventBlock(event, data);
    DumpNoBreaks(data);
    ReadPrintedLines(event, Dump(data));
    LoadsDump(data);
    assert !AllBlank(block) by { assert block[0] == 'e'; }
    assert Join([Dump(data)], '\n') == Dump(data);
  }

  lemma ReadItem(i: Item)
    requires Printed(i)
    ensures ReadBlock(Block(i)) == Ok(EventOf(i))
  {
    match i {
      case Beat => ReadHeartbeat();
      case Sent(event, data) => ReadEvent(event, data);
    }
  }

  lemma ReadFirst(block: string, first: Events, rest: seq<string>, later: Events)
    requires ReadBlock(block) == Ok(first) && ReadBlocks(rest) == Ok(later)
    ensures ReadBlocks([block] + rest) == Ok(first + later)
  {
    assert ([block] + rest)[1..] == rest;
  }

  lemma {:induction false} PrintedClean(items: seq<Item>)
    requires forall k :: 0 <= k < |items| ==> Printed(items[k])
    ensures '\r' !in Print(items) && (Print(items) == "" || Print(items)[0] != '\n')
  {
    if items != [] {
      PrintedClean(items[1..]);
      BlockClosable(items[0]);
    }
  }

  lemma {:induction false} ReadPrintedText(items: seq<Item>)
    requires forall k :: 0 <= k < |items| ==> Printed(items[k])
    ensures ReadBlocks(Blocks(Print(items))) == Ok(EventsOf(items))
  {
    if items == [] {
      var none: Events := [];
      assert Blocks("") == [""] && ReadBlock("") == Ok(none) && ReadBlocks([]) == Ok(none);
      ReadFirst("", none, [], none);
      assert [""] + [] == [""] && none + none == none;
    } else {
      ReadPrintedText(items[1..]);
      PrintedClean(items[1..]);
      BlockClosable(items[0]);
      FirstBlock(Block(items[0]), Print(items[1..]));
      ReadItem(items[0]);
      ReadFirst(Block(items[0]), EventOf(items[0]), Blocks(Print(items[1..])), EventsOf(items[1..]));
    }
  }

  /**
   Parsing inverts printing: however the bytes of a stream are cut, even inside a character, the parser
   returns exactly its events, in order, and nothing for its heartbeats.
   */
  lemma ParseInvertsPrint(items: seq<Item>, chunks: seq<seq<Byte>>)
    requires forall k :: 0 <= k < |items| ==> Printed(items[k])
    requires Concat(chunks) == Encode(Print(items))
    ensures Parse(AsChunks(chunks)) == Ok(EventsOf(items))
  {
    ChunksDecodeAsWhole(Start, chunks);
    DecodeEncode(Print(items));
    ReadPrintedText(items);
    PrintedClean(items);
    NormalizeNothing(Print(items));
  }
}
