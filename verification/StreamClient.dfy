/** What a folding client makes of the bytes of a stream (backend/sse.py). */
module StreamClient {
  import opened Results
  import opened Sanitizer
  import opened SseEvent
  import S = Stream
  import StreamSafety
  import StreamFilter
  import J = Json
  import F = SseFormat
  import U = Utf8

  // ---------------------------------------------------------------- the events on the wire

  const ANSWER: string := "answer"

  function NameOf(e: S.Event): string {
    match e
    case Status(_) => "status"
    case Sources => "sources"
    case Token(_) => TOKEN
    case AnswerReplace(_, _) => "answer_replace"
    case Error(_, _, _) => "error"
    case Done(_, _) => "done"
    case Heartbeat => ""
  }

  /** The data of an event; those of events without a text to fold are given by `other`. */
  function DataOf(e: S.Event, other: S.Event -> seq<(Key, Value)>): seq<(Key, Value)> {
    match e
    case Token(t) => [(Text(TOKEN), Str(t))]
    case AnswerReplace(a, reason) => [(Text(ANSWER), Str(a)), (Text("reason"), Str(reason))]
    case _ => other(e)
  }

  function Wire(events: seq<S.Event>, other: S.Event -> seq<(Key, Value)>): (sent: seq<Yielded>)
    ensures |sent| == |events|
    ensures forall i :: 0 <= i < |sent| ==> sent[i] == WireOf(events[i], other)
  {
    if events == [] then [] else [WireOf(events[0], other)] + Wire(events[1..], other)
  }

  function WireOf(e: S.Event, other: S.Event -> seq<(Key, Value)>): Yielded {
    if e.Heartbeat? then Heartbeat else Event(NameOf(e), DataOf(e, other))
  }

  // ---------------------------------------------------------------- the client

  /** A text field of an object. */
  function TextField(data: J.Json, key: string): Option<string> {
    if data.Obj? then TextIn(data.fields, key) else None
  }

  function TextIn(fields: seq<(string, J.Json)>, key: string): Option<string> {
    if fields == [] then None
    else if fields[0].0 == key then (if fields[0].1.Str? then Some(fields[0].1.s) else None)
    else TextIn(fields[1..], key)
  }

  /** Tokens append and replacements overwrite; a field that is missing changes nothing. */
  function ClientStep(shown: string, event: string, data: J.Json): string {
    if event == TOKEN then
      match TextField(data, TOKEN) case None => shown case Some(t) => shown + t
    else if event == "answer_replace" then
      match TextField(data, ANSWER) case None => shown case Some(a) => a
    else shown
  }

  function ClientShown(shown: string, events: F.Events): string
    decreases |events|
  {
    if events == [] then shown else ClientShown(ClientStep(shown, events[0].0, events[0].1), events[1..])
  }

  // ---------------------------------------------------------------- the filter is the sanitizer's

  lemma StringsOnly(v: Value, render: real -> string)
    ensures ToJson(v, render).Str? <==> v.Str?
    ensures v.Str? ==> ToJson(v, render).s == v.s
  {
  }

  lemma {:induction false} TextOfJson(fields: seq<(Key, Value)>, key: string, render: real -> string)
    requires key != ""
    ensures TextIn(FieldsToJson(fields, render), key) == if Get(fields, key).Str? then Some(Get(fields, key).s) else None
  {
    if fields != [] {
      TextOfJson(fields[1..], key, render);
      StringsOnly(fields[0].1, render);
      assert FieldsToJson(fields, render)[0] == (Name(fields[0].0), ToJson(fields[0].1, render));
      assert FieldsToJson(fields, render)[1..] == FieldsToJson(fields[1..], render);
    }
  }

  lemma TokenPayload(t: string, p: Policy, other: S.Event -> seq<(Key, Value)>)
    requires !p.sensitive("value")
    ensures Get(Payload(TOKEN, DataOf(S.Token(t), other), p), TOKEN) == if p.localPath(t) then Nothing else Str(t)
  {
    TokenKept(DataOf(S.Token(t), other), p);
  }

  lemma ReplacePayload(a: string, reason: string, p: Policy, other: S.Event -> seq<(Key, Value)>)
    requires !p.sensitive(ANSWER)
    ensures Get(Payload("answer_replace", DataOf(S.AnswerReplace(a, reason), other), p), ANSWER) == if p.localPath(a) then Nothing else Str(a)
  {
    var data := DataOf(S.AnswerReplace(a, reason), other);
    assert "answer_replace" != TOKEN && ANSWER != STAGE_MS && ANSWER != "reason";
    GetSanitized(data, ANSWER, p);
  }

  /** The client makes of one event what the filtered fold makes of it, with the sanitizer's test for local paths. */
  lemma ClientStepIsFiltered(shown: string, e: S.Event, p: Policy, render: real -> string, other: S.Event -> seq<(Key, Value)>)
    requires !p.sensitive("value") && !p.sensitive(ANSWER)
    ensures ClientStep(shown, NameOf(e), ToJson(Dict(Payload(NameOf(e), DataOf(e, other), p)), render))
            == StreamFilter.FilteredStep(shown, e, p.localPath)
  {
    var payload := Payload(NameOf(e), DataOf(e, other), p);
    TextOfJson(payload, TOKEN, render);
    TextOfJson(payload, ANSWER, render);
    match e {
      case Token(t) => TokenPayload(t, p, other);
      case AnswerReplace(a, reason) => ReplacePayload(a, reason, p, other);
      case _ =>
    }
  }

  lemma {:induction false} ClientShownIsFiltered(shown: string, events: seq<S.Event>, p: Policy, render: real -> string, other: S.Event -> seq<(Key, Value)>)
    requires !p.sensitive("value") && !p.sensitive(ANSWER)
    ensures ClientShown(shown, SanitizedEvents(Wire(events, other), p, render)) == StreamFilter.FilteredShown(shown, events, p.localPath)
    decreases |events|
  {
    if events != [] {
      var e, rest := events[0], SanitizedEvents(Wire(events[1..], other), p, render);
      assert Wire(events, other)[1..] == Wire(events[1..], other);
      ClientStepIsFiltered(shown, e, p, render, other);
      ClientShownIsFiltered(StreamFilter.FilteredStep(shown, e, p.localPath), events[1..], p, render, other);
      if e.Heartbeat? {
        assert [] + rest == rest;
      } else {
        var first := (NameOf(e), ToJson(Dict(Payload(NameOf(e), DataOf(e, other), p)), render));
        assert ([first] + rest)[1..] == rest;
      }
    }
  }

  /** The other data are Python dictionaries. */
  ghost predicate Dictionaries(other: S.Event -> seq<(Key, Value)>) { forall e :: Keyed(Dict(other(e))) }

  lemma WireSendable(e: S.Event, other: S.Event -> seq<(Key, Value)>)
    requires Dictionaries(other) && !e.Heartbeat?
    ensures Sendable(NameOf(e), DataOf(e, other))
  {
    assert Keyed(Dict(other(e)));
    assert ANSWER != "reason";
    assert F.NoBreaks(NameOf(e)) && NameOf(e) != "";
  }

  /**
   From the bytes of a finished run, however they are cut, a folding client gets the answer if it corrects the
   draft and is no local path, and else the values of the upstream that are no local paths.
   */
  lemma ClientReadsAnswer(s: S.Script, p: Policy, render: real -> string, other: S.Event -> seq<(Key, Value)>, chunks: seq<seq<Byte>>)
    requires !p.sensitive("value") && !p.sensitive(ANSWER) && Dictionaries(other) && forall r :: J.IsNumber(render(r))
    requires S.Completed(S.Emitted(s)) && s.prepare.result.Some? && s.prepare.result.value.mode != "none"
    requires F.Concat(chunks) == U.Encode(SentText(Wire(S.Emitted(s), other), p, render))
    ensures F.Parse(F.AsChunks(chunks)).Ok? && s.finalize.result.Some?
    ensures ClientShown("", F.Parse(F.AsChunks(chunks)).value)
            == StreamFilter.Corrected(StreamFilter.Visible(s.upstream, p.localPath), StreamFilter.Draft(s.upstream),
                                      s.finalize.result.value.answer, p.localPath)
  {
    var events := S.Emitted(s);
    var sent := Wire(events, other);
    forall i | 0 <= i < |sent| && sent[i].Event? ensures Sendable(sent[i].name, sent[i].data) { WireSendable(events[i], other); }
    EvaluatorReadsWhatIsSent(sent, p, render, chunks);
    ClientShownIsFiltered("", events, p, render, other);
    StreamFilter.FilteredAtDone(s, p.localPath);
  }
}
