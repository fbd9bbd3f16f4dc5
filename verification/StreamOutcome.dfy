/** How every run of the staged answer stream ends, and what it has sent by then (backend/sse.py). */
module StreamOutcome {
  import opened Results
  import opened Stream
  import opened StreamSafety
  import StreamFilter

  // ---------------------------------------------------------------- waiting

  /** While waiting, a poll finds the client gone. */
  ghost predicate Gone(rounds: seq<Round>) {
    exists i: nat :: GoneAt(rounds, i)
  }

  ghost predicate GoneAt(rounds: seq<Round>, i: nat) {
    i < |rounds| && rounds[i].disconnected && forall j :: 0 <= j < i ==> !rounds[j].disconnected && rounds[j].timedOut
  }

  /** Each time-out before the task is done or the client gone gives one heartbeat. */
  lemma {:induction false} WaitExact(rounds: seq<Round>)
    ensures var n := Wait(rounds).0;
      && n <= |rounds| && (forall i :: 0 <= i < n ==> !rounds[i].disconnected && rounds[i].timedOut)
      && (n < |rounds| ==> rounds[n].disconnected || !rounds[n].timedOut)
    ensures Wait(rounds).1 <==> Gone(rounds)
  {
    if rounds != [] {
      WaitExact(rounds[1..]);
      if !rounds[0].disconnected && rounds[0].timedOut {
        GoneStep(rounds);
        forall i | 1 <= i < Wait(rounds).0 ensures !rounds[i].disconnected && rounds[i].timedOut { assert rounds[i] == rounds[1..][i - 1]; }
      } else if rounds[0].disconnected {
        assert GoneAt(rounds, 0);
      } else {
        forall i: nat ensures !GoneAt(rounds, i) {}
      }
    }
  }

  lemma GoneStep(rounds: seq<Round>)
    requires rounds != [] && !rounds[0].disconnected && rounds[0].timedOut
    ensures Gone(rounds) <==> Gone(rounds[1..])
  {
    if Gone(rounds) {
      var i: nat :| GoneAt(rounds, i);
      assert GoneAt(rounds[1..], i - 1);
    }
    if Gone(rounds[1..]) {
      var i: nat :| GoneAt(rounds[1..], i);
      forall j | 0 <= j < i + 1 ensures !rounds[j].disconnected && rounds[j].timedOut { if j > 0 { assert rounds[j] == rounds[1..][j - 1]; } }
      assert GoneAt(rounds, i + 1);
    }
  }

  // ---------------------------------------------------------------- the upstream

  function RoundsAt<T>(items: seq<Task<T>>, last: Task<()>, i: nat): seq<Round>
    requires i <= |items|
  {
    if i < |items| then items[i].rounds else last.rounds
  }

  predicate FailsAt<T>(items: seq<Task<T>>, last: Task<()>, i: nat)
    requires i <= |items|
  {
    if i < |items| then items[i].result.None? else last.result.None?
  }

  /** The value at i, or the end, is received. */
  ghost predicate Comes<T>(items: seq<Task<T>>, last: Task<()>, i: nat)
    requires i <= |items|
  {
    !Gone(RoundsAt(items, last, i)) && !FailsAt(items, last, i)
  }

  ghost predicate LostAt<T>(items: seq<Task<T>>, last: Task<()>, i: nat) {
    i <= |items| && Gone(RoundsAt(items, last, i)) && forall j :: 0 <= j < i ==> Comes(items, last, j)
  }

  ghost predicate RaisesAt<T>(items: seq<Task<T>>, last: Task<()>, i: nat) {
    i <= |items| && !Gone(RoundsAt(items, last, i)) && FailsAt(items, last, i) && forall j :: 0 <= j < i ==> Comes(items, last, j)
  }

  /** The client is found gone while waiting for the upstream. */
  ghost predicate Lost<T>(items: seq<Task<T>>, last: Task<()>) { exists i: nat :: LostAt(items, last, i) }

  /** The upstream raises, and the client is still there. */
  ghost predicate Raises<T>(items: seq<Task<T>>, last: Task<()>) { exists i: nat :: RaisesAt(items, last, i) }

  lemma NoItems<T>(last: Task<()>)
    ensures Lost<T>([], last) <==> Gone(last.rounds)
    ensures Raises<T>([], last) <==> !Gone(last.rounds) && last.result.None?
  {
    if Gone(last.rounds) { assert LostAt<T>([], last, 0); }
    if !Gone(last.rounds) && last.result.None? { assert RaisesAt<T>([], last, 0); }
  }

  lemma FirstItem<T>(items: seq<Task<T>>, last: Task<()>)
    requires items != []
    ensures Gone(items[0].rounds) ==> Lost(items, last) && !Raises(items, last)
    ensures !Gone(items[0].rounds) && items[0].result.None? ==> Raises(items, last) && !Lost(items, last)
  {
    if Gone(items[0].rounds) { assert LostAt(items, last, 0); }
    if !Gone(items[0].rounds) && items[0].result.None? { assert RaisesAt(items, last, 0); }
    if !Comes(items, last, 0) {
      forall i: nat | i > 0 ensures !LostAt(items, last, i) && !RaisesAt(items, last, i) {}
    }
  }

  lemma LaterItems<T>(items: seq<Task<T>>, last: Task<()>)
    requires items != [] && Comes(items, last, 0)
    ensures Lost(items, last) <==> Lost(items[1..], last)
    ensures Raises(items, last) <==> Raises(items[1..], last)
  {
    forall i: nat | i > 0 ensures LostAt(items, last, i) <==> LostAt(items[1..], last, i - 1) { LaterAt(items, last, i); }
    forall i: nat | i > 0 ensures RaisesAt(items, last, i) <==> RaisesAt(items[1..], last, i - 1) { LaterAt(items, last, i); }
    if Lost(items[1..], last) { var i: nat :| LostAt(items[1..], last, i); assert LostAt(items, last, i + 1); }
    if Raises(items[1..], last) { var i: nat :| RaisesAt(items[1..], last, i); assert RaisesAt(items, last, i + 1); }
  }

  lemma LaterAt<T>(items: seq<Task<T>>, last: Task<()>, i: nat)
    requires items != [] && Comes(items, last, 0) && i > 0
    ensures LostAt(items, last, i) <==> LostAt(items[1..], last, i - 1)
    ensures RaisesAt(items, last, i) <==> RaisesAt(items[1..], last, i - 1)
  {
    if i <= |items| {
      forall j | 0 <= j < i - 1 ensures Comes(items[1..], last, j) == Comes(items, last, j + 1) {}
      if forall j :: 0 <= j < i - 1 ==> Comes(items[1..], last, j) {
        forall j | 0 <= j < i ensures Comes(items, last, j) { if j > 0 { assert Comes(items[1..], last, j - 1); } }
      }
    }
  }

  /** The time-outs while the values are awaited, up to the one that does not come. */
  function TimeOuts<T>(items: seq<Task<T>>, last: Task<()>): nat {
    if items == [] then Wait(last.rounds).0
    else Wait(items[0].rounds).0 + if Wait(items[0].rounds).1 || items[0].result.None? then 0 else TimeOuts(items[1..], last)
  }

  /** The values that arrive before one does not. */
  function Arrived<T>(items: seq<Task<T>>): seq<T> {
    if items == [] || Wait(items[0].rounds).1 || items[0].result.None? then [] else [items[0].result.value] + Arrived(items[1..])
  }

  /** Unless the client is found gone, these are all the values. */
  lemma {:induction false} AllArrived<T>(items: seq<Task<T>>, last: Task<()>)
    requires !Lost(items, last)
    ensures Arrived(items) == Leading(items)
  {
    if items != [] {
      WaitExact(items[0].rounds);
      FirstItem(items, last);
      if Comes(items, last, 0) {
        LaterItems(items, last);
        AllArrived(items[1..], last);
      }
    }
  }

  function PulseCount<T>(pulses: seq<Pulse<T>>): nat {
    if pulses == [] then 0 else (if pulses[0].Beat? then 1 else 0) + PulseCount(pulses[1..])
  }

  lemma {:induction false} PulseCountConcat<T>(a: seq<Pulse<T>>, b: seq<Pulse<T>>)
    ensures PulseCount(a + b) == PulseCount(a) + PulseCount(b)
  {
    if a == [] {
      assert a + b == b;
    } else {
      assert (a + b)[1..] == a[1..] + b;
      PulseCountConcat(a[1..], b);
    }
  }

  lemma {:induction false} PulseBeatsCount<T>(n: nat)
    ensures PulseCount(PulseBeats<T>(n)) == n
  {
    if n > 0 {
      assert PulseBeats<T>(n)[1..] == PulseBeats<T>(n - 1);
      PulseBeatsCount<T>(n - 1);
    }
  }

  /** The waiting stream ends as its upstream does, unless the client is gone first, with a heartbeat for each time-out. */
  lemma {:induction false} PulsesExact<T>(items: seq<Task<T>>, last: Task<()>)
    ensures Pulses(items, last).1 == if Lost(items, last) then ClientGone else if Raises(items, last) then Raised else Exhausted
    ensures PulseCount(Pulses(items, last).0) == TimeOuts(items, last)
    decreases |items|
  {
    var n := Wait(if items == [] then last.rounds else items[0].rounds).0;
    PulseBeatsCount<T>(n);
    if items == [] {
      WaitExact(last.rounds);
      NoItems<T>(last);
    } else {
      WaitExact(items[0].rounds);
      FirstItem(items, last);
      if Comes(items, last, 0) {
        LaterItems(items, last);
        PulsesExact(items[1..], last);
        var item := [Item(items[0].result.value)];
        PulseCountConcat(PulseBeats<T>(n) + item, Pulses(items[1..], last).0);
        PulseCountConcat(PulseBeats<T>(n), item);
      }
    }
  }

  // ---------------------------------------------------------------- what has been sent

  function TokensIn(events: seq<Event>): seq<string> {
    if events == [] then [] else (if events[0].Token? then [events[0].token] else []) + TokensIn(events[1..])
  }

  function BeatsIn(events: seq<Event>): nat {
    if events == [] then 0 else (if events[0].Heartbeat? then 1 else 0) + BeatsIn(events[1..])
  }

  /** The terminal event at the end, if there is one. */
  function EndOf(events: seq<Event>): Option<Event> {
    if events != [] && Terminal(Last(events)) then Some(Last(events)) else None
  }

  lemma {:induction false} CountsConcat(a: seq<Event>, b: seq<Event>)
    ensures TokensIn(a + b) == TokensIn(a) + TokensIn(b) && BeatsIn(a + b) == BeatsIn(a) + BeatsIn(b)
  {
    if a == [] {
      assert a + b == b;
    } else {
      assert (a + b)[1..] == a[1..] + b;
      CountsConcat(a[1..], b);
    }
  }

  lemma SentConcat(a: seq<Event>, b: seq<Event>)
    ensures TokensIn(a + b) == TokensIn(a) + TokensIn(b) && BeatsIn(a + b) == BeatsIn(a) + BeatsIn(b)
    ensures EndOf(a + b) == if b == [] then EndOf(a) else EndOf(b)
  {
    CountsConcat(a, b);
    if b == [] { assert a + b == a; } else { assert Last(a + b) == Last(b); }
  }

  lemma {:induction false} BeatsSent(n: nat)
    ensures TokensIn(Beats(n)) == [] && BeatsIn(Beats(n)) == n && EndOf(Beats(n)) == None
  {
    if n > 0 {
      assert Beats(n)[1..] == Beats(n - 1);
      BeatsSent(n - 1);
    }
  }

  /** What events add up to: the tokens, the number of heartbeats, and the terminal event. */
  ghost predicate Sums(events: seq<Event>, tokens: seq<string>, beats: nat, end: Option<Event>) {
    TokensIn(events) == tokens && BeatsIn(events) == beats && EndOf(events) == end
  }

  lemma SumsAfterBeats(n: nat, rest: seq<Event>, tokens: seq<string>, beats: nat, end: Option<Event>)
    requires Sums(rest, tokens, beats, end)
    ensures Sums(Beats(n) + rest, tokens, n + beats, end)
  {
    BeatsSent(n);
    SentConcat(Beats(n), rest);
  }

  lemma SumsAfter(e: Event, rest: seq<Event>, tokens: seq<string>, beats: nat, end: Option<Event>)
    requires Sums(rest, tokens, beats, end) && !Terminal(e) && !e.Heartbeat?
    ensures Sums([e] + rest, (if e.Token? then [e.token] else []) + tokens, beats, end)
  {
    SentConcat([e], rest);
    OneSent(e);
  }

  lemma OneSent(e: Event)
    ensures Sums([e], if e.Token? then [e.token] else [], if e.Heartbeat? then 1 else 0, if Terminal(e) then Some(e) else None)
  {
    assert [e][1..] == [];
  }

  lemma FailureSums(message: string, during: Phase, partial: bool)
    ensures Sums(Failure(message, during, partial), [], 0, Some(Error(message, during, partial)))
  {
    var e := Error(message, during, partial);
    OneSent(e);
    SumsAfter(Status(FailedPhase), [e], [], 0, Some(e));
    assert Failure(message, during, partial) == [Status(FailedPhase)] + [e];
  }

  // ---------------------------------------------------------------- how a run ends

  predicate Generates(s: Script) { s.prepare.result.Some? && s.prepare.result.value.mode != "none" }

  function DraftOf(s: Script): string { if Generates(s) then StreamFilter.Draft(s.upstream) else "" }

  predicate Corrects(s: Script, mode: string, draft: string) {
    s.finalize.result.Some? && mode != "none" && draft != s.finalize.result.value.answer
  }

  /** Nothing stops the last stage: the client stays, and the packet can be sent and recorded. */
  ghost predicate LastStageHeld(s: Script, mode: string, draft: string) {
    && !Gone(s.finalize.rounds)
    && (s.finalize.result.Some? ==>
          !s.serializeFails && !s.goneBeforeDone && !s.turnFails && (Corrects(s, mode, draft) ==> !s.goneBeforeCorrection))
  }

  /** Nothing cuts the run short: no poll that is made finds the client gone, and nothing fails outside the three stages. */
  ghost predicate Unabandoned(s: Script) {
    && !s.goneAtStart && !s.goneBeforeRetrieving && !Gone(s.prepare.rounds)
    && (s.prepare.result.Some? ==>
          && !s.goneAfterPrepare && !s.sourcesFail
          && (Generates(s) ==> !s.goneBeforeGenerating && !Lost(s.upstream, s.upstreamEnd))
          && (!UpstreamRaises(s) ==>
                && (Generates(s) ==> !s.goneAfterGenerating)
                && LastStageHeld(s, s.prepare.result.value.mode, DraftOf(s))))
  }

  ghost predicate UpstreamRaises(s: Script) { Generates(s) && Raises(s.upstream, s.upstreamEnd) }

  /** The values that are not empty. */
  function NonEmpty(values: seq<string>): seq<string> {
    if values == [] then [] else (if values[0] == "" then [] else [values[0]]) + NonEmpty(values[1..])
  }

  function Values(s: Script): seq<string> { if Generates(s) then NonEmpty(Leading(s.upstream)) else [] }

  /** The terminal event of a run that is not cut short: the failure of the first stage that fails, or `done`. */
  ghost function Outcome(s: Script): Event {
    if s.prepare.result.None? then Error("问答处理失败，请稍后重试。", Retrieving, false)
    else if UpstreamRaises(s) then Error("回答生成失败，请稍后重试。", Generating, Values(s) != [])
    else if s.finalize.result.None? then Error("回答校验失败，请稍后重试。", Validating, false)
    else Done(s.finalize.result.value.answer, Corrects(s, s.prepare.result.value.mode, DraftOf(s)))
  }

  /** The time-outs of the stages that are reached. */
  ghost function AllTimeOuts(s: Script): nat {
    Wait(s.prepare.rounds).0
    + (if Generates(s) then TimeOuts(s.upstream, s.upstreamEnd) else 0)
    + (if s.prepare.result.Some? && !UpstreamRaises(s) then Wait(s.finalize.rounds).0 else 0)
  }

  ghost function EndOfFinalizing(s: Script, mode: string, draft: string): Option<Event> {
    if !LastStageHeld(s, mode, draft) then None
    else if s.finalize.result.None? then Some(Error(SAFE_VALIDATION_ERROR, Validating, false))
    else Some(Done(s.finalize.result.value.answer, Corrects(s, mode, draft)))
  }

  lemma FinishingSums(s: Script, p: Prepared, draft: string, packet: Packet)
    requires s.finalize.result == Some(packet) && !s.serializeFails && !Gone(s.finalize.rounds)
    ensures Sums(Finishing(s, p, draft, packet), [], 0, EndOfFinalizing(s, p.mode, draft))
  {
    var corrected := p.mode != "none" && draft != packet.answer;
    var last := if s.goneBeforeDone || s.turnFails then [] else [Done(packet.answer, corrected)];
    var end := if last == [] then None else Some(last[0]);
    OneSent(Done(packet.answer, corrected));
    assert Sums(last, [], 0, end);
    if corrected && !s.goneBeforeCorrection {
      var replace := AnswerReplace(packet.answer, "citation_validation");
      SumsAfter(Status(CorrectedPhase), last, [], 0, end);
      SumsAfter(replace, [Status(CorrectedPhase)] + last, [], 0, end);
      assert [replace, Status(CorrectedPhase)] + last == [replace] + ([Status(CorrectedPhase)] + last);
    }
  }

  lemma FallbackSums(draft: string)
    ensures Sums((if draft != "" then [AnswerReplace(SAFE_VALIDATION_FALLBACK, "safe_fallback")] else []) + Failure(SAFE_VALIDATION_ERROR, Validating, false),
                 [], 0, Some(Error(SAFE_VALIDATION_ERROR, Validating, false)))
  {
    var failure := Failure(SAFE_VALIDATION_ERROR, Validating, false);
    FailureSums(SAFE_VALIDATION_ERROR, Validating, false);
    SumsAfter(AnswerReplace(SAFE_VALIDATION_FALLBACK, "safe_fallback"), failure, [], 0, Some(failure[1]));
    assert [] + failure == failure;
  }

  lemma FinalizingSums(s: Script, p: Prepared, draft: string)
    ensures Sums(Finalizing(s, p, draft), [], Wait(s.finalize.rounds).0, EndOfFinalizing(s, p.mode, draft))
  {
    var (k, gone) := Wait(s.finalize.rounds);
    var rest := Finalizing(s, p, draft)[k..];
    assert Finalizing(s, p, draft) == Beats(k) + rest;
    WaitExact(s.finalize.rounds);
    if !gone {
      match s.finalize.result {
        case None => FallbackSums(draft);
        case Some(packet) => if !s.serializeFails { FinishingSums(s, p, draft, packet); }
      }
    }
    SumsAfterBeats(k, rest, [], 0, EndOfFinalizing(s, p.mode, draft));
  }

  /** How the rest of the streaming stage ends, after some text was sent. */
  ghost function EndOfStreaming(s: Script, mode: string, items: seq<Task<string>>, draft: string): Option<Event> {
    if Lost(items, s.upstreamEnd) then None
    else if Raises(items, s.upstreamEnd) then Some(Error(SAFE_STREAM_ERROR, Generating, draft != "" || NonEmpty(Leading(items)) != []))
    else if s.goneAfterGenerating then None
    else EndOfFinalizing(s, mode, draft + StreamFilter.Draft(items))
  }

  /** Heartbeats of the rest of the streaming stage and of what follows. */
  ghost function BeatsOfStreaming(s: Script, items: seq<Task<string>>): nat {
    TimeOuts(items, s.upstreamEnd) + if Lost(items, s.upstreamEnd) || Raises(items, s.upstreamEnd) || s.goneAfterGenerating then 0 else Wait(s.finalize.rounds).0
  }

  ghost predicate StreamingSums(s: Script, p: Prepared, items: seq<Task<string>>, draft: string) {
    var events := Streaming(s, p, items, draft);
    && EndOf(events) == EndOfStreaming(s, p.mode, items, draft)
    && BeatsIn(events) == BeatsOfStreaming(s, items)
    && TokensIn(events) == NonEmpty(Arrived(items))
  }

  lemma StreamingEnd(s: Script, p: Prepared, draft: string)
    ensures StreamingSums(s, p, [], draft)
  {
    var (k, gone) := Wait(s.upstreamEnd.rounds);
    var rest := Streaming(s, p, [], draft)[k..];
    assert Streaming(s, p, [], draft) == Beats(k) + rest;
    WaitExact(s.upstreamEnd.rounds);
    NoItems<string>(s.upstreamEnd);
    FailureSums(SAFE_STREAM_ERROR, Generating, draft != "");
    FinalizingSums(s, p, draft);
    assert draft + StreamFilter.Draft([]) == draft;
    if !gone && s.upstreamEnd.result.Some? && !s.goneAfterGenerating {
      SumsAfter(Status(Validating), Finalizing(s, p, draft), [], Wait(s.finalize.rounds).0, EndOfFinalizing(s, p.mode, draft));
    }
    SumsAfterBeats(k, rest, TokensIn(rest), BeatsIn(rest), EndOf(rest));
  }

  lemma {:induction false} StreamingOutcome(s: Script, p: Prepared, items: seq<Task<string>>, draft: string)
    ensures StreamingSums(s, p, items, draft)
    decreases |items|
  {
    if items == [] {
      StreamingEnd(s, p, draft);
    } else {
      var (k, gone) := Wait(items[0].rounds);
      var rest := Streaming(s, p, items, draft)[k..];
      assert Streaming(s, p, items, draft) == Beats(k) + rest;
      WaitExact(items[0].rounds);
      FirstItem(items, s.upstreamEnd);
      SumsAfterBeats(k, rest, TokensIn(rest), BeatsIn(rest), EndOf(rest));
      if !gone {
        match items[0].result {
          case None => FailureSums(SAFE_STREAM_ERROR, Generating, draft != "");
            assert Leading(items) == Arrived(items) == [] && NonEmpty([]) == [];
          case Some(t) =>
            StreamingOutcome(s, p, items[1..], draft + t);
            StreamingStep(s, p, items, draft, t);
        }
      }
    }
  }

  /** What one more value adds to the streaming stage. */
  lemma StreamingStep(s: Script, p: Prepared, items: seq<Task<string>>, draft: string, t: string)
    requires items != [] && !Wait(items[0].rounds).1 && items[0].result == Some(t) && StreamingSums(s, p, items[1..], draft + t)
    requires var k := Wait(items[0].rounds).0; var rest := Streaming(s, p, items, draft)[k..];
      Sums(Streaming(s, p, items, draft), TokensIn(rest), k + BeatsIn(rest), EndOf(rest))
    ensures StreamingSums(s, p, items, draft)
  {
    var k := Wait(items[0].rounds).0;
    var more := Streaming(s, p, items[1..], draft + t);
    var rest := Streaming(s, p, items, draft)[k..];
    WaitExact(items[0].rounds);
    LaterItems(items, s.upstreamEnd);
    assert rest == (if t == "" then [] else [Token(t)]) + more;
    OneValue(t, more);
    OneValueLater(s, p.mode, items, draft, t);
  }

  lemma OneValue(t: string, more: seq<Event>)
    ensures var rest := (if t == "" then [] else [Token(t)]) + more;
      TokensIn(rest) == (if t == "" then [] else [t]) + TokensIn(more) && BeatsIn(rest) == BeatsIn(more) && EndOf(rest) == EndOf(more)
  {
    if t == "" {
      assert [] + more == more;
    } else {
      SumsAfter(Token(t), more, TokensIn(more), BeatsIn(more), EndOf(more));
    }
  }

  lemma OneValueLater(s: Script, mode: string, items: seq<Task<string>>, draft: string, t: string)
    requires items != [] && Comes(items, s.upstreamEnd, 0) && items[0].result == Some(t)
    ensures EndOfStreaming(s, mode, items, draft) == EndOfStreaming(s, mode, items[1..], draft + t)
    ensures BeatsOfStreaming(s, items) == Wait(items[0].rounds).0 + BeatsOfStreaming(s, items[1..])
    ensures NonEmpty(Arrived(items)) == (if t == "" then [] else [t]) + NonEmpty(Arrived(items[1..]))
  {
    WaitExact(items[0].rounds);
    LaterItems(items, s.upstreamEnd);
    assert draft + t + StreamFilter.Draft(items[1..]) == draft + (t + StreamFilter.Draft(items[1..]));
    assert ([t] + Leading(items[1..]))[1..] == Leading(items[1..]) && ([t] + Arrived(items[1..]))[1..] == Arrived(items[1..]);
    if t == "" { assert draft + t == draft; }
  }

  lemma SourcingSums(s: Script, p: Prepared)
    requires s.prepare.result == Some(p) && !s.goneAfterPrepare && !s.sourcesFail
    ensures !Generates(s) ==> Sums(Sourcing(s, p), [], Wait(s.finalize.rounds).0, EndOfFinalizing(s, p.mode, ""))
    ensures Generates(s) && s.goneBeforeGenerating ==> Sums(Sourcing(s, p), [], 0, None)
    ensures Generates(s) && !s.goneBeforeGenerating ==>
      && EndOf(Sourcing(s, p)) == EndOfStreaming(s, p.mode, s.upstream, "")
      && BeatsIn(Sourcing(s, p)) == BeatsOfStreaming(s, s.upstream)
      && TokensIn(Sourcing(s, p)) == NonEmpty(Arrived(s.upstream))
  {
    OneSent(Sources);
    if !Generates(s) {
      FinalizingSums(s, p, "");
      SumsAfter(Sources, Finalizing(s, p, ""), [], Wait(s.finalize.rounds).0, EndOfFinalizing(s, p.mode, ""));
    } else if !s.goneBeforeGenerating {
      var more := Streaming(s, p, s.upstream, "");
      StreamingOutcome(s, p, s.upstream, "");
      SumsAfter(Status(Generating), more, TokensIn(more), BeatsIn(more), EndOf(more));
      SumsAfter(Sources, [Status(Generating)] + more, TokensIn(more), BeatsIn(more), EndOf(more));
    }
  }

  /** The end of a run whose preparation succeeded. */
  ghost function EndOfSourcing(s: Script): Option<Event>
    requires s.prepare.result.Some?
  {
    var mode := s.prepare.result.value.mode;
    if s.goneAfterPrepare || s.sourcesFail then None
    else if !Generates(s) then EndOfFinalizing(s, mode, "")
    else if s.goneBeforeGenerating then None
    else EndOfStreaming(s, mode, s.upstream, "")
  }

  lemma FullSums(s: Script)
    requires !s.goneAtStart && !s.goneBeforeRetrieving && !Gone(s.prepare.rounds)
    ensures s.prepare.result.None? ==> Sums(Full(s), [], Wait(s.prepare.rounds).0, Some(Error(PREPARE_ERROR, Retrieving, false)))
    ensures s.prepare.result.Some? ==>
      var sourcing := Sourcing(s, s.prepare.result.value);
      Sums(Full(s), TokensIn(sourcing), Wait(s.prepare.rounds).0 + BeatsIn(sourcing), EndOf(sourcing))
  {
    var k := Wait(s.prepare.rounds).0;
    WaitExact(s.prepare.rounds);
    FailureSums(PREPARE_ERROR, Retrieving, false);
    var rest := match s.prepare.result case None => Failure(PREPARE_ERROR, Retrieving, false) case Some(p) => Sourcing(s, p);
    assert Preparing(s) == Beats(k) + rest;
    SumsAfterBeats(k, rest, TokensIn(rest), BeatsIn(rest), EndOf(rest));
    SumsAfter(Status(Retrieving), Preparing(s), TokensIn(rest), k + BeatsIn(rest), EndOf(rest));
    SumsAfter(Status(Understanding), [Status(Retrieving)] + Preparing(s), TokensIn(rest), k + BeatsIn(rest), EndOf(rest));
  }

  /** The upstream is asked for its values. */
  ghost predicate Streams(s: Script) {
    && !s.goneAtStart && !s.goneBeforeRetrieving && !Gone(s.prepare.rounds)
    && Generates(s) && !s.goneAfterPrepare && !s.sourcesFail && !s.goneBeforeGenerating
  }

  /** A run that is cut short before the preparation is over has no terminal event. */
  lemma CutEarly(s: Script)
    requires s.goneAtStart || s.goneBeforeRetrieving || Gone(s.prepare.rounds)
    ensures EndOf(Full(s)) == None && TokensIn(Full(s)) == []
  {
    WaitExact(s.prepare.rounds);
    var k := Wait(s.prepare.rounds).0;
    BeatsSent(k);
    if !s.goneAtStart && !s.goneBeforeRetrieving {
      assert Preparing(s) == Beats(k) + [] && Beats(k) + [] == Beats(k);
      SentConcat([Status(Retrieving)], Beats(k));
      OneSent(Status(Retrieving));
      SentConcat([Status(Understanding)], [Status(Retrieving)] + Preparing(s));
    }
  }

  lemma EndOfSourcingIs(s: Script)
    requires s.prepare.result.Some? && !s.goneAtStart && !s.goneBeforeRetrieving && !Gone(s.prepare.rounds)
    ensures EndOfSourcing(s) == if Unabandoned(s) then Some(Outcome(s)) else None
  {
    assert "" + StreamFilter.Draft(s.upstream) == StreamFilter.Draft(s.upstream);
    if Generates(s) { NotBoth(s.upstream, s.upstreamEnd); }
  }

  lemma NotBoth<T>(items: seq<Task<T>>, last: Task<()>)
    ensures !(Lost(items, last) && Raises(items, last))
  {
    forall i: nat, j: nat ensures !(LostAt(items, last, i) && RaisesAt(items, last, j)) {
      assert i < j && RaisesAt(items, last, j) ==> Comes(items, last, i);
      assert j < i && LostAt(items, last, i) ==> Comes(items, last, j);
    }
  }

  /**
   A run that its consumer does not close ends with a terminal event exactly when nothing cuts it short: the error
   of the first stage that failed, with its message and phase and whether a token was sent, or `done`.  It has then
   sent the values of the upstream, in order, and a heartbeat for every time-out; cut short, the values that arrived.
   */
  lemma RunOutcome(s: Script)
    ensures EndOf(Full(s)) == if Unabandoned(s) then Some(Outcome(s)) else None
    ensures Unabandoned(s) ==> TokensIn(Full(s)) == Values(s) && BeatsIn(Full(s)) == AllTimeOuts(s)
    ensures TokensIn(Full(s)) == if Streams(s) then NonEmpty(Arrived(s.upstream)) else []
  {
    if !Lost(s.upstream, s.upstreamEnd) { AllArrived(s.upstream, s.upstreamEnd); }
    if s.goneAtStart || s.goneBeforeRetrieving || Gone(s.prepare.rounds) {
      CutEarly(s);
    } else {
      FullSums(s);
      if s.prepare.result.Some? {
        EndOfSourcingIs(s);
        if !s.goneAfterPrepare && !s.sourcesFail { SourcingSums(s, s.prepare.result.value); }
      }
    }
  }

  /** Closing the generator cuts the events off after the one at which it happens, and nothing else does. */
  lemma EmittedOutcome(s: Script)
    ensures Emitted(s) <= Full(s)
    ensures |Emitted(s)| == if s.closeAt.Some? && s.closeAt.value < |Full(s)| then s.closeAt.value + 1 else |Full(s)|
    ensures EndOf(Emitted(s)) == if Unabandoned(s) && |Emitted(s)| == |Full(s)| then Some(Outcome(s)) else None
  {
    RunOutcome(s);
    if EndOf(Emitted(s)).Some? { TerminalRunIsFull(s); }
    if |Emitted(s)| == |Full(s)| { assert Emitted(s) == Full(s); }
  }
}
