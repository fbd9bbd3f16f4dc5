/** The events of a run besides its tokens and heartbeats, one by one (backend/sse.py). */
module StreamMarks {
  import opened Results
  import opened Stream
  import opened StreamSafety
  import opened StreamOutcome
  import StreamFilter

  /** The events that are neither tokens nor heartbeats. */
  function Marks(events: seq<Event>): seq<Event> {
    if events == [] then [] else (if events[0].Token? || events[0].Heartbeat? then [] else [events[0]]) + Marks(events[1..])
  }

  lemma {:induction false} MarksConcat(a: seq<Event>, b: seq<Event>)
    ensures Marks(a + b) == Marks(a) + Marks(b)
  {
    if a == [] {
      assert a + b == b;
    } else {
      assert (a + b)[1..] == a[1..] + b;
      MarksConcat(a[1..], b);
    }
  }

  lemma {:induction false} BeatsUnmarked(n: nat, rest: seq<Event>)
    ensures Marks(Beats(n) + rest) == Marks(rest)
  {
    if n == 0 {
      assert Beats(0) + rest == rest;
    } else {
      assert (Beats(n) + rest)[0] == Heartbeat && (Beats(n) + rest)[1..] == Beats(n - 1) + rest;
      BeatsUnmarked(n - 1, rest);
    }
  }

  lemma OneMarked(e: Event, rest: seq<Event>)
    ensures Marks([e] + rest) == (if e.Token? || e.Heartbeat? then [] else [e]) + Marks(rest)
  {
    assert ([e] + rest)[1..] == rest;
  }

  lemma FailureMarked(message: string, during: Phase, partial: bool)
    ensures Marks(Failure(message, during, partial)) == [Status(FailedPhase), Error(message, during, partial)]
  {
    OneMarked(Status(FailedPhase), [Error(message, during, partial)]);
    OneMarked(Error(message, during, partial), []);
    assert Failure(message, during, partial) == [Status(FailedPhase)] + [Error(message, during, partial)];
  }

  // ---------------------------------------------------------------- what a run sends

  /** The last stage: the packet, as a correction where it is one, or the fallback for a draft that was shown. */
  function LastMarks(s: Script, mode: string, draft: string): seq<Event> {
    match s.finalize.result
    case None =>
      (if draft == "" then [] else [AnswerReplace(SAFE_VALIDATION_FALLBACK, "safe_fallback")])
      + [Status(FailedPhase), Error("回答校验失败，请稍后重试。", Validating, false)]
    case Some(packet) =>
      (if Corrects(s, mode, draft) then [AnswerReplace(packet.answer, "citation_validation"), Status(CorrectedPhase)] else [])
      + [Done(packet.answer, Corrects(s, mode, draft))]
  }

  ghost function GeneratingMarks(s: Script, mode: string): seq<Event> {
    [Status(Generating)] +
    if UpstreamRaises(s) then [Status(FailedPhase), Outcome(s)] else [Status(Validating)] + LastMarks(s, mode, DraftOf(s))
  }

  /** All events of a run that nothing cuts short, without its tokens and heartbeats. */
  ghost function AllMarks(s: Script): seq<Event> {
    [Status(Understanding), Status(Retrieving)] +
    match s.prepare.result
    case None => [Status(FailedPhase), Outcome(s)]
    case Some(p) => [Sources] + if Generates(s) then GeneratingMarks(s, p.mode) else LastMarks(s, p.mode, "")
  }

  // ---------------------------------------------------------------- stage by stage

  lemma FinishingMarked(s: Script, p: Prepared, draft: string, packet: Packet)
    requires s.finalize.result == Some(packet) && !s.serializeFails && !Gone(s.finalize.rounds)
    ensures Marks(Finishing(s, p, draft, packet)) <= LastMarks(s, p.mode, draft)
    ensures LastStageHeld(s, p.mode, draft) ==> Marks(Finishing(s, p, draft, packet)) == LastMarks(s, p.mode, draft)
  {
    var done := Done(packet.answer, Corrects(s, p.mode, draft));
    var last := if s.goneBeforeDone || s.turnFails then [] else [done];
    OneMarked(done, []);
    assert [done] + [] == [done] && Marks(last) == last;
    if Corrects(s, p.mode, draft) {
      var replace := AnswerReplace(packet.answer, "citation_validation");
      OneMarked(Status(CorrectedPhase), last);
      OneMarked(replace, [Status(CorrectedPhase)] + last);
      assert [replace, Status(CorrectedPhase)] + last == [replace] + ([Status(CorrectedPhase)] + last);
    }
  }

  lemma FinalizingMarked(s: Script, p: Prepared, draft: string)
    ensures Marks(Finalizing(s, p, draft)) <= LastMarks(s, p.mode, draft)
    ensures LastStageHeld(s, p.mode, draft) ==> Marks(Finalizing(s, p, draft)) == LastMarks(s, p.mode, draft)
  {
    var (k, gone) := Wait(s.finalize.rounds);
    var rest := Finalizing(s, p, draft)[k..];
    assert Finalizing(s, p, draft) == Beats(k) + rest;
    BeatsUnmarked(k, rest);
    WaitExact(s.finalize.rounds);
    if !gone {
      match s.finalize.result {
        case None =>
          var failure := Failure(SAFE_VALIDATION_ERROR, Validating, false);
          FailureMarked(SAFE_VALIDATION_ERROR, Validating, false);
          OneMarked(AnswerReplace(SAFE_VALIDATION_FALLBACK, "safe_fallback"), failure);
          assert [] + failure == failure;
        case Some(packet) => if !s.serializeFails { FinishingMarked(s, p, draft, packet); }
      }
    }
  }

  /** The rest of the streaming stage and what follows. */
  ghost function StreamingMarks(s: Script, p: Prepared, items: seq<Task<string>>, draft: string): seq<Event> {
    if Lost(items, s.upstreamEnd) then []
    else if Raises(items, s.upstreamEnd) then [Status(FailedPhase), Error(SAFE_STREAM_ERROR, Generating, draft != "" || NonEmpty(Leading(items)) != [])]
    else if s.goneAfterGenerating then []
    else [Status(Validating)] + Marks(Finalizing(s, p, draft + StreamFilter.Draft(items)))
  }

  lemma EndMarked(s: Script, p: Prepared, draft: string)
    ensures Marks(Streaming(s, p, [], draft)) == StreamingMarks(s, p, [], draft)
  {
    var (k, gone) := Wait(s.upstreamEnd.rounds);
    var rest := Streaming(s, p, [], draft)[k..];
    assert Streaming(s, p, [], draft) == Beats(k) + rest;
    BeatsUnmarked(k, rest);
    WaitExact(s.upstreamEnd.rounds);
    NoItems<string>(s.upstreamEnd);
    FailureMarked(SAFE_STREAM_ERROR, Generating, draft != "");
    OneMarked(Status(Validating), Finalizing(s, p, draft));
    assert draft + StreamFilter.Draft([]) == draft;
  }

  lemma ValueMarked(s: Script, p: Prepared, items: seq<Task<string>>, draft: string, t: string)
    requires items != [] && Comes(items, s.upstreamEnd, 0) && items[0].result == Some(t)
    ensures StreamingMarks(s, p, items, draft) == StreamingMarks(s, p, items[1..], draft + t)
  {
    LaterItems(items, s.upstreamEnd);
    assert draft + t + StreamFilter.Draft(items[1..]) == draft + (t + StreamFilter.Draft(items[1..]));
    assert ([t] + Leading(items[1..]))[1..] == Leading(items[1..]);
    if t == "" { assert draft + t == draft; }
  }

  lemma {:induction false} StreamingMarked(s: Script, p: Prepared, items: seq<Task<string>>, draft: string)
    ensures Marks(Streaming(s, p, items, draft)) == StreamingMarks(s, p, items, draft)
    decreases |items|
  {
    if items == [] {
      EndMarked(s, p, draft);
    } else {
      var (k, gone) := Wait(items[0].rounds);
      var rest := Streaming(s, p, items, draft)[k..];
      assert Streaming(s, p, items, draft) == Beats(k) + rest;
      BeatsUnmarked(k, rest);
      WaitExact(items[0].rounds);
      FirstItem(items, s.upstreamEnd);
      if !gone {
        match items[0].result {
          case None =>
            FailureMarked(SAFE_STREAM_ERROR, Generating, draft != "");
            assert Leading(items) == [] && NonEmpty([]) == [];
          case Some(t) =>
            var more := Streaming(s, p, items[1..], draft + t);
            StreamingMarked(s, p, items[1..], draft + t);
            ValueMarked(s, p, items, draft, t);
            OneMarked(Token(t), more);
            assert [] + more == more && [] + Marks(more) == Marks(more);
        }
      }
    }
  }

  lemma SourcingMarked(s: Script, p: Prepared)
    requires s.prepare.result == Some(p) && !s.goneAfterPrepare && !s.sourcesFail
    ensures Marks(Sourcing(s, p)) == [Sources] +
      if !Generates(s) then Marks(Finalizing(s, p, "")) else if s.goneBeforeGenerating then [] else [Status(Generating)] + StreamingMarks(s, p, s.upstream, "")
  {
    if !Generates(s) {
      OneMarked(Sources, Finalizing(s, p, ""));
    } else if s.goneBeforeGenerating {
      OneMarked(Sources, []);
      assert [Sources] + [] == [Sources];
    } else {
      var more := Streaming(s, p, s.upstream, "");
      StreamingMarked(s, p, s.upstream, "");
      OneMarked(Status(Generating), more);
      OneMarked(Sources, [Status(Generating)] + more);
    }
  }

  /** The sources are sent, and what follows them is part of what a run that is not cut short sends. */
  lemma SourcedMarks(s: Script, p: Prepared)
    requires s.prepare.result == Some(p) && !s.goneAfterPrepare && !s.sourcesFail
    ensures [Sources] <= Marks(Sourcing(s, p)) <= [Sources] + if Generates(s) then GeneratingMarks(s, p.mode) else LastMarks(s, p.mode, "")
    ensures Unabandoned(s) ==> Marks(Sourcing(s, p)) == [Sources] + if Generates(s) then GeneratingMarks(s, p.mode) else LastMarks(s, p.mode, "")
  {
    SourcingMarked(s, p);
    FinalizingMarked(s, p, "");
    FinalizingMarked(s, p, DraftOf(s));
    assert "" + StreamFilter.Draft(s.upstream) == StreamFilter.Draft(s.upstream);
    NotBoth(s.upstream, s.upstreamEnd);
  }

  lemma PreparingMarked(s: Script)
    ensures Marks(Preparing(s)) ==
      if Gone(s.prepare.rounds) then []
      else match s.prepare.result
           case None => [Status(FailedPhase), Outcome(s)]
           case Some(p) => Marks(Sourcing(s, p))
  {
    var k := Wait(s.prepare.rounds).0;
    WaitExact(s.prepare.rounds);
    FailureMarked(PREPARE_ERROR, Retrieving, false);
    var rest := if Wait(s.prepare.rounds).1 then [] else match s.prepare.result case None => Failure(PREPARE_ERROR, Retrieving, false) case Some(p) => Sourcing(s, p);
    assert Preparing(s) == Beats(k) + rest;
    BeatsUnmarked(k, rest);
  }

  lemma FullMarked(s: Script)
    requires !s.goneAtStart && !s.goneBeforeRetrieving
    ensures Marks(Full(s)) == [Status(Understanding), Status(Retrieving)] + Marks(Preparing(s))
  {
    var rest := Preparing(s);
    OneMarked(Status(Retrieving), rest);
    OneMarked(Status(Understanding), [Status(Retrieving)] + rest);
    assert Full(s) == [Status(Understanding)] + ([Status(Retrieving)] + rest);
    assert [Status(Understanding)] + ([Status(Retrieving)] + Marks(rest)) == [Status(Understanding), Status(Retrieving)] + Marks(rest);
  }

  /** The preparation succeeds, and the client and the serialization of the sources hold until then. */
  ghost predicate Sourced(s: Script) {
    && !s.goneAtStart && !s.goneBeforeRetrieving && !Gone(s.prepare.rounds)
    && s.prepare.result.Some? && !s.goneAfterPrepare && !s.sourcesFail
  }

  /**
   Besides tokens and heartbeats, a run sends exactly the events of its stages: all of them unless something cuts it
   short, and then the first ones; the sources exactly when the preparation succeeded before that.
   */
  lemma RunMarks(s: Script)
    ensures Marks(Full(s)) <= AllMarks(s)
    ensures Unabandoned(s) ==> Marks(Full(s)) == AllMarks(s)
    ensures Sources in Marks(Full(s)) <==> Sourced(s)
  {
    if s.goneAtStart {
      assert Marks(Full(s)) == [];
    } else if s.goneBeforeRetrieving {
      OneMarked(Status(Understanding), []);
      assert Full(s) == [Status(Understanding)] + [];
    } else {
      FullMarked(s);
      PreparingMarked(s);
      if !Gone(s.prepare.rounds) && s.prepare.result.Some? {
        var p := s.prepare.result.value;
        if !s.goneAfterPrepare && !s.sourcesFail { SourcedMarks(s, p); } else { assert Marks(Sourcing(s, p)) == []; }
      }
    }
  }

  // ---------------------------------------------------------------- the log

  /** The events that were yielded. */
  function YieldedIn(log: seq<LogItem>): seq<Event> {
    if log == [] then [] else (if log[0].Yield? then [log[0].event] else []) + YieldedIn(log[1..])
  }

  lemma {:induction false} YieldedConcat(a: seq<LogItem>, b: seq<LogItem>)
    ensures YieldedIn(a + b) == YieldedIn(a) + YieldedIn(b)
  {
    if a == [] {
      assert a + b == b;
    } else {
      var first := if a[0].Yield? then [a[0].event] else [];
      assert (a + b)[1..] == a[1..] + b && (a + b)[0] == a[0];
      YieldedConcat(a[1..], b);
      assert YieldedIn(a + b) == first + YieldedIn(a[1..] + b);
      assert first + (YieldedIn(a[1..]) + YieldedIn(b)) == first + YieldedIn(a[1..]) + YieldedIn(b);
    }
  }

  lemma {:induction false} YieldedAll(events: seq<Event>)
    ensures YieldedIn(Yields(events)) == events
  {
    if events != [] {
      assert Yields(events) == [Yield(events[0])] + Yields(events[1..]);
      assert Yields(events)[1..] == Yields(events[1..]);
      YieldedAll(events[1..]);
      assert [events[0]] + events[1..] == events;
    }
  }

  /** With and without a memory, the consumer gets the emitted events; without one there is no lease. */
  lemma LogShowsEvents(s: Script)
    ensures YieldedIn(Log(s)) == Emitted(s)
    ensures !s.memory ==> forall i :: 0 <= i < |Log(s)| ==> Log(s)[i].Yield?
  {
    var sent, release := Yields(Emitted(s)), [Release(Completed(Emitted(s)))];
    YieldedAll(Emitted(s));
    if s.memory {
      YieldedConcat([Acquire] + sent, release);
      YieldedConcat([Acquire], sent);
      assert release[1..] == [] && [Acquire][1..] == [];
    }
  }
}
