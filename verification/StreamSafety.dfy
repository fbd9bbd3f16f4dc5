/** What a client can rely on over every run of the staged answer stream. */
module StreamSafety {
  import opened Results
  import opened Stream

  // ---------------------------------------------------------------- the order of events

  /** The protocol as an automaton over events. */
  datatype Node = Begin | Asked | Searching | Sourced | Drafting | Checking | Replaced | Amended | Withdrawn | Broken | Closed | Reject

  function Move(n: Node, e: Event): Node {
    match (n, e)
    case (Begin, Status(Understanding)) => Asked
    case (Asked, Status(Retrieving)) => Searching
    case (Searching, Heartbeat) => Searching
    case (Searching, Sources) => Sourced
    case (Searching, Status(FailedPhase)) => Broken
    case (Sourced, Heartbeat) => Sourced
    case (Sourced, Status(Generating)) => Drafting
    case (Sourced, Status(FailedPhase)) => Broken
    case (Sourced, Done(_, false)) => Closed
    case (Drafting, Heartbeat) => Drafting
    case (Drafting, Token(t)) => if t == "" then Reject else Drafting
    case (Drafting, Status(Validating)) => Checking
    case (Drafting, Status(FailedPhase)) => Broken
    case (Checking, Heartbeat) => Checking
    case (Checking, AnswerReplace(_, reason)) => if reason == "safe_fallback" then Withdrawn else if reason == "citation_validation" then Replaced else Reject
    case (Checking, Status(FailedPhase)) => Broken
    case (Checking, Done(_, false)) => Closed
    case (Replaced, Status(CorrectedPhase)) => Amended
    case (Amended, Done(_, true)) => Closed
    case (Withdrawn, Status(FailedPhase)) => Broken
    case (Broken, Error(_, _, _)) => Closed
    case _ => Reject
  }

  function Walk(n: Node, events: seq<Event>): Node
    decreases |events|
  {
    if events == [] then n else Walk(Move(n, events[0]), events[1..])
  }

  lemma {:induction false} WalkConcat(n: Node, a: seq<Event>, b: seq<Event>)
    ensures Walk(n, a + b) == Walk(Walk(n, a), b)
    decreases |a|
  {
    if a == [] {
      assert a + b == b;
    } else {
      assert (a + b)[1..] == a[1..] + b;
      WalkConcat(Move(n, a[0]), a[1..], b);
    }
  }

  lemma WalkCons(n: Node, e: Event, rest: seq<Event>)
    ensures Walk(n, [e] + rest) == Walk(Move(n, e), rest)
  {
    assert ([e] + rest)[1..] == rest;
  }

  lemma {:induction false} RejectStays(events: seq<Event>)
    ensures Walk(Reject, events) == Reject
  {
    if events != [] { RejectStays(events[1..]); }
  }

  lemma {:induction false} WalkBeats(n: Node, k: nat, rest: seq<Event>)
    requires n == Searching || n == Sourced || n == Drafting || n == Checking
    ensures Walk(n, Beats(k) + rest) == Walk(n, rest)
  {
    if k == 0 {
      assert Beats(k) + rest == rest;
    } else {
      assert Beats(k) + rest == [Heartbeat] + (Beats(k - 1) + rest);
      WalkBeats(n, k - 1, rest);
    }
  }

  lemma WalkFailure(n: Node, message: string, during: Phase, partial: bool)
    requires n == Searching || n == Sourced || n == Drafting || n == Checking || n == Withdrawn
    ensures Walk(n, Failure(message, during, partial)) == Closed
  {
    var e := Error(message, during, partial);
    WalkCons(n, Status(FailedPhase), [e]);
    WalkCons(Broken, e, []);
    assert [e] + [] == [e];
  }

  lemma FinishingAccepted(s: Script, p: Prepared, draft: string, packet: Packet)
    requires p.mode == "none" ==> draft == ""
    ensures Walk(if p.mode == "none" then Sourced else Checking, Finishing(s, p, draft, packet)) != Reject
  {
    var corrected := p.mode != "none" && draft != packet.answer;
    var replace := AnswerReplace(packet.answer, "citation_validation");
    var done := Done(packet.answer, corrected);
    var last := if s.goneBeforeDone || s.turnFails then [] else [done];
    WalkCons(if corrected then Amended else if p.mode == "none" then Sourced else Checking, done, []);
    assert [done] + [] == [done];
    WalkCons(Replaced, Status(CorrectedPhase), last);
    WalkCons(Checking, replace, [Status(CorrectedPhase)] + last);
    assert [replace, Status(CorrectedPhase)] + last == [replace] + ([Status(CorrectedPhase)] + last);
  }

  lemma FallbackAccepted(n: Node, draft: string)
    requires n == Checking || (n == Sourced && draft == "")
    ensures var replace := if draft != "" then [AnswerReplace(SAFE_VALIDATION_FALLBACK, "safe_fallback")] else [];
            Walk(n, replace + Failure(SAFE_VALIDATION_ERROR, Validating, false)) != Reject
  {
    var failure := Failure(SAFE_VALIDATION_ERROR, Validating, false);
    WalkFailure(n, SAFE_VALIDATION_ERROR, Validating, false);
    WalkFailure(Withdrawn, SAFE_VALIDATION_ERROR, Validating, false);
    WalkCons(n, AnswerReplace(SAFE_VALIDATION_FALLBACK, "safe_fallback"), failure);
    assert [] + failure == failure;
  }

  lemma FinalizingAccepted(s: Script, p: Prepared, draft: string)
    requires p.mode == "none" ==> draft == ""
    ensures Walk(if p.mode == "none" then Sourced else Checking, Finalizing(s, p, draft)) != Reject
  {
    var n := if p.mode == "none" then Sourced else Checking;
    var (k, gone) := Wait(s.finalize.rounds);
    var rest := Finalizing(s, p, draft)[k..];
    assert Finalizing(s, p, draft) == Beats(k) + rest;
    WalkBeats(n, k, rest);
    if !gone {
      match s.finalize.result {
        case None => FallbackAccepted(n, draft);
        case Some(packet) =>
          FinishingAccepted(s, p, draft, packet);
      }
    }
  }

  lemma {:induction false} StreamingAccepted(s: Script, p: Prepared, items: seq<Task<string>>, draft: string)
    requires p.mode != "none"
    ensures Walk(Drafting, Streaming(s, p, items, draft)) != Reject
    decreases |items|
  {
    var (k, gone) := Wait(if items == [] then s.upstreamEnd.rounds else items[0].rounds);
    var rest := Streaming(s, p, items, draft)[k..];
    assert Streaming(s, p, items, draft) == Beats(k) + rest;
    WalkBeats(Drafting, k, rest);
    WalkFailure(Drafting, SAFE_STREAM_ERROR, Generating, draft != "");
    if gone {
    } else if items == [] {
      FinalizingAccepted(s, p, draft);
      assert ([Status(Validating)] + Finalizing(s, p, draft))[1..] == Finalizing(s, p, draft);
    } else if items[0].result.Some? {
      var t := items[0].result.value;
      StreamingAccepted(s, p, items[1..], draft + t);
      WalkConcat(Drafting, if t == "" then [] else [Token(t)], Streaming(s, p, items[1..], draft + t));
      assert Walk(Drafting, rest) != Reject;
    }
  }

  lemma SourcingAccepted(s: Script, p: Prepared)
    ensures Walk(Searching, Sourcing(s, p)) != Reject
  {
    if !s.goneAfterPrepare && !s.sourcesFail {
      if p.mode == "none" {
        FinalizingAccepted(s, p, "");
        WalkCons(Searching, Sources, Finalizing(s, p, ""));
      } else if s.goneBeforeGenerating {
        WalkCons(Searching, Sources, []);
        assert [Sources] + [] == [Sources];
      } else {
        var more := Streaming(s, p, s.upstream, "");
        StreamingAccepted(s, p, s.upstream, "");
        WalkCons(Searching, Sources, [Status(Generating)] + more);
        WalkCons(Sourced, Status(Generating), more);
      }
    }
  }

  lemma FullAccepted(s: Script)
    ensures Walk(Begin, Full(s)) != Reject
  {
    var (k, gone) := Wait(s.prepare.rounds);
    var rest := Preparing(s)[k..];
    assert Preparing(s) == Beats(k) + rest;
    WalkBeats(Searching, k, rest);
    WalkFailure(Searching, PREPARE_ERROR, Retrieving, false);
    if s.prepare.result.Some? { SourcingAccepted(s, s.prepare.result.value); }
    assert Walk(Searching, Preparing(s)) != Reject;
    WalkCons(Asked, Status(Retrieving), Preparing(s));
    WalkCons(Begin, Status(Understanding), if s.goneBeforeRetrieving then [] else [Status(Retrieving)] + Preparing(s));
  }

  /** Every run, closed early or not, follows the protocol. */
  lemma RunFollowsProtocol(s: Script)
    ensures Walk(Begin, Emitted(s)) != Reject
  {
    FullAccepted(s);
    var all := Full(s);
    if s.closeAt.Some? && s.closeAt.value < |all| { PrefixAccepted(Begin, all, s.closeAt.value + 1); }
  }

  lemma PrefixAccepted(n: Node, events: seq<Event>, k: nat)
    requires k <= |events| && Walk(n, events) != Reject
    ensures Walk(n, events[..k]) != Reject
  {
    assert events == events[..k] + events[k..];
    WalkConcat(n, events[..k], events[k..]);
    RejectStays(events[k..]);
  }

  predicate Terminal(e: Event) { e.Done? || e.Error? }

  lemma {:induction false} NothingAfterTerminal(n: Node, events: seq<Event>, i: nat)
    requires Walk(n, events) != Reject && i < |events| && Terminal(events[i])
    ensures i == |events| - 1
    decreases i
  {
    RejectStays(events[1..]);
    if i > 0 {
      NothingAfterTerminal(Move(n, events[0]), events[1..], i - 1);
    } else {
      ClosedStays(events[1..]);
    }
  }

  lemma ClosedStays(events: seq<Event>)
    ensures Walk(Closed, events) != Reject ==> events == []
  {
    if events != [] { RejectStays(events[1..]); }
  }

  /** A run emits at most one of `done` and `error`, as its last event. */
  lemma AtMostOneTerminal(s: Script, i: nat)
    requires i < |Emitted(s)| && Terminal(Emitted(s)[i])
    ensures i == |Emitted(s)| - 1
  {
    RunFollowsProtocol(s);
    NothingAfterTerminal(Begin, Emitted(s), i);
  }

  // ---------------------------------------------------------------- status phases

  function Phases(events: seq<Event>): seq<Phase> {
    if events == [] then []
    else (if events[0].Status? then [events[0].phase] else []) + Phases(events[1..])
  }

  /** The words of status phases that may follow a node. */
  predicate Fits(n: Node, phases: seq<Phase>)
    decreases |phases|
  {
    phases == [] ||
    match (n, phases[0])
    case (Begin, Understanding) => Fits(Asked, phases[1..])
    case (Asked, Retrieving) => Fits(Searching, phases[1..])
    case (Searching, Generating) => Fits(Drafting, phases[1..])
    case (Sourced, Generating) => Fits(Drafting, phases[1..])
    case (Drafting, Validating) => Fits(Checking, phases[1..])
    case (Searching, FailedPhase) => |phases| == 1
    case (Sourced, FailedPhase) => |phases| == 1
    case (Drafting, FailedPhase) => |phases| == 1
    case (Checking, FailedPhase) => |phases| == 1
    case (Withdrawn, FailedPhase) => |phases| == 1
    case (Checking, CorrectedPhase) => |phases| == 1
    case (Replaced, CorrectedPhase) => |phases| == 1
    case _ => false
  }

  lemma {:induction false} PhasesFit(n: Node, events: seq<Event>)
    requires Walk(n, events) != Reject
    ensures Fits(n, Phases(events))
    decreases |events|
  {
    if events != [] {
      RejectStays(events[1..]);
      PhasesFit(Move(n, events[0]), events[1..]);
      var rest := Phases(events[1..]);
      if events[0].Status? {
        assert ([events[0].phase] + rest)[1..] == rest;
      } else {
        assert [] + rest == rest;
      }
    }
  }

  const WORDS: seq<seq<Phase>> := [
    [Understanding, Retrieving, FailedPhase],
    [Understanding, Retrieving, Generating, FailedPhase],
    [Understanding, Retrieving, Generating, Validating, FailedPhase],
    [Understanding, Retrieving, Generating, Validating, CorrectedPhase]]

  lemma WordOf(phases: seq<Phase>) returns (w: seq<Phase>)
    requires Fits(Begin, phases)
    ensures w in WORDS && phases <= w
  {
    var n := |phases|;
    if n > 1 { assert Fits(Asked, phases[1..]); }
    if n > 2 { assert Fits(Searching, phases[1..][1..]); }
    if n > 3 { assert Fits(Drafting, phases[1..][1..][1..]); }
    if n > 4 { assert Fits(Checking, phases[1..][1..][1..][1..]); }
    var i := if n > 2 && phases[2] == FailedPhase then 0
             else if n > 3 && phases[3] == FailedPhase then 1
             else if n > 4 && phases[4] == FailedPhase then 2 else 3;
    w := WORDS[i];
  }

  /** The status phases of a run are a prefix of one of four fixed words. */
  lemma PhasesInOrder(s: Script) returns (w: seq<Phase>)
    ensures w in WORDS && Phases(Emitted(s)) <= w
  {
    RunFollowsProtocol(s);
    PhasesFit(Begin, Emitted(s));
    w := WordOf(Phases(Emitted(s)));
  }

  // ---------------------------------------------------------------- the lease

  function ReleaseCount(log: seq<LogItem>): nat {
    if log == [] then 0 else (if log[0].Release? then 1 else 0) + ReleaseCount(log[1..])
  }

  lemma {:induction false} YieldsRelease(events: seq<Event>, tail: seq<LogItem>)
    ensures ReleaseCount(Yields(events) + tail) == ReleaseCount(tail)
  {
    if events == [] {
      assert Yields(events) + tail == tail;
    } else {
      assert Yields(events) + tail == [Yield(events[0])] + (Yields(events[1..]) + tail);
      YieldsRelease(events[1..], tail);
    }
  }

  /**
   With a memory store the lease is acquired first and released exactly once, last, carrying a turn if
   and only if the last event handed to the consumer is `done`.  Without a store there is no release.
   */
  lemma LeaseReleasedOnce(s: Script)
    ensures ReleaseCount(Log(s)) == if s.memory then 1 else 0
    ensures s.memory ==>
              && Log(s)[0] == Acquire
              && Log(s)[|Log(s)| - 1] == Release(Emitted(s) != [] && Emitted(s)[|Emitted(s)| - 1].Done?)
  {
    var events := Emitted(s);
    if Completed(events) {
      var i :| 0 <= i < |events| && events[i].Done?;
      AtMostOneTerminal(s, i);
    }
    YieldsRelease(events, []);
    YieldsRelease(events, [Release(Completed(events))]);
    assert Yields(events) + [] == Yields(events);
    assert [Acquire] + Yields(events) + [Release(Completed(events))]
        == [Acquire] + (Yields(events) + [Release(Completed(events))]);
    var tail := [Release(Completed(events))];
    assert tail[1..] == [];
    assert ReleaseCount(tail) == 1;
  }

  // ---------------------------------------------------------------- what the client shows

  /** The text a client shows: tokens append, a replacement overwrites. */
  function Shown(shown: string, events: seq<Event>): string
    decreases |events|
  {
    if events == [] then shown
    else Shown(match events[0] case Token(t) => shown + t case AnswerReplace(a, _) => a case _ => shown, events[1..])
  }

  lemma {:induction false} ShownConcat(shown: string, a: seq<Event>, b: seq<Event>)
    ensures Shown(shown, a + b) == Shown(Shown(shown, a), b)
    decreases |a|
  {
    if a == [] {
      assert a + b == b;
    } else {
      assert (a + b)[1..] == a[1..] + b;
      ShownConcat(match a[0] case Token(t) => shown + t case AnswerReplace(x, _) => x case _ => shown, a[1..], b);
    }
  }

  lemma {:induction false} BeatsShowNothing(shown: string, k: nat)
    ensures Shown(shown, Beats(k)) == shown
  {
    if k > 0 {
      assert Beats(k)[1..] == Beats(k - 1);
      BeatsShowNothing(shown, k - 1);
    }
  }

  function Last(events: seq<Event>): Event
    requires events != []
  {
    events[|events| - 1]
  }

  /** How a run that started from a draft ends, in terms of what is shown. */
  ghost predicate EndsWell(s: Script, mode: string, draft: string, events: seq<Event>) {
    && (Completed(events) ==>
          && s.finalize.result.Some? && Last(events).Done? && Last(events).final == s.finalize.result.value.answer
          && Shown(draft, events) == (if mode == "none" then draft else Last(events).final))
    && (events != [] && Last(events).Error? && Last(events).during == Validating ==>
          Shown(draft, events) == if draft != "" || HasToken(events) then SAFE_VALIDATION_FALLBACK else "")
  }

  predicate HasToken(events: seq<Event>) {
    exists i :: 0 <= i < |events| && events[i].Token?
  }

  lemma FinishingShown(s: Script, p: Prepared, draft: string, packet: Packet)
    requires s.finalize.result == Some(packet)
    ensures EndsWell(s, p.mode, draft, Finishing(s, p, draft, packet)) && !HasToken(Finishing(s, p, draft, packet))
  {
    var corrected := p.mode != "none" && draft != packet.answer;
    var replace := [AnswerReplace(packet.answer, "citation_validation"), Status(CorrectedPhase)];
    var last := if s.goneBeforeDone || s.turnFails then [] else [Done(packet.answer, corrected)];
    ShownPair(draft, replace[0], replace[1]);
    ShownConcat(draft, replace, last);
    assert Shown(packet.answer, last) == packet.answer;
  }

  lemma FailureShown(s: Script, mode: string, draft: string)
    ensures var replace := if draft != "" then [AnswerReplace(SAFE_VALIDATION_FALLBACK, "safe_fallback")] else [];
            EndsWell(s, mode, draft, replace + Failure(SAFE_VALIDATION_ERROR, Validating, false))
            && !HasToken(replace + Failure(SAFE_VALIDATION_ERROR, Validating, false))
  {
    var replace := if draft != "" then [AnswerReplace(SAFE_VALIDATION_FALLBACK, "safe_fallback")] else [];
    var failure := Failure(SAFE_VALIDATION_ERROR, Validating, false);
    ShownConcat(draft, replace, failure);
    ShownPair(if draft != "" then SAFE_VALIDATION_FALLBACK else draft, failure[0], failure[1]);
    assert Last(replace + failure) == failure[1];
  }

  lemma FinalizingShown(s: Script, p: Prepared, draft: string)
    requires p.mode == "none" ==> draft == ""
    ensures EndsWell(s, p.mode, draft, Finalizing(s, p, draft)) && !HasToken(Finalizing(s, p, draft))
  {
    var (k, gone) := Wait(s.finalize.rounds);
    var events := Finalizing(s, p, draft);
    var rest := events[k..];
    assert events == Beats(k) + rest;
    BeatsShowNothing(draft, k);
    if !gone {
      match s.finalize.result {
        case None => FailureShown(s, p.mode, draft);
        case Some(packet) => FinishingShown(s, p, draft, packet);
      }
    }
    EndsWellAfter(s, p.mode, draft, draft, Beats(k), rest);
    forall i | 0 <= i < |events| ensures !events[i].Token? {
      assert events[i] == if i < k then Beats(k)[i] else rest[i - k];
    }
  }

  lemma ShownPair(shown: string, a: Event, b: Event)
    ensures Shown(shown, [a, b]) == Shown(Shown(shown, [a]), [b])
  {
    ShownConcat(shown, [a], [b]);
    assert [a, b] == [a] + [b];
  }

  lemma TokensOf(first: seq<Event>, rest: seq<Event>)
    ensures HasToken(first + rest) <==> HasToken(first) || HasToken(rest)
  {
    var events := first + rest;
    if HasToken(events) {
      var i :| 0 <= i < |events| && events[i].Token?;
      assert if i < |first| then first[i].Token? else rest[i - |first|].Token?;
    }
    if HasToken(first) {
      var i :| 0 <= i < |first| && first[i].Token?;
      assert events[i].Token?;
    }
    if HasToken(rest) {
      var i :| 0 <= i < |rest| && rest[i].Token?;
      assert events[|first| + i].Token?;
    }
  }

  lemma CompletedOf(first: seq<Event>, rest: seq<Event>)
    requires !Completed(first)
    ensures Completed(first + rest) ==> Completed(rest) && rest != []
  {
    var events := first + rest;
    if Completed(events) {
      var i :| 0 <= i < |events| && events[i].Done?;
      forall j | 0 <= j < |first| ensures !events[j].Done? { assert events[j] == first[j]; }
      assert rest[i - |first|].Done?;
    }
  }

  /** Events that show exactly the text by which the draft grows keep the ending of what follows. */
  lemma EndsWellAfter(s: Script, mode: string, before: string, draft: string, first: seq<Event>, rest: seq<Event>)
    requires EndsWell(s, mode, draft, rest) && Shown(before, first) == draft
    requires !Completed(first) && (first != [] ==> !Last(first).Error?)
    requires mode == "none" ==> before == draft
    requires draft != "" <==> before != "" || HasToken(first)
    ensures EndsWell(s, mode, before, first + rest)
  {
    ShownConcat(before, first, rest);
    TokensOf(first, rest);
    CompletedOf(first, rest);
    if rest == [] { assert first + rest == first; } else { assert Last(first + rest) == Last(rest); }
  }

  lemma {:induction false} StreamingShown(s: Script, p: Prepared, items: seq<Task<string>>, draft: string)
    requires p.mode != "none"
    ensures EndsWell(s, p.mode, draft, Streaming(s, p, items, draft))
    decreases |items|
  {
    var (k, gone) := Wait(if items == [] then s.upstreamEnd.rounds else items[0].rounds);
    var events := Streaming(s, p, items, draft);
    var rest := events[k..];
    assert events == Beats(k) + rest;
    BeatsShowNothing(draft, k);
    if gone {
    } else if items == [] {
      if s.upstreamEnd.result.Some? && !s.goneAfterGenerating {
        FinalizingShown(s, p, draft);
        EndsWellAfter(s, p.mode, draft, draft, [Status(Validating)], Finalizing(s, p, draft));
      }
    } else if items[0].result.Some? {
      var t := items[0].result.value;
      StreamingShown(s, p, items[1..], draft + t);
      var first := if t == "" then [] else [Token(t)];
      if t == "" { assert draft + t == draft; } else { assert first[0].Token?; }
      EndsWellAfter(s, p.mode, draft, draft + t, first, Streaming(s, p, items[1..], draft + t));
    }
    EndsWellAfter(s, p.mode, draft, draft, Beats(k), rest);
  }

  lemma SourcingShown(s: Script, p: Prepared)
    ensures EndsWell(s, p.mode, "", Sourcing(s, p))
  {
    if !s.goneAfterPrepare && !s.sourcesFail {
      if p.mode == "none" {
        FinalizingShown(s, p, "");
        EndsWellAfter(s, p.mode, "", "", [Sources], Finalizing(s, p, ""));
      } else if !s.goneBeforeGenerating {
        StreamingShown(s, p, s.upstream, "");
        var more := Streaming(s, p, s.upstream, "");
        EndsWellAfter(s, p.mode, "", "", [Status(Generating)], more);
        EndsWellAfter(s, p.mode, "", "", [Sources], [Status(Generating)] + more);
      }
    }
  }

  lemma FullShown(s: Script)
    requires s.prepare.result.Some?
    ensures EndsWell(s, s.prepare.result.value.mode, "", Full(s))
  {
    var p := s.prepare.result.value;
    var (k, gone) := Wait(s.prepare.rounds);
    var rest := if gone then [] else Sourcing(s, p);
    SourcingShown(s, p);
    BeatsShowNothing("", k);
    EndsWellAfter(s, p.mode, "", "", Beats(k), rest);
    assert Preparing(s) == Beats(k) + rest;
    EndsWellAfter(s, p.mode, "", "", [Status(Retrieving)], Preparing(s));
    var later := if s.goneBeforeRetrieving then [] else [Status(Retrieving)] + Preparing(s);
    EndsWellAfter(s, p.mode, "", "", [Status(Understanding)], later);
  }

  /** A run whose last event is terminal was not cut short. */
  lemma TerminalRunIsFull(s: Script)
    requires Emitted(s) != [] && Terminal(Last(Emitted(s)))
    ensures Emitted(s) == Full(s)
  {
    FullAccepted(s);
    var n := |Emitted(s)|;
    assert Full(s)[n - 1] == Last(Emitted(s));
    NothingAfterTerminal(Begin, Full(s), n - 1);
  }

  /** The events end with `done`, and what they show is the answer of the packet. */
  ghost predicate ShowsAnswer(s: Script, events: seq<Event>) {
    && s.prepare.result.Some? && s.finalize.result.Some? && events != []
    && var answer := s.finalize.result.value.answer;
    && Last(events).Done? && Last(events).final == answer
    && Shown("", events) == if s.prepare.result.value.mode == "none" then "" else answer
  }

  lemma DoneAnswer(s: Script)
    requires Completed(Full(s)) && s.prepare.result.Some?
    ensures ShowsAnswer(s, Full(s))
  {
    FullShown(s);
  }

  lemma CompletedRunIsFull(s: Script)
    requires Completed(Emitted(s))
    ensures Emitted(s) == Full(s) && s.prepare.result.Some?
  {
    var events := Emitted(s);
    var i :| 0 <= i < |events| && events[i].Done?;
    AtMostOneTerminal(s, i);
    TerminalRunIsFull(s);
    if s.prepare.result.None? { NoDoneWithoutPreparation(s, i); }
  }

  /** At `done`, a run that generated text shows exactly the answer of the packet. */
  lemma ShownAtDone(s: Script)
    requires Completed(Emitted(s))
    ensures ShowsAnswer(s, Emitted(s))
  {
    CompletedRunIsFull(s);
    DoneAnswer(s);
  }

  lemma NoDoneWithoutPreparation(s: Script, i: nat)
    requires s.prepare.result.None? && i < |Full(s)|
    ensures !Full(s)[i].Done?
  {
    var (k, gone) := Wait(s.prepare.rounds);
    if i >= 2 { assert Full(s)[i] == Preparing(s)[i - 2]; }
  }

  /** When validation fails, a draft that was shown is withdrawn: the fallback stands in its place. */
  lemma DraftWithdrawn(s: Script)
    requires s.prepare.result.Some?
    requires Emitted(s) != [] && Last(Emitted(s)).Error? && Last(Emitted(s)).during == Validating
    ensures Shown("", Emitted(s)) == if HasToken(Emitted(s)) then SAFE_VALIDATION_FALLBACK else ""
  {
    TerminalRunIsFull(s);
    FullShown(s);
  }

  // ---------------------------------------------------------------- heartbeats

  function Items<T>(pulses: seq<Pulse<T>>): seq<T> {
    if pulses == [] then [] else (if pulses[0].Item? then [pulses[0].value] else []) + Items(pulses[1..])
  }

  /** The values an upstream yields before it raises. */
  function Leading<T>(items: seq<Task<T>>): seq<T> {
    if items == [] || items[0].result.None? then [] else [items[0].result.value] + Leading(items[1..])
  }

  lemma {:induction false} BeatsHaveNoItems<T>(n: nat, rest: seq<Pulse<T>>)
    ensures Items(PulseBeats<T>(n) + rest) == Items(rest)
  {
    if n == 0 {
      assert PulseBeats<T>(n) + rest == rest;
    } else {
      assert PulseBeats<T>(n) + rest == [Beat] + (PulseBeats(n - 1) + rest);
      BeatsHaveNoItems(n - 1, rest);
    }
  }

  lemma ItemsAfterBeats<T>(n: nat, v: T, rest: seq<Pulse<T>>)
    ensures Items(PulseBeats<T>(n) + [Item(v)] + rest) == [v] + Items(rest)
  {
    BeatsHaveNoItems(n, [Item(v)] + rest);
    assert ([Item(v)] + rest)[1..] == rest;
    assert PulseBeats<T>(n) + [Item(v)] + rest == PulseBeats<T>(n) + ([Item(v)] + rest);
  }

  /** Without its heartbeats the stream is the upstream, whatever the timing; a lost client leaves a prefix. */
  lemma {:induction false} HeartbeatsAreTransparent<T>(items: seq<Task<T>>, last: Task<()>)
    ensures var (sent, ending) := Pulses(items, last);
            && Items(sent) <= Leading(items)
            && (ending != ClientGone ==> Items(sent) == Leading(items))
            && (ending == Exhausted ==> |Leading(items)| == |items|)
    decreases |items|
  {
    var (n, gone) := Wait(if items == [] then last.rounds else items[0].rounds);
    BeatsHaveNoItems<T>(n, []);
    assert PulseBeats<T>(n) + [] == PulseBeats<T>(n);
    if !gone && items != [] && items[0].result.Some? {
      HeartbeatsAreTransparent(items[1..], last);
      ItemsAfterBeats(n, items[0].result.value, Pulses(items[1..], last).0);
    }
  }
}
