/** What a folding client is shown when every text passes the transport filter on its own (backend/sse.py). */
module StreamFilter {
  import opened Results
  import opened Texts
  import opened Stream
  import opened StreamSafety

  // ---------------------------------------------------------------- the fold

  /** One event: a token that the filter hides arrives without its text, a replacement without its answer. */
  function FilteredStep(shown: string, e: Event, hides: string -> bool): string {
    match e
    case Token(t) => if hides(t) then shown else shown + t
    case AnswerReplace(a, _) => if hides(a) then shown else a
    case _ => shown
  }

  function FilteredShown(shown: string, events: seq<Event>, hides: string -> bool): string
    decreases |events|
  {
    if events == [] then shown else FilteredShown(FilteredStep(shown, events[0], hides), events[1..], hides)
  }

  lemma {:induction false} FilteredConcat(shown: string, a: seq<Event>, b: seq<Event>, hides: string -> bool)
    ensures FilteredShown(shown, a + b, hides) == FilteredShown(FilteredShown(shown, a, hides), b, hides)
    decreases |a|
  {
    if a == [] {
      assert a + b == b;
    } else {
      assert (a + b)[1..] == a[1..] + b;
      FilteredConcat(FilteredStep(shown, a[0], hides), a[1..], b, hides);
    }
  }

  lemma FilteredCons(shown: string, e: Event, rest: seq<Event>, hides: string -> bool)
    ensures FilteredShown(shown, [e] + rest, hides) == FilteredShown(FilteredStep(shown, e, hides), rest, hides)
  {
    assert ([e] + rest)[1..] == rest;
  }

  lemma {:induction false} FilteredBeats(shown: string, k: nat, rest: seq<Event>, hides: string -> bool)
    ensures FilteredShown(shown, Beats(k) + rest, hides) == FilteredShown(shown, rest, hides)
  {
    if k == 0 {
      assert Beats(k) + rest == rest;
    } else {
      assert Beats(k) + rest == [Heartbeat] + (Beats(k - 1) + rest);
      FilteredCons(shown, Heartbeat, Beats(k - 1) + rest, hides);
      FilteredBeats(shown, k - 1, rest, hides);
    }
  }

  lemma DoneLater(first: seq<Event>, rest: seq<Event>)
    requires forall i :: 0 <= i < |first| ==> !first[i].Done?
    ensures Completed(first + rest) <==> Completed(rest)
  {
    CompletedOf(first, rest);
    if Completed(rest) {
      var i :| 0 <= i < |rest| && rest[i].Done?;
      assert (first + rest)[|first| + i].Done?;
    }
  }

  // ---------------------------------------------------------------- in terms of the script

  /** The text that the upstream yields. */
  function Draft(items: seq<Task<string>>): string {
    if items == [] then "" else (if items[0].result.Some? then items[0].result.value else "") + Draft(items[1..])
  }

  /** The part of it that passes the filter, value by value. */
  function Visible(items: seq<Task<string>>, hides: string -> bool): string {
    if items == [] then ""
    else (if items[0].result.Some? && !hides(items[0].result.value) then items[0].result.value else "") + Visible(items[1..], hides)
  }

  /** No value of the upstream is hidden; an empty one is not sent. */
  predicate NoneHidden(items: seq<Task<string>>, hides: string -> bool) {
    forall i | 0 <= i < |items| :: items[i].result.Some? && items[i].result.value != "" ==> !hides(items[i].result.value)
  }

  lemma {:induction false} VisibleLength(items: seq<Task<string>>, hides: string -> bool)
    ensures |Visible(items, hides)| <= |Draft(items)|
    ensures |Visible(items, hides)| == |Draft(items)| <==> NoneHidden(items, hides)
    ensures NoneHidden(items, hides) ==> Visible(items, hides) == Draft(items)
  {
    if items != [] {
      assert items == [items[0]] + items[1..];
      VisibleLength(items[1..], hides);
    }
  }

  lemma VisibleIsDraftIff(items: seq<Task<string>>, hides: string -> bool)
    ensures Visible(items, hides) == Draft(items) <==> NoneHidden(items, hides)
  {
    VisibleLength(items, hides);
  }

  /** What the answer of the packet makes of what is shown. */
  function Corrected(shown: string, draft: string, answer: string, hides: string -> bool): string {
    if draft != answer && !hides(answer) then answer else shown
  }

  lemma FinishingFiltered(s: Script, p: Prepared, draft: string, packet: Packet, shown: string, hides: string -> bool)
    requires p.mode != "none" && Completed(Finishing(s, p, draft, packet))
    ensures FilteredShown(shown, Finishing(s, p, draft, packet), hides) == Corrected(shown, draft, packet.answer, hides)
  {
    var corrected := draft != packet.answer;
    var replace := AnswerReplace(packet.answer, "citation_validation");
    var last := [Done(packet.answer, corrected)];
    assert s.goneBeforeDone || s.turnFails ==> (forall e :: e in Finishing(s, p, draft, packet) ==> !e.Done?);
    assert last[1..] == [];
    if corrected {
      assert [replace, Status(CorrectedPhase)] + last == [replace] + ([Status(CorrectedPhase)] + last);
      FilteredCons(shown, replace, [Status(CorrectedPhase)] + last, hides);
      FilteredCons(FilteredStep(shown, replace, hides), Status(CorrectedPhase), last, hides);
    }
  }

  /** What follows the wait for validation. */
  function AfterFinalize(s: Script, p: Prepared, draft: string): seq<Event> {
    if Wait(s.finalize.rounds).1 then []
    else
      match s.finalize.result
      case None =>
        (if draft != "" then [AnswerReplace(SAFE_VALIDATION_FALLBACK, "safe_fallback")] else [])
        + Failure(SAFE_VALIDATION_ERROR, Validating, false)
      case Some(packet) => if s.serializeFails then [] else Finishing(s, p, draft, packet)
  }

  lemma FinalizingFiltered(s: Script, p: Prepared, draft: string, shown: string, hides: string -> bool)
    requires p.mode != "none" && Completed(Finalizing(s, p, draft))
    ensures s.finalize.result.Some?
    ensures FilteredShown(shown, Finalizing(s, p, draft), hides) == Corrected(shown, draft, s.finalize.result.value.answer, hides)
  {
    var k, rest := Wait(s.finalize.rounds).0, AfterFinalize(s, p, draft);
    assert Finalizing(s, p, draft) == Beats(k) + rest;
    DoneLater(Beats(k), rest);
    FilteredBeats(shown, k, rest, hides);
    NoDoneInFailure(s, p, draft);
    FinishingFiltered(s, p, draft, s.finalize.result.value, shown, hides);
  }

  lemma NoDoneInFailure(s: Script, p: Prepared, draft: string)
    ensures Completed(AfterFinalize(s, p, draft)) ==>
      s.finalize.result.Some? && AfterFinalize(s, p, draft) == Finishing(s, p, draft, s.finalize.result.value)
  {
    var rest := AfterFinalize(s, p, draft);
    assert s.finalize.result.None? ==> forall i :: 0 <= i < |rest| ==> !rest[i].Done?;
  }

  /** What follows the wait for the end of the upstream. */
  function AfterEnd(s: Script, p: Prepared, draft: string): seq<Event> {
    if Wait(s.upstreamEnd.rounds).1 then []
    else if s.upstreamEnd.result.None? then Failure(SAFE_STREAM_ERROR, Generating, draft != "")
    else if s.goneAfterGenerating then []
    else [Status(Validating)] + Finalizing(s, p, draft)
  }

  /** The end of the upstream: validation, and what it makes of the draft. */
  lemma EndFiltered(s: Script, p: Prepared, draft: string, shown: string, hides: string -> bool)
    requires p.mode != "none" && Completed(Streaming(s, p, [], draft))
    ensures s.finalize.result.Some?
    ensures FilteredShown(shown, Streaming(s, p, [], draft), hides) == Corrected(shown, draft, s.finalize.result.value.answer, hides)
  {
    var k, rest, more := Wait(s.upstreamEnd.rounds).0, AfterEnd(s, p, draft), Finalizing(s, p, draft);
    assert Streaming(s, p, [], draft) == Beats(k) + rest;
    DoneLater(Beats(k), rest);
    FilteredBeats(shown, k, rest, hides);
    assert rest == [Status(Validating)] + more;
    DoneLater([Status(Validating)], more);
    FilteredCons(shown, Status(Validating), more, hides);
    FinalizingFiltered(s, p, draft, shown, hides);
  }

  /** What follows the wait for a value. */
  function AfterWait(s: Script, p: Prepared, items: seq<Task<string>>, draft: string): seq<Event>
    requires items != []
  {
    if Wait(items[0].rounds).1 then []
    else
      match items[0].result
      case None => Failure(SAFE_STREAM_ERROR, Generating, draft != "")
      case Some(t) => (if t == "" then [] else [Token(t)]) + Streaming(s, p, items[1..], draft + t)
  }

  lemma StreamingWaits(s: Script, p: Prepared, items: seq<Task<string>>, draft: string)
    requires items != []
    ensures Streaming(s, p, items, draft) == Beats(Wait(items[0].rounds).0) + AfterWait(s, p, items, draft)
  {
  }

  /** One value of the upstream. */
  lemma ValueFiltered(s: Script, p: Prepared, items: seq<Task<string>>, draft: string, shown: string, hides: string -> bool)
    requires items != [] && Completed(Streaming(s, p, items, draft))
    ensures items[0].result.Some?
    ensures var t := items[0].result.value; var more := Streaming(s, p, items[1..], draft + t);
      Completed(more) && FilteredShown(shown, Streaming(s, p, items, draft), hides) == FilteredShown(if hides(t) then shown else shown + t, more, hides)
  {
    var k, rest := Wait(items[0].rounds).0, AfterWait(s, p, items, draft);
    StreamingWaits(s, p, items, draft);
    DoneLater(Beats(k), rest);
    FilteredBeats(shown, k, rest, hides);
    assert items[0].result.Some?;
    var t := items[0].result.value;
    DoneLater(if t == "" then [] else [Token(t)], Streaming(s, p, items[1..], draft + t));
    TokenFiltered(shown, t, Streaming(s, p, items[1..], draft + t), hides);
  }

  lemma TokenFiltered(shown: string, t: string, more: seq<Event>, hides: string -> bool)
    ensures FilteredShown(shown, (if t == "" then [] else [Token(t)]) + more, hides)
            == FilteredShown(if hides(t) then shown else shown + t, more, hides)
  {
    if t == "" {
      assert [] + more == more && shown + t == shown;
    } else {
      FilteredCons(shown, Token(t), more, hides);
    }
  }

  lemma {:induction false} StreamingFiltered(s: Script, p: Prepared, items: seq<Task<string>>, draft: string, shown: string, hides: string -> bool)
    requires p.mode != "none" && Completed(Streaming(s, p, items, draft))
    ensures s.finalize.result.Some?
    ensures FilteredShown(shown, Streaming(s, p, items, draft), hides)
            == Corrected(shown + Visible(items, hides), draft + Draft(items), s.finalize.result.value.answer, hides)
    decreases |items|
  {
    if items == [] {
      EndFiltered(s, p, draft, shown, hides);
      assert shown + Visible(items, hides) == shown && draft + Draft(items) == draft;
    } else {
      ValueFiltered(s, p, items, draft, shown, hides);
      var t := items[0].result.value;
      var seen := if hides(t) then shown else shown + t;
      StreamingFiltered(s, p, items[1..], draft + t, seen, hides);
      ValueAdded(items, draft, shown, hides);
    }
  }

  lemma ValueAdded(items: seq<Task<string>>, draft: string, shown: string, hides: string -> bool)
    requires items != [] && items[0].result.Some?
    ensures var t := items[0].result.value;
      && (if hides(t) then shown else shown + t) + Visible(items[1..], hides) == shown + Visible(items, hides)
      && draft + t + Draft(items[1..]) == draft + Draft(items)
  {
    var t := items[0].result.value;
    Assoc(draft, t, Draft(items[1..]));
    Assoc(shown, t, Visible(items[1..], hides));
    assert "" + Visible(items[1..], hides) == Visible(items[1..], hides);
  }

  lemma SourcingFiltered(s: Script, p: Prepared, hides: string -> bool)
    requires p.mode != "none" && Completed(Sourcing(s, p))
    ensures s.finalize.result.Some?
    ensures FilteredShown("", Sourcing(s, p), hides)
            == Corrected(Visible(s.upstream, hides), Draft(s.upstream), s.finalize.result.value.answer, hides)
  {
    var streaming := Streaming(s, p, s.upstream, "");
    assert Sourcing(s, p) == [Sources] + ([Status(Generating)] + streaming);
    DoneLater([Sources], [Status(Generating)] + streaming);
    DoneLater([Status(Generating)], streaming);
    FilteredCons("", Sources, [Status(Generating)] + streaming, hides);
    FilteredCons("", Status(Generating), streaming, hides);
    StreamingFiltered(s, p, s.upstream, "", "", hides);
    assert "" + Visible(s.upstream, hides) == Visible(s.upstream, hides) && "" + Draft(s.upstream) == Draft(s.upstream);
  }

  lemma PreparingFiltered(s: Script, hides: string -> bool)
    requires Completed(Preparing(s)) && s.prepare.result.Some?
    ensures var p := s.prepare.result.value;
      Completed(Sourcing(s, p)) && FilteredShown("", Preparing(s), hides) == FilteredShown("", Sourcing(s, p), hides)
  {
    var (k, gone) := Wait(s.prepare.rounds);
    var rest := Preparing(s)[k..];
    assert Preparing(s) == Beats(k) + rest;
    DoneLater(Beats(k), rest);
    FilteredBeats("", k, rest, hides);
    assert rest == Sourcing(s, s.prepare.result.value);
  }

  lemma FullFiltered(s: Script, hides: string -> bool)
    requires Completed(Full(s)) && s.prepare.result.Some? && s.prepare.result.value.mode != "none"
    ensures s.finalize.result.Some?
    ensures FilteredShown("", Full(s), hides)
            == Corrected(Visible(s.upstream, hides), Draft(s.upstream), s.finalize.result.value.answer, hides)
  {
    var rest := Full(s)[1..];
    assert Full(s) == [Status(Understanding)] + rest;
    DoneLater([Status(Understanding)], rest);
    FilteredCons("", Status(Understanding), rest, hides);
    assert rest == [Status(Retrieving)] + Preparing(s);
    DoneLater([Status(Retrieving)], Preparing(s));
    FilteredCons("", Status(Retrieving), Preparing(s), hides);
    PreparingFiltered(s, hides);
    SourcingFiltered(s, s.prepare.result.value, hides);
  }

  // ---------------------------------------------------------------- main results

  /** At `done`: the answer if it corrects the draft and passes the filter, and else what passed of the upstream. */
  lemma FilteredAtDone(s: Script, hides: string -> bool)
    requires Completed(Emitted(s)) && s.prepare.result.Some? && s.prepare.result.value.mode != "none"
    ensures s.finalize.result.Some?
    ensures FilteredShown("", Emitted(s), hides)
            == Corrected(Visible(s.upstream, hides), Draft(s.upstream), s.finalize.result.value.answer, hides)
  {
    CompletedRunIsFull(s);
    FullFiltered(s, hides);
  }

  /**
   The client is shown the answer exactly when no value of the upstream was hidden or, in a run that corrects
   the draft, when the answer passes the filter or the values that pass happen to spell it.
   */
  lemma AnswerShownIff(s: Script, hides: string -> bool)
    requires Completed(Emitted(s)) && s.prepare.result.Some? && s.prepare.result.value.mode != "none"
    ensures s.finalize.result.Some?
    ensures var answer := s.finalize.result.value.answer;
            FilteredShown("", Emitted(s), hides) == answer <==>
              if Draft(s.upstream) == answer then NoneHidden(s.upstream, hides)
              else !hides(answer) || Visible(s.upstream, hides) == answer
  {
    FilteredAtDone(s, hides);
    VisibleIsDraftIff(s.upstream, hides);
  }

  /** The filter tests each text alone: a hidden text is shown exactly when the values that pass spell it. */
  lemma HiddenTextShownIff(s: Script, hides: string -> bool)
    requires Completed(Emitted(s)) && s.prepare.result.Some? && s.prepare.result.value.mode != "none"
    ensures s.finalize.result.Some?
    ensures var answer := s.finalize.result.value.answer;
            hides(FilteredShown("", Emitted(s), hides)) <==>
              hides(Visible(s.upstream, hides)) && (Draft(s.upstream) == answer || hides(answer))
  {
    FilteredAtDone(s, hides);
  }

  // ---------------------------------------------------------------- a run for each failure

  /** An undisturbed run that yields the values, and whose packet has the given answer. */
  function Plain(values: seq<string>, answer: string): Script {
    Script(false, false, false, Task([], Some(Prepared("grounded"))), false, false, false,
           Tasks(values), Task([], Some(())), false, Task([], Some(Packet(answer))), false, false, false, false, None)
  }

  function Tasks(values: seq<string>): seq<Task<string>> {
    if values == [] then [] else [Task([], Some(values[0]))] + Tasks(values[1..])
  }

  lemma {:induction false} PlainStreaming(s: Script, values: seq<string>, draft: string, answer: string)
    requires s.upstreamEnd == Task([], Some(())) && s.finalize == Task([], Some(Packet(answer)))
    requires !s.goneAfterGenerating && !s.serializeFails && !s.goneBeforeCorrection && !s.goneBeforeDone && !s.turnFails
    ensures Completed(Streaming(s, Prepared("grounded"), Tasks(values), draft))
  {
    var p := Prepared("grounded");
    var events := Streaming(s, p, Tasks(values), draft);
    assert Beats(0) == [];
    if values == [] {
      var last := Finishing(s, p, draft, Packet(answer));
      assert last[|last| - 1].Done?;
      assert Finalizing(s, p, draft) == last;
      assert events == [Status(Validating)] + last;
      DoneLater([Status(Validating)], last);
    } else {
      assert Tasks(values)[1..] == Tasks(values[1..]);
      PlainStreaming(s, values[1..], draft + values[0], answer);
      var first := if values[0] == "" then [] else [Token(values[0])];
      assert events == first + Streaming(s, p, Tasks(values[1..]), draft + values[0]);
      DoneLater(first, Streaming(s, p, Tasks(values[1..]), draft + values[0]));
    }
  }

  lemma PlainPreparing(s: Script)
    requires s.prepare == Task([], Some(Prepared("grounded"))) && !s.goneAfterPrepare && !s.sourcesFail && !s.goneBeforeGenerating
    ensures Preparing(s) == [Sources] + ([Status(Generating)] + Streaming(s, Prepared("grounded"), s.upstream, ""))
  {
    var sourcing := Sourcing(s, Prepared("grounded"));
    assert Wait(s.prepare.rounds) == (0, false);
    assert Beats(0) + sourcing == sourcing;
  }

  lemma PlainCompletes(values: seq<string>, answer: string)
    ensures Completed(Emitted(Plain(values, answer)))
  {
    var s := Plain(values, answer);
    var streaming := Streaming(s, Prepared("grounded"), Tasks(values), "");
    PlainStreaming(s, values, "", answer);
    PlainPreparing(s);
    DoneLater([Status(Generating)], streaming);
    DoneLater([Sources], [Status(Generating)] + streaming);
    DoneLater([Status(Retrieving)], Preparing(s));
    DoneLater([Status(Understanding)], [Status(Retrieving)] + Preparing(s));
  }

  lemma TasksCons(value: string, rest: seq<string>, hides: string -> bool)
    ensures Tasks([value] + rest) == [Task([], Some(value))] + Tasks(rest)
    ensures Draft(Tasks([value] + rest)) == value + Draft(Tasks(rest))
    ensures Visible(Tasks([value] + rest), hides) == (if hides(value) then "" else value) + Visible(Tasks(rest), hides)
  {
    assert ([value] + rest)[1..] == rest;
    assert ([Task([], Some(value))] + Tasks(rest))[1..] == Tasks(rest);
  }

  /** An answer that arrives as one hidden value is not shown, although the run is not corrected. */
  lemma HiddenValueHidesAnswer(t: string, hides: string -> bool)
    requires t != "" && hides(t)
    ensures Completed(Emitted(Plain([t], t))) && FilteredShown("", Emitted(Plain([t], t)), hides) != t
  {
    PlainCompletes([t], t);
    TasksCons(t, [], hides);
    assert [t] + [] == [t] && t + "" == t;
    FilteredAtDone(Plain([t], t), hides);
  }

  /** Two values that pass on their own show a text that does not. */
  lemma SplitTextIsShown(a: string, b: string, hides: string -> bool)
    requires !hides(a) && !hides(b) && hides(a + b)
    ensures Completed(Emitted(Plain([a, b], a + b))) && hides(FilteredShown("", Emitted(Plain([a, b], a + b)), hides))
  {
    PlainCompletes([a, b], a + b);
    TasksCons(a, [b], hides);
    TasksCons(b, [], hides);
    assert [a] + [b] == [a, b] && [b] + [] == [b] && b + "" == b;
    HiddenTextShownIff(Plain([a, b], a + b), hides);
  }
}
