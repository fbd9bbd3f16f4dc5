/**
 The staged answer stream (backend/sse.py): a generator over an arbitrary chain, client and clock.
 A script fixes what the environment does: polls of the connection, time-outs, results and failures,
 and the yield at which the consumer closes the generator.
 */
module Stream {
  import opened Results

  datatype Phase = Understanding | Retrieving | Generating | Validating | CorrectedPhase | FailedPhase

  datatype Event =
    | Status(phase: Phase)
    | Sources
    | Token(token: string)
    | AnswerReplace(answer: string, reason: string)
    | Error(message: string, during: Phase, partial: bool)
    | Done(final: string, corrected: bool)
    | Heartbeat

  const PREPARE_ERROR: string := "问答处理失败，请稍后重试。"
  const SAFE_STREAM_ERROR: string := "回答生成失败，请稍后重试。"
  const SAFE_VALIDATION_ERROR: string := "回答校验失败，请稍后重试。"
  const SAFE_VALIDATION_FALLBACK: string := "回答校验失败，未展示未经验证的草稿。"

  /** One turn of the waiting loop: the poll of the connection and whether the wait timed out. */
  datatype Round = Round(disconnected: bool, timedOut: bool)

  /** A task: the rounds spent waiting for it, and its value; None when it raises. */
  datatype Task<+T> = Task(rounds: seq<Round>, result: Option<T>)

  datatype Prepared = Prepared(mode: string)
  datatype Packet = Packet(answer: string)

  datatype Script = Script(
    memory: bool,
    goneAtStart: bool, goneBeforeRetrieving: bool,
    prepare: Task<Prepared>,
    goneAfterPrepare: bool, sourcesFail: bool, goneBeforeGenerating: bool,
    upstream: seq<Task<string>>, upstreamEnd: Task<()>,
    goneAfterGenerating: bool,
    finalize: Task<Packet>,
    serializeFails: bool, goneBeforeCorrection: bool, goneBeforeDone: bool, turnFails: bool,
    closeAt: Option<nat>)

  // ---------------------------------------------------------------- waiting

  /** `_heartbeats_until`: how many heartbeats are sent, and whether the client is found gone. */
  function Wait(rounds: seq<Round>): (nat, bool) {
    if rounds == [] then (0, false)
    else if rounds[0].disconnected then (0, true)
    else if !rounds[0].timedOut then (0, false)
    else
      var (n, gone) := Wait(rounds[1..]);
      (n + 1, gone)
  }

  function Beats(n: nat): (r: seq<Event>)
    ensures |r| == n && forall i :: 0 <= i < n ==> r[i] == Heartbeat
  {
    seq(n, _ => Heartbeat)
  }

  lemma NoBeats(rest: seq<Event>)
    ensures Beats(0) + rest == rest
  {
  }

  lemma OneBeat(n: nat, rest: seq<Event>)
    ensures Beats(n + 1) + rest == [Heartbeat] + (Beats(n) + rest)
  {
  }

  lemma WaitStep(rounds: seq<Round>, i: nat)
    requires i < |rounds|
    ensures Wait(rounds[i..]) ==
      if rounds[i].disconnected then (0, true)
      else if !rounds[i].timedOut then (0, false)
      else (Wait(rounds[i + 1..]).0 + 1, Wait(rounds[i + 1..]).1)
  {
    assert rounds[i..][1..] == rounds[i + 1..];
  }

  /** An item of `_stream_with_heartbeats`, and how it ends. */
  datatype Pulse<+T> = Beat | Item(value: T)
  datatype Ending = Exhausted | Raised | ClientGone

  function PulseBeats<T>(n: nat): seq<Pulse<T>> {
    seq(n, _ => Beat)
  }

  function Pulses<T>(items: seq<Task<T>>, last: Task<()>): (seq<Pulse<T>>, Ending) {
    var task := if items == [] then last.rounds else items[0].rounds;
    var (n, gone) := Wait(task);
    if gone then (PulseBeats(n), ClientGone)
    else if items == [] then (PulseBeats(n), if last.result.Some? then Exhausted else Raised)
    else if items[0].result.None? then (PulseBeats(n), Raised)
    else
      var (rest, ending) := Pulses(items[1..], last);
      (PulseBeats(n) + [Item(items[0].result.value)] + rest, ending)
  }

  /** The wait for one task: a heartbeat for each time-out, until the task is done or the client is gone. */
  method AwaitWithHeartbeats<T>(rounds: seq<Round>) returns (beats: seq<Pulse<T>>, gone: bool)
    ensures beats == PulseBeats(Wait(rounds).0) && gone == Wait(rounds).1
  {
    beats := [];
    var k := 0;
    assert rounds[0..] == rounds;
    while k < |rounds| && !rounds[k].disconnected && rounds[k].timedOut
      invariant 0 <= k <= |rounds|
      invariant Wait(rounds) == (Wait(rounds[k..]).0 + k, Wait(rounds[k..]).1)
      invariant beats == PulseBeats(k)
    {
      assert rounds[k..][1..] == rounds[k + 1..];
      assert PulseBeats<T>(k + 1) == PulseBeats(k) + [Beat];
      beats := beats + [Beat];
      k := k + 1;
    }
    gone := k < |rounds| && rounds[k].disconnected;
  }

  lemma PulsesSplit<T>(sent: seq<Pulse<T>>, beats: seq<Pulse<T>>, v: T, rest: seq<Pulse<T>>)
    ensures sent + (beats + [Item(v)] + rest) == (sent + beats + [Item(v)]) + rest
  {
  }

  /** `_stream_with_heartbeats`. */
  method StreamWithHeartbeats<T>(items: seq<Task<T>>, last: Task<()>) returns (sent: seq<Pulse<T>>, ending: Ending)
    ensures (sent, ending) == Pulses(items, last)
  {
    sent := [];
    var i := 0;
    assert items[0..] == items;
    assert [] + Pulses(items, last).0 == Pulses(items, last).0;
    while true
      invariant 0 <= i <= |items|
      invariant Pulses(items, last) == (sent + Pulses(items[i..], last).0, Pulses(items[i..], last).1)
      decreases |items| - i
    {
      var beats, gone := AwaitWithHeartbeats(if i == |items| then last.rounds else items[i].rounds);
      if gone { return sent + beats, ClientGone; }
      if i == |items| { return sent + beats, if last.result.Some? then Exhausted else Raised; }
      if items[i].result.None? { return sent + beats, Raised; }
      assert items[i..][1..] == items[i + 1..];
      PulsesSplit(sent, beats, items[i].result.value, Pulses(items[i + 1..], last).0);
      sent := sent + beats + [Item(items[i].result.value)];
      i := i + 1;
    }
  }

  // ---------------------------------------------------------------- the events, stage by stage

  function Failure(message: string, during: Phase, partial: bool): seq<Event> {
    [Status(FailedPhase), Error(message, during, partial)]
  }

  /** The events of a run whose consumer never closes it. */
  function Full(s: Script): seq<Event> {
    if s.goneAtStart then []
    else [Status(Understanding)] + if s.goneBeforeRetrieving then [] else [Status(Retrieving)] + Preparing(s)
  }

  function Preparing(s: Script): seq<Event> {
    var (n, gone) := Wait(s.prepare.rounds);
    Beats(n) + if gone then [] else
      match s.prepare.result
      case None => Failure(PREPARE_ERROR, Retrieving, false)
      case Some(p) => Sourcing(s, p)
  }

  function Sourcing(s: Script, p: Prepared): seq<Event> {
    if s.goneAfterPrepare || s.sourcesFail then []
    else if p.mode == "none" then [Sources] + Finalizing(s, p, "")
    else if s.goneBeforeGenerating then [Sources]
    else [Sources] + ([Status(Generating)] + Streaming(s, p, s.upstream, ""))
  }

  function Streaming(s: Script, p: Prepared, items: seq<Task<string>>, draft: string): seq<Event> {
    if items == [] then
      var (n, gone) := Wait(s.upstreamEnd.rounds);
      Beats(n) + if gone then []
                 else if s.upstreamEnd.result.None? then Failure(SAFE_STREAM_ERROR, Generating, draft != "")
                 else if s.goneAfterGenerating then []
                 else [Status(Validating)] + Finalizing(s, p, draft)
    else
      var (n, gone) := Wait(items[0].rounds);
      Beats(n) + if gone then [] else
        match items[0].result
        case None => Failure(SAFE_STREAM_ERROR, Generating, draft != "")
        case Some(t) => (if t == "" then [] else [Token(t)]) + Streaming(s, p, items[1..], draft + t)
  }

  function Finalizing(s: Script, p: Prepared, draft: string): seq<Event> {
    var (n, gone) := Wait(s.finalize.rounds);
    Beats(n) + if gone then [] else
      match s.finalize.result
      case None =>
        (if draft != "" then [AnswerReplace(SAFE_VALIDATION_FALLBACK, "safe_fallback")] else [])
        + Failure(SAFE_VALIDATION_ERROR, Validating, false)
      case Some(packet) => if s.serializeFails then [] else Finishing(s, p, draft, packet)
  }

  function Finishing(s: Script, p: Prepared, draft: string, packet: Packet): seq<Event> {
    var corrected := p.mode != "none" && draft != packet.answer;
    var last := if s.goneBeforeDone || s.turnFails then [] else [Done(packet.answer, corrected)];
    if !corrected then last
    else if s.goneBeforeCorrection then []
    else [AnswerReplace(packet.answer, "citation_validation"), Status(CorrectedPhase)] + last
  }

  /** The events the consumer receives: all of them, or those up to the yield at which it closes the generator. */
  function Emitted(s: Script): seq<Event> {
    var all := Full(s);
    if s.closeAt.Some? && s.closeAt.value < |all| then all[..s.closeAt.value + 1] else all
  }

  // ---------------------------------------------------------------- the generator

  datatype LogItem = Acquire | Yield(event: Event) | Release(withTurn: bool)

  predicate Completed(events: seq<Event>) {
    exists i :: 0 <= i < |events| && events[i].Done?
  }

  function Yields(events: seq<Event>): seq<LogItem> {
    seq(|events|, i requires 0 <= i < |events| => Yield(events[i]))
  }

  /** Everything observable of a run: the lease, the events and the release. */
  function Log(s: Script): seq<LogItem> {
    if s.memory then [Acquire] + Yields(Emitted(s)) + [Release(Completed(Emitted(s)))] else Yields(Emitted(s))
  }

  class Generator {
    const script: Script
    var events: seq<Event>
    var log: seq<LogItem>
    var turn: bool

    constructor (s: Script)
      ensures script == s && events == [] && log == [] && !turn
    {
      script := s;
      events, log, turn := [], [], false;
    }

    /** The generator is alive and exactly the events `rest` are still to come. */
    ghost predicate Before(rest: seq<Event>) reads this {
      && events + rest == Full(script) && !turn && !Completed(events)
      && (script.closeAt.Some? ==> |events| <= script.closeAt.value)
      && log == (if script.memory then [Acquire] else []) + Yields(events)
    }

    /** The generator has ended: by itself, or because its consumer closed it. */
    ghost predicate Over() reads this {
      && events == Emitted(script) && turn == Completed(events)
      && log == (if script.memory then [Acquire] else []) + Yields(events)
    }

    /** Hand one event to the consumer, who may close the generator at this yield. */
    method Emit(e: Event, ghost rest: seq<Event>) returns (alive: bool)
      requires Before([e] + rest) && !e.Done?
      modifies this`events, this`log
      ensures alive ==> Before(rest)
      ensures !alive ==> Over()
    {
      ghost var was := events;
      assert events + [e] + rest == events + ([e] + rest);
      alive := script.closeAt != Some(|events|);
      events := events + [e];
      log := log + [Yield(e)];
      assert Yields(events) == Yields(was) + [Yield(e)];
      assert forall i :: 0 <= i < |was| ==> events[i] == was[i];
      assert !alive ==> events == Full(script)[..|was| + 1];
    }

    /** Nothing is left to be sent. */
    lemma AtEnd()
      requires Before([])
      ensures Over()
    {
      assert events + [] == events;
    }

    /** Wait for a task, sending a heartbeat after every time-out. */
    method AwaitTask(rounds: seq<Round>, ghost rest: seq<Event>) returns (alive: bool, gone: bool)
      requires Before(Beats(Wait(rounds).0) + rest)
      modifies this`events, this`log
      ensures alive ==> gone == Wait(rounds).1 && Before(rest)
      ensures !alive ==> Over()
    {
      var i := 0;
      alive, gone := true, false;
      assert rounds[0..] == rounds;
      while i < |rounds|
        invariant 0 <= i <= |rounds|
        invariant Before(Beats(Wait(rounds[i..]).0) + rest) && Wait(rounds[i..]).1 == Wait(rounds).1
      {
        WaitStep(rounds, i);
        NoBeats(rest);
        if rounds[i].disconnected { return true, true; }
        if !rounds[i].timedOut { return true, false; }
        OneBeat(Wait(rounds[i + 1..]).0, rest);
        alive := Emit(Heartbeat, Beats(Wait(rounds[i + 1..]).0) + rest);
        if !alive { return; }
        i := i + 1;
      }
      NoBeats(rest);
    }

    method EmitFailure(message: string, during: Phase, partial: bool)
      requires Before(Failure(message, during, partial))
      modifies this`events, this`log
      ensures Over()
    {
      assert Failure(message, during, partial) == [Status(FailedPhase)] + ([Error(message, during, partial)] + []);
      var alive := Emit(Status(FailedPhase), [Error(message, during, partial)] + []);
      if !alive { return; }
      alive := Emit(Error(message, during, partial), []);
      if alive { AtEnd(); }
    }

    method Finish(p: Prepared, draft: string, packet: Packet)
      requires Before(Finishing(script, p, draft, packet))
      modifies this
      ensures Over()
    {
      var corrected := p.mode != "none" && draft != packet.answer;
      ghost var last := if script.goneBeforeDone || script.turnFails then [] else [Done(packet.answer, corrected)];
      if corrected {
        if script.goneBeforeCorrection { AtEnd(); return; }
        var replace := AnswerReplace(packet.answer, "citation_validation");
        assert [replace, Status(CorrectedPhase)] + last == [replace] + ([Status(CorrectedPhase)] + last);
        var alive := Emit(replace, [Status(CorrectedPhase)] + last);
        if !alive { return; }
        alive := Emit(Status(CorrectedPhase), last);
        if !alive { return; }
      }
      if script.goneBeforeDone || script.turnFails { AtEnd(); return; }
      SendDone(packet.answer, corrected);
    }

    /** The last event; the turn is complete before it is sent. */
    method SendDone(answer: string, corrected: bool)
      requires Before([Done(answer, corrected)])
      modifies this
      ensures Over()
    {
      turn := true;
      ghost var was := events;
      events := events + [Done(answer, corrected)];
      log := log + [Yield(Done(answer, corrected))];
      assert Yields(events) == Yields(was) + [Yield(Done(answer, corrected))];
      assert events[|was|].Done?;
    }

    method Finalize(p: Prepared, draft: string)
      requires Before(Finalizing(script, p, draft))
      modifies this
      ensures Over()
    {
      ghost var rest := Finalizing(script, p, draft)[Wait(script.finalize.rounds).0..];
      var alive, gone := AwaitTask(script.finalize.rounds, rest);
      if !alive { return; }
      if gone { AtEnd(); return; }
      match script.finalize.result {
        case None =>
          if draft != "" {
            var replace := AnswerReplace(SAFE_VALIDATION_FALLBACK, "safe_fallback");
            alive := Emit(replace, Failure(SAFE_VALIDATION_ERROR, Validating, false));
            if !alive { return; }
          }
          EmitFailure(SAFE_VALIDATION_ERROR, Validating, false);
        case Some(packet) =>
          if script.serializeFails { AtEnd(); return; }
          Finish(p, draft, packet);
      }
    }

    method StreamAnswer(p: Prepared)
      requires Before(Streaming(script, p, script.upstream, ""))
      modifies this
      ensures Over()
    {
      var draft := "";
      var i := 0;
      assert script.upstream[0..] == script.upstream;
      while i < |script.upstream|
        invariant 0 <= i <= |script.upstream|
        invariant Before(Streaming(script, p, script.upstream[i..], draft))
      {
        var item := script.upstream[i];
        assert script.upstream[i..][1..] == script.upstream[i + 1..];
        ghost var rest := Streaming(script, p, script.upstream[i..], draft)[Wait(item.rounds).0..];
        var alive, gone := AwaitTask(item.rounds, rest);
        if !alive { return; }
        if gone { AtEnd(); return; }
        match item.result {
          case None =>
            EmitFailure(SAFE_STREAM_ERROR, Generating, draft != "");
            return;
          case Some(t) =>
            if t != "" {
              alive := Emit(Token(t), Streaming(script, p, script.upstream[i + 1..], draft + t));
              if !alive { return; }
            } else {
              assert draft + t == draft;
              assert [] + Streaming(script, p, script.upstream[i + 1..], draft) == Streaming(script, p, script.upstream[i + 1..], draft);
            }
            draft := draft + t;
        }
        i := i + 1;
      }
      EndAnswer(p, draft);
    }

    /** After the last value: wait for the end of the upstream, and validate. */
    method EndAnswer(p: Prepared, draft: string)
      requires Before(Streaming(script, p, [], draft))
      modifies this
      ensures Over()
    {
      ghost var rest := Streaming(script, p, [], draft)[Wait(script.upstreamEnd.rounds).0..];
      var alive, gone := AwaitTask(script.upstreamEnd.rounds, rest);
      if !alive { return; }
      if gone { AtEnd(); return; }
      if script.upstreamEnd.result.None? { EmitFailure(SAFE_STREAM_ERROR, Generating, draft != ""); return; }
      if script.goneAfterGenerating { AtEnd(); return; }
      alive := Emit(Status(Validating), Finalizing(script, p, draft));
      if alive { Finalize(p, draft); }
    }

    method Source(p: Prepared)
      requires Before(Sourcing(script, p))
      modifies this
      ensures Over()
    {
      if script.goneAfterPrepare || script.sourcesFail { AtEnd(); return; }
      var alive := Emit(Sources, Sourcing(script, p)[1..]);
      if !alive { return; }
      if p.mode == "none" {
        Finalize(p, "");
      } else {
        if script.goneBeforeGenerating { AtEnd(); return; }
        alive := Emit(Status(Generating), Streaming(script, p, script.upstream, ""));
        if alive { StreamAnswer(p); }
      }
    }

    method Body()
      requires Before(Full(script))
      modifies this
      ensures Over()
    {
      if script.goneAtStart { AtEnd(); return; }
      var alive := Emit(Status(Understanding), Full(script)[1..]);
      if !alive { return; }
      if script.goneBeforeRetrieving { AtEnd(); return; }
      alive := Emit(Status(Retrieving), Preparing(script));
      if !alive { return; }
      ghost var rest := Preparing(script)[Wait(script.prepare.rounds).0..];
      var gone;
      alive, gone := AwaitTask(script.prepare.rounds, rest);
      if !alive { return; }
      if gone { AtEnd(); return; }
      match script.prepare.result {
        case None => EmitFailure(PREPARE_ERROR, Retrieving, false);
        case Some(p) => Source(p);
      }
    }

    /** `rag_stream_generator`: the lease is released in a `finally`, with the turn if there is one. */
    method RunAll()
      requires events == [] && log == [] && !turn
      modifies this
      ensures events == Emitted(script) && log == Log(script)
    {
      if script.memory { log := log + [Acquire]; }
      assert [] + Full(script) == Full(script);
      assert Yields([]) == [];
      Body();
      if script.memory { log := log + [Release(turn)]; }
    }
  }
}
