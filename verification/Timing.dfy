/** Public stage times (backend/schemas.py), over real numbers. */
module Timing {
  import opened Sanitizer

  /** A duration that counts when it is not negative, or any other value: not a finite number, or a boolean. */
  datatype Time = Number(ms: real) | Other

  type Stages = seq<(string, Time)>

  const PLANNING := "request.planning"
  const RETRIEVAL := "branch.retrieval"
  const ANSWER := "branch.answer"
  const AGGREGATION := "response.aggregation"

  function Sources(stage: string): set<string> {
    if stage == PLANNING then {"planner.llm", "planner.normalize", "entity.resolve", "route.resolve"}
    else if stage == RETRIEVAL then
      {"retrieval.structured", "retrieval.bm25", "retrieval.dense", "retrieval.fusion", "retrieval.rerank",
       "retrieval.expand", "retrieval.allocate", "media.attach", "source_map.build"}
    else if stage == ANSWER then {"answer.llm", "citation.validate", "citation.repair"}
    else if stage == AGGREGATION then {"response.serialize"}
    else {}
  }

  predicate Belongs(name: string, stage: string) { name == stage || name in Sources(stage) }

  function Counted(t: Time): real { if t.Number? && t.ms >= 0.0 then t.ms else 0.0 }

  function Share(entry: (string, Time), stage: string): real { if Belongs(entry.0, stage) then Counted(entry.1) else 0.0 }

  function Sum(raw: Stages, stage: string): real {
    if raw == [] then 0.0 else Share(raw[0], stage) + Sum(raw[1..], stage)
  }

  /** `stage_ms` of `normalize_public_timing`. */
  function StageTimes(raw: Stages): Stages {
    [(PLANNING, Number(Sum(raw, PLANNING))), (RETRIEVAL, Number(Sum(raw, RETRIEVAL))),
     (ANSWER, Number(Sum(raw, ANSWER))), (AGGREGATION, Number(Sum(raw, AGGREGATION)))]
  }

  predicate IsStage(stage: string) { stage == PLANNING || stage == RETRIEVAL || stage == ANSWER || stage == AGGREGATION }

  predicate Known(name: string) {
    Belongs(name, PLANNING) || Belongs(name, RETRIEVAL) || Belongs(name, ANSWER) || Belongs(name, AGGREGATION)
  }

  /** All time that was recorded under a known name. */
  function Recorded(raw: Stages): real {
    if raw == [] then 0.0 else (if Known(raw[0].0) then Counted(raw[0].1) else 0.0) + Recorded(raw[1..])
  }

  // ---------------------------------------------------------------- the names of a stage

  /** The stage that the first word of an internal name stands for. */
  function WordStage(name: string): string {
    if "planner." <= name || "entity." <= name || "route." <= name then "request.planning"
    else if "retrieval." <= name || "media." <= name || "source_map." <= name then "branch.retrieval"
    else if "answer." <= name || "citation." <= name then "branch.answer"
    else "response.aggregation"
  }

  predicate Internal(name: string) {
    name in {"planner.llm", "planner.normalize", "entity.resolve", "route.resolve",
             "retrieval.structured", "retrieval.bm25", "retrieval.dense", "retrieval.fusion", "retrieval.rerank",
             "retrieval.expand", "retrieval.allocate", "media.attach", "source_map.build",
             "answer.llm", "citation.validate", "citation.repair", "response.serialize"}
  }

  lemma PlanningWords(name: string)
    requires name in {"planner.llm", "planner.normalize", "entity.resolve", "route.resolve"}
    ensures WordStage(name) == PLANNING
  {
    assert name[..8] == "planner." || name[..7] == "entity." || name[..6] == "route.";
  }

  lemma RetrievalWords(name: string)
    requires name in {"retrieval.structured", "retrieval.bm25", "retrieval.dense", "retrieval.fusion", "retrieval.rerank",
                      "retrieval.expand", "retrieval.allocate", "media.attach", "source_map.build"}
    ensures WordStage(name) == RETRIEVAL
  {
    assert name[0] != 'p' && name[0] != 'e' && (name[0] == 'r' ==> name[1] == 'e');
    assert name[0] == 'r' ==> name[..10] == "retrieval.";
    assert name[0] == 'm' ==> name[..6] == "media.";
    assert name[0] == 's' ==> name[..11] == "source_map.";
  }

  lemma OtherWords(name: string)
    requires name in {"answer.llm", "citation.validate", "citation.repair", "response.serialize"}
    ensures WordStage(name) == if name == "response.serialize" then AGGREGATION else ANSWER
  {
    assert name[0] == 'a' || name[0] == 'c' || (name[0] == 'r' && name[1] == 'e' && name[2] == 's');
    assert name[0] == 'a' ==> name[..7] == "answer.";
    assert name[0] == 'c' ==> name[..9] == "citation.";
  }

  /** The internal names are shared out to the public stages by their first words. */
  lemma FirstWordDecides(name: string, stage: string)
    requires IsStage(stage)
    ensures Belongs(name, stage) <==> name == stage || (Internal(name) && WordStage(name) == stage)
  {
    StagesDiffer();
    if name in Sources(PLANNING) { PlanningWords(name); }
    if name in Sources(RETRIEVAL) { RetrievalWords(name); }
    if name in Sources(ANSWER) || name in Sources(AGGREGATION) { OtherWords(name); }
    assert Internal(name) <==> name in Sources(PLANNING) || name in Sources(RETRIEVAL) || name in Sources(ANSWER) || name in Sources(AGGREGATION);
  }

  // ---------------------------------------------------------------- no name counts twice

  lemma PlanningNames(name: string)
    requires Belongs(name, PLANNING)
    ensures |name| > 6 && ((name[0] == 'p' && name[2] == 'a') || (name[0] == 'e' && name[2] == 't') || (name[0] == 'r' && (name[2] == 'u' || name[2] == 'q')))
  {
  }

  lemma RetrievalNames(name: string)
    requires Belongs(name, RETRIEVAL)
    ensures |name| > 7
    ensures (name[0] == 'r' && name[2] == 't') || (name[0] == 'm' && name[2] == 'd') || (name[0] == 's' && name[2] == 'u') || (name[0] == 'b' && name[7] == 'r')
  {
  }

  lemma AnswerNames(name: string)
    requires Belongs(name, ANSWER)
    ensures |name| > 7 && ((name[0] == 'a' && name[2] == 's') || (name[0] == 'c' && name[2] == 't') || (name[0] == 'b' && name[7] == 'a'))
  {
  }

  lemma AggregationNames(name: string)
    requires Belongs(name, AGGREGATION)
    ensures |name| > 7 && name[0] == 'r' && name[2] == 's'
  {
  }

  /** No name counts for two public stages. */
  lemma OneStage(name: string, a: string, b: string)
    requires IsStage(a) && IsStage(b) && Belongs(name, a) && Belongs(name, b)
    ensures a == b
  {
    if Belongs(name, PLANNING) { PlanningNames(name); }
    if Belongs(name, RETRIEVAL) { RetrievalNames(name); }
    if Belongs(name, ANSWER) { AnswerNames(name); }
    if Belongs(name, AGGREGATION) { AggregationNames(name); }
  }

  lemma SharesAddUp(entry: (string, Time))
    ensures Share(entry, PLANNING) + Share(entry, RETRIEVAL) + Share(entry, ANSWER) + Share(entry, AGGREGATION)
            == if Known(entry.0) then Counted(entry.1) else 0.0
  {
    var name := entry.0;
    assert PLANNING[0] != RETRIEVAL[0] && |ANSWER| < |RETRIEVAL| && |AGGREGATION| > |PLANNING| && |ANSWER| < |PLANNING| && |RETRIEVAL| < |AGGREGATION|;
    if Belongs(name, PLANNING) && Belongs(name, RETRIEVAL) { OneStage(name, PLANNING, RETRIEVAL); }
    if Belongs(name, PLANNING) && Belongs(name, ANSWER) { OneStage(name, PLANNING, ANSWER); }
    if Belongs(name, PLANNING) && Belongs(name, AGGREGATION) { OneStage(name, PLANNING, AGGREGATION); }
    if Belongs(name, RETRIEVAL) && Belongs(name, ANSWER) { OneStage(name, RETRIEVAL, ANSWER); }
    if Belongs(name, RETRIEVAL) && Belongs(name, AGGREGATION) { OneStage(name, RETRIEVAL, AGGREGATION); }
    if Belongs(name, ANSWER) && Belongs(name, AGGREGATION) { OneStage(name, ANSWER, AGGREGATION); }
  }

  /** The public stages share out exactly the time that was recorded under known names. */
  lemma {:induction false} TimeConserved(raw: Stages)
    ensures Sum(raw, PLANNING) + Sum(raw, RETRIEVAL) + Sum(raw, ANSWER) + Sum(raw, AGGREGATION) == Recorded(raw)
  {
    if raw != [] {
      SharesAddUp(raw[0]);
      TimeConserved(raw[1..]);
    }
  }

  lemma {:induction false} SumNonnegative(raw: Stages, stage: string)
    ensures Sum(raw, stage) >= 0.0
  {
    if raw != [] { SumNonnegative(raw[1..], stage); }
  }

  // ---------------------------------------------------------------- normalizing again

  /** A public name belongs to itself alone. */
  lemma PublicNames(name: string, stage: string)
    requires IsStage(name) && IsStage(stage)
    ensures Belongs(name, stage) <==> name == stage
  {
    assert Belongs(name, name);
    if Belongs(name, stage) { OneStage(name, name, stage); }
  }

  lemma SumOfPublic(raw: Stages, stage: string)
    requires IsStage(stage)
    ensures Sum(StageTimes(raw), stage) == Sum(raw, stage)
  {
    var t := StageTimes(raw);
    SumNonnegative(raw, stage);
    PublicNames(PLANNING, stage);
    PublicNames(RETRIEVAL, stage);
    PublicNames(ANSWER, stage);
    PublicNames(AGGREGATION, stage);
    StagesDiffer();
    SumOfFour(t[0], t[1], t[2], t[3], stage);
  }

  lemma SumOfFour(a: (string, Time), b: (string, Time), c: (string, Time), d: (string, Time), stage: string)
    ensures Sum([a, b, c, d], stage) == Share(a, stage) + Share(b, stage) + Share(c, stage) + Share(d, stage)
  {
    assert [a, b, c, d][1..] == [b, c, d] && [b, c, d][1..] == [c, d] && [c, d][1..] == [d] && [d][1..] == [];
    assert Sum([d], stage) == Share(d, stage);
    assert Sum([c, d], stage) == Share(c, stage) + Sum([d], stage);
    assert Sum([b, c, d], stage) == Share(b, stage) + Sum([c, d], stage);
  }

  lemma StagesDiffer()
    ensures PLANNING != RETRIEVAL && PLANNING != ANSWER && PLANNING != AGGREGATION
    ensures RETRIEVAL != ANSWER && RETRIEVAL != AGGREGATION && ANSWER != AGGREGATION
  {
    assert |PLANNING| == 16 && |RETRIEVAL| == 16 && PLANNING[0] != RETRIEVAL[0] && |ANSWER| == 13 && |AGGREGATION| == 20;
  }

  /** Normalizing public times changes nothing. */
  lemma TimesIdempotent(raw: Stages)
    ensures StageTimes(StageTimes(raw)) == StageTimes(raw)
  {
    SumOfPublic(raw, PLANNING);
    SumOfPublic(raw, RETRIEVAL);
    SumOfPublic(raw, ANSWER);
    SumOfPublic(raw, AGGREGATION);
  }

  predicate Failed(errors: seq<string>, stage: string) { exists name :: name in errors && Belongs(name, stage) }

  /** `error_stages` of `normalize_public_timing`. */
  function ErrorStages(errors: seq<string>): seq<string> {
    (if Failed(errors, PLANNING) then [PLANNING] else []) + (if Failed(errors, RETRIEVAL) then [RETRIEVAL] else [])
    + (if Failed(errors, ANSWER) then [ANSWER] else []) + (if Failed(errors, AGGREGATION) then [AGGREGATION] else [])
  }

  /** A public stage is reported exactly when one of its names is, and normalizing again changes nothing. */
  lemma ErrorsExact(errors: seq<string>, stage: string)
    ensures stage in ErrorStages(errors) <==> IsStage(stage) && exists name :: name in errors && Belongs(name, stage)
    ensures ErrorStages(ErrorStages(errors)) == ErrorStages(errors)
  {
    SameFailures(errors, PLANNING);
    SameFailures(errors, RETRIEVAL);
    SameFailures(errors, ANSWER);
    SameFailures(errors, AGGREGATION);
  }

  lemma SameFailures(errors: seq<string>, stage: string)
    requires IsStage(stage)
    ensures Failed(ErrorStages(errors), stage) <==> Failed(errors, stage)
  {
    var r := ErrorStages(errors);
    assert forall name :: name in r ==> IsStage(name) && Failed(errors, name);
    forall name | name in r && Belongs(name, stage) ensures name == stage { PublicNames(name, stage); }
    if Failed(errors, stage) { assert stage in r && Belongs(stage, stage); }
  }

  function AsValue(times: Stages): (v: Value)
    ensures v.Dict? && |v.fields| == |times|
  {
    Dict(seq(|times|, i requires 0 <= i < |times| => (Text(times[i].0), Float(Counted(times[i].1)))))
  }

  /** Public times pass the transport sanitizer as they are. */
  lemma TimesAreSafe(raw: Stages)
    ensures SafeStages(AsValue(StageTimes(raw)))
  {
    var t := StageTimes(raw);
    assert STAGE_NAMES == [PLANNING, RETRIEVAL, ANSWER, AGGREGATION];
    forall i | 0 <= i < 4 ensures t[i].0 in STAGE_NAMES { assert t[i].0 == STAGE_NAMES[i]; }
  }
}
