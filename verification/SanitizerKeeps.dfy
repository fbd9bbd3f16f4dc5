/** What the transport sanitizer keeps, at every depth (backend/schemas.py). */
module SanitizerKeeps {
  import opened Results
  import opened Ordering
  import opened Sanitizer

  /** The values that are dropped: local paths, numbers that are not finite, and what JSON cannot carry. */
  predicate Dropped(v: Value, p: Policy) { (v.Str? && p.localPath(v.s)) || v.NonFinite? || v.Opaque? }

  lemma DroppedIff(v: Value, p: Policy)
    ensures Sanitize(v, p).None? <==> Dropped(v, p)
  {
  }

  // ---------------------------------------------------------------- stage times

  /** A finite number that is not negative; booleans are not numbers. */
  predicate IsDuration(v: Value) { (v.Float? && v.r >= 0.0) || (v.Int? && v.n >= 0) }

  predicate IsStage(k: Key) {
    k.Text? && (k.s == "request.planning" || k.s == "branch.retrieval" || k.s == "branch.answer" || k.s == "response.aggregation")
  }

  /** The public stages with a duration, in order, as numbers, and no others. */
  ghost predicate StagesCleaned(fields: seq<(Key, Value)>, out: seq<(Key, Value)>) {
    if fields == [] then out == []
    else if !IsStage(fields[0].0) || !IsDuration(fields[0].1) then StagesCleaned(fields[1..], out)
    else
      && out != [] && out[0].0 == fields[0].0 && out[0].1.Float?
      && out[0].1.r == (if fields[0].1.Int? then fields[0].1.n as real else fields[0].1.r)
      && StagesCleaned(fields[1..], out[1..])
  }

  lemma StageNames(k: Key)
    ensures IsStage(k) <==> k.Text? && k.s in STAGE_NAMES
  {
    assert STAGE_NAMES[0] in STAGE_NAMES && STAGE_NAMES[1] in STAGE_NAMES && STAGE_NAMES[2] in STAGE_NAMES && STAGE_NAMES[3] in STAGE_NAMES;
  }

  lemma {:induction false} StagesKept(fields: seq<(Key, Value)>)
    ensures StagesCleaned(fields, StageFields(fields))
  {
    if fields != [] {
      var f, rest := fields[0], StageFields(fields[1..]);
      StagesKept(fields[1..]);
      StageNames(f.0);
      if IsStage(f.0) && IsDuration(f.1) {
        assert StageFields(fields) == [(f.0, Float(Duration(f.1).value))] + rest;
        assert StageFields(fields)[1..] == rest;
      } else {
        assert StageFields(fields) == [] + rest && [] + rest == rest;
      }
    }
  }

  // ---------------------------------------------------------------- the relation

  /** w is what is left of v: everything that is not dropped, in order, at every depth. */
  ghost predicate Cleaned(v: Value, w: Value, p: Policy)
    decreases v, 0
  {
    match v
    case Dict(fields) => w.Dict? && FieldsCleaned(fields, w.fields, p)
    case List(items) => w.List? && ItemsCleaned(items, w.items, p)
    case Tuple(items) => w.List? && ItemsCleaned(items, w.items, p)
    case SetOf(items) => w.List? && InKeyOrder(w.items, p) && exists out {:trigger ItemsCleaned(items, out, p)} :: ItemsCleaned(items, out, p) && multiset(out) == multiset(w.items)
    case _ => !Dropped(v, p) && w == v
  }

  ghost predicate ItemsCleaned(items: seq<Value>, out: seq<Value>, p: Policy)
    decreases items, 1
  {
    if items == [] then out == []
    else if Dropped(items[0], p) then ItemsCleaned(items[1..], out, p)
    else out != [] && Cleaned(items[0], out[0], p) && ItemsCleaned(items[1..], out[1..], p)
  }

  /** A field stays when its key is a text that is not sensitive and its value is not dropped. */
  predicate FieldKept(f: (Key, Value), p: Policy) {
    f.0.Text? && !p.sensitive(f.0.s) && (f.0.s == "stage_ms" || !Dropped(f.1, p))
  }

  ghost predicate FieldsCleaned(fields: seq<(Key, Value)>, out: seq<(Key, Value)>, p: Policy)
    decreases fields, 1
  {
    if fields == [] then out == []
    else if !FieldKept(fields[0], p) then FieldsCleaned(fields[1..], out, p)
    else out != [] && FieldCleaned(fields[0], out[0], p) && FieldsCleaned(fields[1..], out[1..], p)
  }

  ghost predicate FieldCleaned(f: (Key, Value), g: (Key, Value), p: Policy)
    decreases f, 0
  {
    && g.0 == f.0
    && if f.0 == Text("stage_ms") then g.1.Dict? && StagesCleaned(StagesOf(f.1), g.1.fields) else Cleaned(f.1, g.1, p)
  }

  /** The fields of a dictionary of stages; another value has none. */
  function StagesOf(v: Value): seq<(Key, Value)> { if v.Dict? then v.fields else [] }

  ghost predicate InKeyOrder(items: seq<Value>, p: Policy) {
    forall i, j :: 0 <= i < j < |items| ==> Le(p.sortKey(items[i]), p.sortKey(items[j]))
  }

  // ---------------------------------------------------------------- sets

  lemma {:induction false} InsertedItems(v: Value, sorted: seq<Value>, key: Value -> string)
    ensures multiset(InsertBy(v, sorted, key)) == multiset{v} + multiset(sorted)
  {
    if sorted != [] && !Le(key(v), key(sorted[0])) {
      InsertedItems(v, sorted[1..], key);
      assert sorted == [sorted[0]] + sorted[1..];
    }
  }

  lemma FirstIsLeast(first: Value, rest: seq<Value>, p: Policy)
    requires InKeyOrder(rest, p) && forall x :: x in rest ==> Le(p.sortKey(first), p.sortKey(x))
    ensures InKeyOrder([first] + rest, p)
  {
  }

  lemma {:induction false} Inserted(v: Value, sorted: seq<Value>, p: Policy)
    requires InKeyOrder(sorted, p)
    ensures InKeyOrder(InsertBy(v, sorted, p.sortKey), p)
  {
    var key := p.sortKey;
    if sorted == [] || Le(key(v), key(sorted[0])) {
      forall x | x in sorted ensures Le(key(v), key(x)) {
        var i :| 0 <= i < |sorted| && sorted[i] == x;
        if i > 0 { LeTransitive(key(v), key(sorted[0]), key(x)); }
      }
      FirstIsLeast(v, sorted, p);
    } else {
      var rest := InsertBy(v, sorted[1..], key);
      Inserted(v, sorted[1..], p);
      InsertedItems(v, sorted[1..], key);
      LeTotal(key(v), key(sorted[0]));
      forall x | x in rest ensures Le(key(sorted[0]), key(x)) {
        assert x in multiset(rest);
        if x != v {
          var i :| 0 <= i < |sorted[1..]| && sorted[1..][i] == x;
          assert sorted[i + 1] == x;
        }
      }
      FirstIsLeast(sorted[0], rest, p);
    }
  }

  lemma {:induction false} SortedKept(items: seq<Value>, p: Policy)
    ensures multiset(SortBy(items, p.sortKey)) == multiset(items) && InKeyOrder(SortBy(items, p.sortKey), p)
  {
    if items != [] {
      SortedKept(items[1..], p);
      Inserted(items[0], SortBy(items[1..], p.sortKey), p);
      InsertedItems(items[0], SortBy(items[1..], p.sortKey), p.sortKey);
      assert items == [items[0]] + items[1..];
    }
  }

  // ---------------------------------------------------------------- the main result

  /** What is not dropped is kept: at every depth the output has exactly what the input had and the filter allows. */
  lemma {:induction false} KeptEverywhere(v: Value, p: Policy)
    requires !Dropped(v, p)
    ensures Sanitize(v, p).Some? && Cleaned(v, Sanitize(v, p).value, p)
    decreases v, 0
  {
    match v {
      case Dict(fields) => FieldsKept(fields, p);
      case List(items) => ItemsKept(items, p);
      case Tuple(items) => ItemsKept(items, p);
      case SetOf(items) =>
        ItemsKept(items, p);
        SortedKept(SanitizeItems(items, p), p);
      case _ =>
    }
  }

  lemma {:induction false} ItemsKept(items: seq<Value>, p: Policy)
    ensures ItemsCleaned(items, SanitizeItems(items, p), p)
    decreases items, 1
  {
    if items != [] {
      var rest := SanitizeItems(items[1..], p);
      ItemsKept(items[1..], p);
      DroppedIff(items[0], p);
      if Dropped(items[0], p) {
        assert [] + rest == rest;
      } else {
        KeptEverywhere(items[0], p);
        assert SanitizeItems(items, p)[1..] == rest;
      }
    }
  }

  lemma {:induction false} FieldsKept(fields: seq<(Key, Value)>, p: Policy)
    ensures FieldsCleaned(fields, SanitizeFields(fields, p), p)
    decreases fields, 1
  {
    if fields != [] {
      var f, rest := fields[0], SanitizeFields(fields[1..], p);
      FieldsKept(fields[1..], p);
      DroppedIff(f.1, p);
      if !FieldKept(f, p) {
        assert SanitizeField(f, p) == [] && [] + rest == rest;
      } else {
        assert SanitizeFields(fields, p)[1..] == rest;
        FieldHeld(f, p);
      }
    }
  }

  lemma {:induction false} FieldHeld(f: (Key, Value), p: Policy)
    requires FieldKept(f, p)
    ensures |SanitizeField(f, p)| == 1 && FieldCleaned(f, SanitizeField(f, p)[0], p)
    decreases f, 0
  {
    if f.0.s == "stage_ms" { StagesKept(StagesOf(f.1)); } else { KeptEverywhere(f.1, p); }
  }
}
