/** The transport sanitizer (backend/schemas.py): what may leave the server inside an event. */
module Sanitizer {
  import opened Results
  import opened Ordering
  import opened Folds

  datatype Key = Text(s: string) | Other(id: nat)

  /** A Python value: numbers as reals, a set with the order in which it is iterated. */
  datatype Value =
    | Nothing
    | Bool(b: bool)
    | Int(n: int)
    | Float(r: real)
    | NonFinite
    | Str(s: string)
    | List(items: seq<Value>)
    | Tuple(items: seq<Value>)
    | SetOf(items: seq<Value>)
    | Dict(fields: seq<(Key, Value)>)
    | Opaque

  /** The tests the sanitizer relies on: sensitive keys, local paths, and the key by which sets are sorted. */
  datatype Policy = Policy(sensitive: string -> bool, localPath: string -> bool, sortKey: Value -> string)

  const STAGE_NAMES: seq<string> := ["request.planning", "branch.retrieval", "branch.answer", "response.aggregation"]
  const STAGE_MS: string := "stage_ms"

  // ---------------------------------------------------------------- sanitizing

  /** `_sanitize_transport_value`; None stands for the drop marker. */
  function Sanitize(v: Value, p: Policy): Option<Value>
    decreases v, 0
  {
    match v
    case Dict(fields) => Some(Dict(SanitizeFields(fields, p)))
    case List(items) => Some(List(SanitizeItems(items, p)))
    case Tuple(items) => Some(List(SanitizeItems(items, p)))
    case SetOf(items) => Some(List(SortBy(SanitizeItems(items, p), p.sortKey)))
    case Str(s) => if p.localPath(s) then None else Some(v)
    case Opaque => None
    case NonFinite => None
    case _ => Some(v)
  }

  function SanitizeItems(items: seq<Value>, p: Policy): seq<Value>
    decreases items, 1
  {
    if items == [] then []
    else Keep(Sanitize(items[0], p)) + SanitizeItems(items[1..], p)
  }

  function Keep(v: Option<Value>): seq<Value> {
    match v case None => [] case Some(w) => [w]
  }

  function SanitizeFields(fields: seq<(Key, Value)>, p: Policy): seq<(Key, Value)>
    decreases fields, 1
  {
    if fields == [] then [] else SanitizeField(fields[0], p) + SanitizeFields(fields[1..], p)
  }

  function SanitizeField(f: (Key, Value), p: Policy): seq<(Key, Value)>
    decreases f, 0
  {
    if f.0.Other? || p.sensitive(f.0.s) then []
    else if f.0.s == STAGE_MS then [(f.0, StageMs(f.1))]
    else match Sanitize(f.1, p) case None => [] case Some(w) => [(f.0, w)]
  }

  /** `_sanitize_stage_ms`: only the public stages, with durations that are finite and not negative. */
  function StageMs(v: Value): Value {
    if v.Dict? then Dict(StageFields(v.fields)) else Dict([])
  }

  function StageFields(fields: seq<(Key, Value)>): seq<(Key, Value)> {
    if fields == [] then []
    else
      (match Duration(fields[0].1)
       case Some(d) => if fields[0].0.Text? && fields[0].0.s in STAGE_NAMES && d >= 0.0 then [(fields[0].0, Float(d))] else []
       case None => [])
      + StageFields(fields[1..])
  }

  /** `float(duration)` of a finite number; booleans are not durations. */
  function Duration(v: Value): Option<real> {
    match v case Int(n) => Some(n as real) case Float(r) => Some(r) case _ => None
  }

  /** `sorted(items, key=...)`, which is stable. */
  function SortBy(items: seq<Value>, key: Value -> string): seq<Value> {
    if items == [] then [] else InsertBy(items[0], SortBy(items[1..], key), key)
  }

  function InsertBy(v: Value, sorted: seq<Value>, key: Value -> string): seq<Value> {
    if sorted == [] || Le(key(v), key(sorted[0])) then [v] + sorted
    else [sorted[0]] + InsertBy(v, sorted[1..], key)
  }

  /** `sanitize_transport_value`. */
  function Sanitized(v: Value, p: Policy): Value {
    match Sanitize(v, p) case None => Nothing case Some(w) => w
  }

  // ---------------------------------------------------------------- what is safe to send

  /** At every depth: no sensitive key, no local path, no value that JSON cannot carry. */
  predicate Safe(v: Value, p: Policy)
    decreases v
  {
    match v
    case Dict(fields) =>
      forall i | 0 <= i < |fields| ::
        && fields[i].0.Text? && !p.sensitive(fields[i].0.s)
        && if fields[i].0.s == STAGE_MS then SafeStages(fields[i].1) else Safe(fields[i].1, p)
    case List(items) => forall i | 0 <= i < |items| :: Safe(items[i], p)
    case Str(s) => !p.localPath(s)
    case Tuple(_) => false
    case SetOf(_) => false
    case Opaque => false
    case NonFinite => false
    case _ => true
  }

  predicate SafeStages(v: Value) {
    v.Dict? &&
    forall i | 0 <= i < |v.fields| ::
      && v.fields[i].0.Text? && v.fields[i].0.s in STAGE_NAMES
      && v.fields[i].1.Float? && v.fields[i].1.r >= 0.0
  }

  lemma {:induction false} StageFieldsSafe(fields: seq<(Key, Value)>)
    ensures SafeStages(Dict(StageFields(fields)))
    ensures SafeStages(Dict(fields)) ==> StageFields(fields) == fields
  {
    if fields != [] {
      StageFieldsSafe(fields[1..]);
      if SafeStages(Dict(fields)) {
        assert fields[0] == (fields[0].0, Float(fields[0].1.r));
        assert forall i :: 0 <= i < |fields[1..]| ==> fields[1..][i] == fields[i + 1];
        assert [fields[0]] + fields[1..] == fields;
      }
    }
  }

  lemma {:induction false} InsertBySafe(v: Value, sorted: seq<Value>, p: Policy)
    requires Safe(v, p) && Safe(List(sorted), p)
    ensures Safe(List(InsertBy(v, sorted, p.sortKey)), p)
  {
    if sorted != [] && !Le(p.sortKey(v), p.sortKey(sorted[0])) {
      assert forall i :: 0 <= i < |sorted[1..]| ==> sorted[1..][i] == sorted[i + 1];
      InsertBySafe(v, sorted[1..], p);
    }
  }

  lemma {:induction false} SortBySafe(items: seq<Value>, p: Policy)
    requires Safe(List(items), p)
    ensures Safe(List(SortBy(items, p.sortKey)), p)
  {
    if items != [] {
      assert forall i :: 0 <= i < |items[1..]| ==> items[1..][i] == items[i + 1];
      SortBySafe(items[1..], p);
      InsertBySafe(items[0], SortBy(items[1..], p.sortKey), p);
    }
  }

  /** Whatever goes in, what comes out is safe at every depth. */
  lemma {:induction false} OutputSafe(v: Value, p: Policy)
    ensures match Sanitize(v, p) case None => true case Some(w) => Safe(w, p)
    decreases v, 0
  {
    match v {
      case Dict(fields) => FieldsSafe(fields, p);
      case List(items) => ItemsSafe(items, p);
      case Tuple(items) => ItemsSafe(items, p);
      case SetOf(items) =>
        ItemsSafe(items, p);
        SortBySafe(SanitizeItems(items, p), p);
      case _ =>
    }
  }

  lemma {:induction false} ItemsSafe(items: seq<Value>, p: Policy)
    ensures Safe(List(SanitizeItems(items, p)), p)
    decreases items, 1
  {
    if items != [] {
      OutputSafe(items[0], p);
      ItemsSafe(items[1..], p);
    }
  }

  lemma {:induction false} FieldsSafe(fields: seq<(Key, Value)>, p: Policy)
    ensures Safe(Dict(SanitizeFields(fields, p)), p)
    decreases fields, 1
  {
    if fields != [] {
      FieldSafe(fields[0], p);
      FieldsSafe(fields[1..], p);
    }
  }

  lemma {:induction false} FieldSafe(f: (Key, Value), p: Policy)
    ensures Safe(Dict(SanitizeField(f, p)), p)
    decreases f, 0
  {
    OutputSafe(f.1, p);
    if f.1.Dict? { StageFieldsSafe(f.1.fields); }
  }

  /** The sanitizer changes nothing exactly when the value is already safe. */
  lemma {:induction false} SafeIffUnchanged(v: Value, p: Policy)
    ensures Safe(v, p) <==> Sanitize(v, p) == Some(v)
    decreases v, 0
  {
    OutputSafe(v, p);
    if Safe(v, p) {
      match v {
        case Dict(fields) => FieldsUnchanged(fields, p);
        case List(items) => ItemsUnchanged(items, p);
        case _ =>
      }
    }
  }

  lemma {:induction false} ItemsUnchanged(items: seq<Value>, p: Policy)
    requires Safe(List(items), p)
    ensures SanitizeItems(items, p) == items
    decreases items, 1
  {
    if items != [] {
      SafeIffUnchanged(items[0], p);
      assert forall i :: 0 <= i < |items[1..]| ==> items[1..][i] == items[i + 1];
      ItemsUnchanged(items[1..], p);
      assert [items[0]] + items[1..] == items;
    }
  }

  lemma {:induction false} FieldsUnchanged(fields: seq<(Key, Value)>, p: Policy)
    requires Safe(Dict(fields), p)
    ensures SanitizeFields(fields, p) == fields
    decreases fields, 1
  {
    if fields != [] {
      FieldUnchanged(fields[0], p);
      assert forall i :: 0 <= i < |fields[1..]| ==> fields[1..][i] == fields[i + 1];
      FieldsUnchanged(fields[1..], p);
      assert [fields[0]] + fields[1..] == fields;
    }
  }

  lemma {:induction false} FieldUnchanged(f: (Key, Value), p: Policy)
    requires Safe(Dict([f]), p)
    ensures SanitizeField(f, p) == [f]
    decreases f, 0
  {
    assert [f][0] == f && f == (f.0, f.1);
    if f.0.s == STAGE_MS {
      StageFieldsSafe(f.1.fields);
    } else {
      SafeIffUnchanged(f.1, p);
    }
  }

  /** Sanitizing twice is sanitizing once, on every nested value. */
  lemma SanitizeIdempotent(v: Value, p: Policy)
    ensures Sanitized(Sanitized(v, p), p) == Sanitized(v, p)
    ensures Safe(Sanitized(v, p), p)
  {
    OutputSafe(v, p);
    SafeIffUnchanged(Sanitized(v, p), p);
  }

  // ---------------------------------------------------------------- sets

  lemma {:induction false} InsertsCommute(a: Value, b: Value, s: seq<Value>, key: Value -> string)
    requires key(a) == key(b) ==> a == b
    ensures InsertBy(a, InsertBy(b, s, key), key) == InsertBy(b, InsertBy(a, s, key), key)
  {
    var ka, kb := key(a), key(b);
    LeTotal(ka, kb);
    if Le(ka, kb) && Le(kb, ka) { LeAntisymmetric(ka, kb); }
    if s != [] {
      var k := key(s[0]);
      InsertsCommute(a, b, s[1..], key);
      if Le(ka, kb) && Le(kb, k) { LeTransitive(ka, kb, k); }
      if Le(kb, ka) && Le(ka, k) { LeTransitive(kb, ka, k); }
      assert ([s[0]] + InsertBy(b, s[1..], key))[1..] == InsertBy(b, s[1..], key);
      assert ([s[0]] + InsertBy(a, s[1..], key))[1..] == InsertBy(a, s[1..], key);
    }
    assert ([b] + s)[1..] == s && ([a] + s)[1..] == s;
  }

  /** Add one element of a set to the sorted result. */
  function AddToSet(p: Policy): (Value, seq<Value>) -> seq<Value> {
    (v: Value, result: seq<Value>) => match Sanitize(v, p) case None => result case Some(w) => InsertBy(w, result, p.sortKey)
  }

  lemma {:induction false} SetResultIsFold(items: seq<Value>, p: Policy)
    ensures SortBy(SanitizeItems(items, p), p.sortKey) == Fold(items, AddToSet(p), [])
  {
    if items != [] {
      SetResultIsFold(items[1..], p);
      var rest := SanitizeItems(items[1..], p);
      match Sanitize(items[0], p) {
        case None => assert [] + rest == rest;
        case Some(w) => assert ([w] + rest)[1..] == rest;
      }
    }
  }

  /** The sort keys of two sanitized elements tell them apart, as JSON texts do. */
  predicate KeysTellApart(v: Value, w: Value, p: Policy) {
    match (Sanitize(v, p), Sanitize(w, p))
    case (Some(a), Some(b)) => p.sortKey(a) == p.sortKey(b) ==> a == b
    case _ => true
  }

  lemma AddsCommute(v: Value, w: Value, p: Policy)
    requires KeysTellApart(v, w, p)
    ensures Commute(AddToSet(p), v, w)
  {
    var (a, b) := (Sanitize(v, p), Sanitize(w, p));
    if a.Some? && b.Some? {
      forall result: seq<Value>
        ensures InsertBy(a.value, InsertBy(b.value, result, p.sortKey), p.sortKey)
             == InsertBy(b.value, InsertBy(a.value, result, p.sortKey), p.sortKey)
      {
        InsertsCommute(a.value, b.value, result, p.sortKey);
      }
    }
  }

  /** The result for a set does not depend on the order in which it is iterated. */
  lemma SetOrderIrrelevant(a: seq<Value>, b: seq<Value>, p: Policy)
    requires multiset(a) == multiset(b)
    requires forall x, y :: x in b && y in b ==> KeysTellApart(x, y, p)
    ensures Sanitize(SetOf(a), p) == Sanitize(SetOf(b), p)
  {
    forall x, y | x in b && y in b ensures Commute(AddToSet(p), x, y) {
      AddsCommute(x, y, p);
    }
    OrderIrrelevant(a, b, AddToSet(p), []);
    SetResultIsFold(a, p);
    SetResultIsFold(b, p);
  }
}
