/** The encoder of the stream (backend/sse.py, `sse_event`): sanitize, then print. */
module SseEvent {
  import opened Results
  import opened Texts
  import opened Sanitizer
  import J = Json
  import F = SseFormat
  import U = Utf8

  // ---------------------------------------------------------------- from Python values to JSON

  function Digits(n: nat): string {
    if n < 10 then [('0' as int + n) as char] else Digits(n / 10) + [('0' as int + n % 10) as char]
  }

  function Decimal(n: int): string {
    if n < 0 then "-" + Digits(-n) else Digits(n)
  }

  /** How a safe value is printed; `render` is the decimal rendering of finite floats. */
  function ToJson(v: Value, render: real -> string): J.Json
    decreases v, 0
  {
    match v
    case Bool(b) => J.Bool(b)
    case Int(n) => J.Num(Decimal(n))
    case Float(r) => J.Num(render(r))
    case Str(s) => J.Str(s)
    case List(items) => J.Arr(ItemsToJson(items, render))
    case Dict(fields) => J.Obj(FieldsToJson(fields, render))
    case _ => J.Null
  }

  function ItemsToJson(items: seq<Value>, render: real -> string): (r: seq<J.Json>)
    ensures |r| == |items|
    decreases items, 1
  {
    if items == [] then [] else [ToJson(items[0], render)] + ItemsToJson(items[1..], render)
  }

  function Name(k: Key): string { match k case Text(s) => s case Other(_) => "" }

  function FieldsToJson(fields: seq<(Key, Value)>, render: real -> string): (r: seq<(string, J.Json)>)
    ensures |r| == |fields| && forall i :: 0 <= i < |fields| ==> r[i].0 == Name(fields[i].0)
    decreases fields, 1
  {
    if fields == [] then [] else [FieldToJson(fields[0], render)] + FieldsToJson(fields[1..], render)
  }

  function FieldToJson(f: (Key, Value), render: real -> string): (string, J.Json)
    decreases f, 0
  {
    (Name(f.0), ToJson(f.1, render))
  }

  /** Dictionaries have distinct keys, at every depth. */
  predicate Keyed(v: Value)
    decreases v
  {
    match v
    case Dict(fields) => DistinctKeys(fields) && forall i | 0 <= i < |fields| :: Keyed(fields[i].1)
    case List(items) => forall i | 0 <= i < |items| :: Keyed(items[i])
    case Tuple(items) => forall i | 0 <= i < |items| :: Keyed(items[i])
    case SetOf(items) => forall i | 0 <= i < |items| :: Keyed(items[i])
    case _ => true
  }

  predicate DistinctKeys(fields: seq<(Key, Value)>) {
    forall i, j | 0 <= i < j < |fields| :: fields[i].0 != fields[j].0
  }

  lemma {:induction false} DigitsAreNumber(n: nat)
    ensures var d := Digits(n); d != [] && IsDigit(d[0]) && (n >= 10 ==> d[0] != '0')
    ensures J.DropDigits(Digits(n)) == ""
  {
    if n >= 10 {
      DigitsAreNumber(n / 10);
      DropLastDigit(Digits(n / 10), ('0' as int + n % 10) as char);
    }
  }

  lemma {:induction false} DropLastDigit(s: string, c: char)
    requires J.DropDigits(s) == "" && IsDigit(c)
    ensures J.DropDigits(s + [c]) == ""
  {
    if s == "" {
      assert s + [c] == [c];
      assert J.DropDigits([c]) == J.DropDigits([c][1..]);
    } else {
      assert (s + [c])[1..] == s[1..] + [c];
      DropLastDigit(s[1..], c);
    }
  }

  lemma DecimalIsNumber(n: int)
    ensures J.IsNumber(Decimal(n))
  {
    var m := if n < 0 then -n else n;
    DigitsAreNumber(m);
    var d := Digits(m);
    assert n < 0 ==> Decimal(n)[1..] == d;
    if m < 10 { assert d[1..] == ""; }
    assert d[0] == '0' ==> d[1..] == "";
    assert n >= 0 ==> d[0] != '-';
  }

  lemma {:induction false} JsonWellFormed(v: Value, p: Policy, render: real -> string)
    requires Safe(v, p) && Keyed(v) && forall r :: J.IsNumber(render(r))
    ensures J.WellFormed(ToJson(v, render))
    decreases v, 0
  {
    match v {
      case Int(n) => DecimalIsNumber(n);
      case List(items) => ItemsWellFormed(items, p, render);
      case Dict(fields) =>
        FieldsWellFormed(fields, p, render);
        var out := FieldsToJson(fields, render);
        forall i, j | 0 <= i < j < |out| ensures out[i].0 != out[j].0 { assert fields[i].0 != fields[j].0; }
      case _ =>
    }
  }

  lemma {:induction false} ItemsWellFormed(items: seq<Value>, p: Policy, render: real -> string)
    requires forall i :: 0 <= i < |items| ==> Safe(items[i], p) && Keyed(items[i])
    requires forall r :: J.IsNumber(render(r))
    ensures forall i :: 0 <= i < |items| ==> J.WellFormed(ItemsToJson(items, render)[i])
    decreases items, 1
  {
    if items != [] {
      JsonWellFormed(items[0], p, render);
      ItemsWellFormed(items[1..], p, render);
    }
  }

  predicate SafeField(f: (Key, Value), p: Policy) {
    && f.0.Text? && !p.sensitive(f.0.s) && Keyed(f.1)
    && if f.0.s == STAGE_MS then SafeStages(f.1) else Safe(f.1, p)
  }

  lemma {:induction false} FieldsWellFormed(fields: seq<(Key, Value)>, p: Policy, render: real -> string)
    requires forall i :: 0 <= i < |fields| ==> SafeField(fields[i], p)
    requires forall r :: J.IsNumber(render(r))
    ensures forall i :: 0 <= i < |fields| ==> J.WellFormed(FieldsToJson(fields, render)[i].1)
    decreases fields, 1
  {
    if fields != [] {
      FieldWellFormed(fields[0], p, render);
      FieldsWellFormed(fields[1..], p, render);
    }
  }

  lemma {:induction false} FieldWellFormed(f: (Key, Value), p: Policy, render: real -> string)
    requires SafeField(f, p) && forall r :: J.IsNumber(render(r))
    ensures J.WellFormed(FieldToJson(f, render).1)
    decreases f, 0
  {
    if f.0.s == STAGE_MS {
      StageMapWellFormed(f.1.fields, render);
    } else {
      JsonWellFormed(f.1, p, render);
    }
  }

  lemma StageMapWellFormed(fields: seq<(Key, Value)>, render: real -> string)
    requires SafeStages(Dict(fields)) && DistinctKeys(fields) && forall r :: J.IsNumber(render(r))
    ensures J.WellFormed(J.Obj(FieldsToJson(fields, render)))
  {
    StagesWellFormed(fields, render);
    var out := FieldsToJson(fields, render);
    forall i, j | 0 <= i < j < |out| ensures out[i].0 != out[j].0 { assert fields[i].0 != fields[j].0; }
  }

  lemma {:induction false} StagesWellFormed(fields: seq<(Key, Value)>, render: real -> string)
    requires SafeStages(Dict(fields)) && forall r :: J.IsNumber(render(r))
    ensures forall i :: 0 <= i < |fields| ==> J.WellFormed(FieldsToJson(fields, render)[i].1)
  {
    if fields != [] {
      assert forall i :: 0 <= i < |fields[1..]| ==> fields[1..][i] == fields[i + 1];
      StagesWellFormed(fields[1..], render);
      assert J.WellFormed(FieldToJson(fields[0], render).1) by { assert fields[0].1.Float?; }
    }
  }

  // ---------------------------------------------------------------- sanitizing keeps keys distinct

  function KeySet(fields: seq<(Key, Value)>): set<Key> {
    set i | 0 <= i < |fields| :: fields[i].0
  }

  lemma KeySetCons(f: (Key, Value), rest: seq<(Key, Value)>)
    ensures KeySet([f] + rest) == {f.0} + KeySet(rest)
  {
    var all := [f] + rest;
    assert all[0] == f;
    forall k | k in KeySet(rest) ensures k in KeySet(all) {
      var i :| 0 <= i < |rest| && rest[i].0 == k;
      assert all[i + 1].0 == k;
    }
  }

  lemma ConsDistinct(f: (Key, Value), rest: seq<(Key, Value)>)
    ensures DistinctKeys([f] + rest) <==> DistinctKeys(rest) && f.0 !in KeySet(rest)
  {
    var all := [f] + rest;
    if DistinctKeys(all) {
      forall i, j | 0 <= i < j < |rest| ensures rest[i].0 != rest[j].0 { assert all[i + 1].0 != all[j + 1].0; }
      forall i | 0 <= i < |rest| ensures rest[i].0 != f.0 { assert all[0].0 != all[i + 1].0; }
    } else {
      var i, j :| 0 <= i < j < |all| && all[i].0 == all[j].0;
      assert all[j] == rest[j - 1];
      assert i > 0 ==> all[i] == rest[i - 1];
    }
  }

  lemma {:induction false} StageFieldsKeyed(fields: seq<(Key, Value)>)
    requires DistinctKeys(fields)
    ensures Keyed(Dict(StageFields(fields))) && KeySet(StageFields(fields)) <= KeySet(fields)
  {
    if fields != [] {
      assert fields == [fields[0]] + fields[1..];
      ConsDistinct(fields[0], fields[1..]);
      StageFieldsKeyed(fields[1..]);
      var rest := StageFields(fields[1..]);
      var first := StageFields(fields)[..|StageFields(fields)| - |rest|];
      ConsKeyed(first, rest, fields);
      assert StageFields(fields) == first + rest;
    }
  }

  /** At most one field for the first key, then fields for later keys. */
  lemma ConsKeyed(first: seq<(Key, Value)>, rest: seq<(Key, Value)>, fields: seq<(Key, Value)>)
    requires fields != [] && DistinctKeys(fields)
    requires |first| <= 1 && forall i :: 0 <= i < |first| ==> first[i].0 == fields[0].0 && Keyed(first[i].1)
    requires KeySet(rest) <= KeySet(fields[1..]) && Keyed(Dict(rest))
    ensures KeySet(first + rest) <= KeySet(fields) && Keyed(Dict(first + rest))
  {
    assert fields == [fields[0]] + fields[1..];
    ConsDistinct(fields[0], fields[1..]);
    KeySetCons(fields[0], fields[1..]);
    if first == [] {
      assert first + rest == rest;
    } else {
      assert first == [first[0]];
      KeySetCons(first[0], rest);
      ConsDistinct(first[0], rest);
    }
  }

  lemma {:induction false} InsertByKeyed(v: Value, sorted: seq<Value>, key: Value -> string)
    requires Keyed(v) && Keyed(List(sorted))
    ensures Keyed(List(InsertBy(v, sorted, key)))
  {
    if sorted != [] && !Ordering.Le(key(v), key(sorted[0])) {
      assert forall i :: 0 <= i < |sorted[1..]| ==> sorted[1..][i] == sorted[i + 1];
      InsertByKeyed(v, sorted[1..], key);
    }
  }

  lemma {:induction false} SortByKeyed(items: seq<Value>, key: Value -> string)
    requires Keyed(List(items))
    ensures Keyed(List(SortBy(items, key)))
  {
    if items != [] {
      assert forall i :: 0 <= i < |items[1..]| ==> items[1..][i] == items[i + 1];
      SortByKeyed(items[1..], key);
      InsertByKeyed(items[0], SortBy(items[1..], key), key);
    }
  }

  lemma {:induction false} OutputKeyed(v: Value, p: Policy)
    requires Keyed(v)
    ensures match Sanitize(v, p) case None => true case Some(w) => Keyed(w)
    decreases v, 0
  {
    match v {
      case Dict(fields) => FieldsKeyed(fields, p);
      case List(items) => ItemsKeyed(items, p);
      case Tuple(items) => ItemsKeyed(items, p);
      case SetOf(items) =>
        ItemsKeyed(items, p);
        SortByKeyed(SanitizeItems(items, p), p.sortKey);
      case _ =>
    }
  }

  lemma {:induction false} ItemsKeyed(items: seq<Value>, p: Policy)
    requires forall i :: 0 <= i < |items| ==> Keyed(items[i])
    ensures Keyed(List(SanitizeItems(items, p)))
    decreases items, 1
  {
    if items != [] {
      OutputKeyed(items[0], p);
      ItemsKeyed(items[1..], p);
    }
  }

  lemma {:induction false} FieldsKeyed(fields: seq<(Key, Value)>, p: Policy)
    requires DistinctKeys(fields) && forall i :: 0 <= i < |fields| ==> Keyed(fields[i].1)
    ensures Keyed(Dict(SanitizeFields(fields, p))) && KeySet(SanitizeFields(fields, p)) <= KeySet(fields)
    decreases fields, 1
  {
    if fields != [] {
      FieldKeyed(fields[0], p);
      assert fields == [fields[0]] + fields[1..];
      ConsDistinct(fields[0], fields[1..]);
      FieldsKeyed(fields[1..], p);
      ConsKeyed(SanitizeField(fields[0], p), SanitizeFields(fields[1..], p), fields);
    }
  }

  lemma {:induction false} FieldKeyed(f: (Key, Value), p: Policy)
    requires Keyed(f.1)
    ensures var out := SanitizeField(f, p); |out| <= 1 && forall i :: 0 <= i < |out| ==> out[i].0 == f.0 && Keyed(out[i].1)
    decreases f, 0
  {
    OutputKeyed(f.1, p);
    if f.1.Dict? { StageFieldsKeyed(f.1.fields); }
  }

  // ---------------------------------------------------------------- sse_event

  const TOKEN: string := "token"

  /** `data.get(key)`, with None for a missing key. */
  function Get(fields: seq<(Key, Value)>, key: string): Value {
    if fields == [] then Nothing
    else if fields[0].0 == Text(key) then fields[0].1
    else Get(fields[1..], key)
  }

  /** `fields[key] = value`. */
  function Set(fields: seq<(Key, Value)>, key: string, value: Value): seq<(Key, Value)> {
    if fields == [] then [(Text(key), value)]
    else if fields[0].0 == Text(key) then [(Text(key), value)] + fields[1..]
    else [fields[0]] + Set(fields[1..], key, value)
  }

  /** The payload of an event: sanitized data, except that a token event keeps its sanitized token. */
  function Payload(event: string, data: seq<(Key, Value)>, p: Policy): seq<(Key, Value)> {
    var sanitized := SanitizeFields(data, p);
    if event != TOKEN then sanitized
    else
      var safe := SanitizeFields([(Text("value"), Get(data, TOKEN))], p);
      if safe == [] then sanitized else Set(sanitized, TOKEN, safe[0].1)
  }

  function Encoded(event: string, data: seq<(Key, Value)>, p: Policy, render: real -> string): F.Item {
    F.Sent(event, ToJson(Dict(Payload(event, data, p)), render))
  }

  /** `sse_event`. */
  function SseText(event: string, data: seq<(Key, Value)>, p: Policy, render: real -> string): string {
    F.Block(Encoded(event, data, p, render)) + "\n\n"
  }

  lemma {:induction false} SetKeeps(fields: seq<(Key, Value)>, key: string, value: Value)
    requires DistinctKeys(fields)
    ensures var out := Set(fields, key, value);
            && DistinctKeys(out) && KeySet(out) == KeySet(fields) + {Text(key)} && Get(out, key) == value
            && forall i :: 0 <= i < |out| ==> out[i] in fields || out[i] == (Text(key), value)
  {
    if fields != [] {
      var rest := fields[1..];
      assert fields == [fields[0]] + rest;
      ConsDistinct(fields[0], rest);
      KeySetCons(fields[0], rest);
      if fields[0].0 == Text(key) {
        ConsDistinct((Text(key), value), rest);
        KeySetCons((Text(key), value), rest);
      } else {
        SetKeeps(rest, key, value);
        var out := Set(rest, key, value);
        ConsDistinct(fields[0], out);
        KeySetCons(fields[0], out);
        assert ([fields[0]] + out)[1..] == out;
      }
    } else {
      KeySetCons((Text(key), value), []);
      assert [(Text(key), value)] + [] == [(Text(key), value)];
    }
  }

  lemma {:induction false} GetSanitized(fields: seq<(Key, Value)>, key: string, p: Policy)
    requires DistinctKeys(fields) && !p.sensitive(key) && key != STAGE_MS
    ensures Get(SanitizeFields(fields, p), key) == Sanitized(Get(fields, key), p)
  {
    if fields != [] {
      var first, rest := SanitizeField(fields[0], p), SanitizeFields(fields[1..], p);
      assert fields == [fields[0]] + fields[1..];
      ConsDistinct(fields[0], fields[1..]);
      GetSanitized(fields[1..], key, p);
      if fields[0].0 == Text(key) {
        NotAmong(fields[1..], key);
      }
      if first == [] {
        assert first + rest == rest;
      } else {
        assert first == [first[0]] && (first + rest)[1..] == rest;
      }
    }
  }

  lemma {:induction false} NotAmong(fields: seq<(Key, Value)>, key: string)
    requires Text(key) !in KeySet(fields)
    ensures Get(fields, key) == Nothing
  {
    if fields != [] {
      assert fields == [fields[0]] + fields[1..];
      KeySetCons(fields[0], fields[1..]);
      NotAmong(fields[1..], key);
    }
  }

  lemma {:induction false} GetDropped(fields: seq<(Key, Value)>, key: string, p: Policy)
    requires Sanitize(Get(fields, key), p).None? && DistinctKeys(fields) && key != STAGE_MS
    ensures Get(SanitizeFields(fields, p), key) == Nothing
  {
    if fields != [] {
      var first, rest := SanitizeField(fields[0], p), SanitizeFields(fields[1..], p);
      assert fields == [fields[0]] + fields[1..];
      ConsDistinct(fields[0], fields[1..]);
      if fields[0].0 == Text(key) {
        assert first == [] && first + rest == rest;
        NotAmong(fields[1..], key);
        AbsentStays(fields[1..], key, p);
      } else {
        GetDropped(fields[1..], key, p);
        if first == [] {
          assert first + rest == rest;
        } else {
          assert first == [first[0]] && first[0].0 == fields[0].0 && (first + rest)[1..] == rest;
        }
      }
    }
  }

  lemma AbsentStays(fields: seq<(Key, Value)>, key: string, p: Policy)
    requires DistinctKeys(fields) && Text(key) !in KeySet(fields)
    ensures Get(SanitizeFields(fields, p), key) == Nothing
  {
    SanitizedKeys(fields, p);
    NotAmong(SanitizeFields(fields, p), key);
  }

  lemma {:induction false} SanitizedKeys(fields: seq<(Key, Value)>, p: Policy)
    ensures KeySet(SanitizeFields(fields, p)) <= KeySet(fields)
  {
    if fields != [] {
      var first, rest := SanitizeField(fields[0], p), SanitizeFields(fields[1..], p);
      SanitizedKeys(fields[1..], p);
      assert fields == [fields[0]] + fields[1..];
      KeySetCons(fields[0], fields[1..]);
      if first == [] {
        assert first + rest == rest;
      } else {
        assert first == [first[0]] && first[0].0 == fields[0].0;
        KeySetCons(first[0], rest);
      }
    }
  }

  /** Sanitizing a dictionary of one harmless key. */
  lemma OneField(key: string, v: Value, p: Policy)
    requires !p.sensitive(key) && key != STAGE_MS
    ensures SanitizeFields([(Text(key), v)], p) == match Sanitize(v, p) case None => [] case Some(w) => [(Text(key), w)]
  {
    var raw := [(Text(key), v)];
    assert raw[1..] == [];
    assert SanitizeFields(raw, p) == SanitizeField(raw[0], p) + [];
  }

  /** What is printed for a token: the sanitized token, or null when it is missing, or nothing when it is unsafe. */
  lemma TokenKept(data: seq<(Key, Value)>, p: Policy)
    requires DistinctKeys(data) && !p.sensitive("value")
    requires forall i :: 0 <= i < |data| ==> Keyed(data[i].1)
    ensures Get(Payload(TOKEN, data, p), TOKEN) == Sanitized(Get(data, TOKEN), p)
  {
    FieldsKeyed(data, p);
    OneField("value", Get(data, TOKEN), p);
    match Sanitize(Get(data, TOKEN), p) {
      case None => GetDropped(data, TOKEN, p);
      case Some(w) => SetKeeps(SanitizeFields(data, p), TOKEN, w);
    }
  }

  lemma SafeTokenOnly(v: Value, p: Policy)
    ensures var safe := SanitizeFields([(Text("value"), v)], p);
      safe != [] ==> Sanitize(v, p).Some? && safe[0].1 == Sanitize(v, p).value
  {
    var raw := [(Text("value"), v)];
    assert raw[1..] == [];
    assert "value" != STAGE_MS;
    assert SanitizeFields(raw, p) == SanitizeField(raw[0], p) + [];
  }

  /** Everything in a payload but the token of a token event has passed the key test. */
  lemma PayloadFields(event: string, data: seq<(Key, Value)>, p: Policy)
    requires Keyed(Dict(data))
    ensures var out := Payload(event, data, p);
            && DistinctKeys(out)
            && forall i :: 0 <= i < |out| ==>
                 SafeField(out[i], p) || (event == TOKEN && out[i].0 == Text(TOKEN) && Keyed(out[i].1) && Safe(out[i].1, p))
  {
    FieldsKeyed(data, p);
    FieldsSafe(data, p);
    var sanitized := SanitizeFields(data, p);
    if event == TOKEN {
      GetKeyed(data, TOKEN);
      OutputSafe(Get(data, TOKEN), p);
      OutputKeyed(Get(data, TOKEN), p);
      SafeTokenOnly(Get(data, TOKEN), p);
      var safe := SanitizeFields([(Text("value"), Get(data, TOKEN))], p);
      if safe != [] { SetKeeps(sanitized, TOKEN, safe[0].1); }
    }
  }

  lemma {:induction false} GetKeyed(fields: seq<(Key, Value)>, key: string)
    requires forall i :: 0 <= i < |fields| ==> Keyed(fields[i].1)
    ensures Keyed(Get(fields, key))
  {
    if fields != [] && fields[0].0 != Text(key) { GetKeyed(fields[1..], key); }
  }

  lemma {:induction false} PayloadWellFormed(fields: seq<(Key, Value)>, p: Policy, render: real -> string)
    requires forall i :: 0 <= i < |fields| ==> SafeField(fields[i], p) || (fields[i].0.Text? && Keyed(fields[i].1) && Safe(fields[i].1, p))
    requires forall r :: J.IsNumber(render(r))
    ensures forall i :: 0 <= i < |fields| ==> J.WellFormed(FieldsToJson(fields, render)[i].1)
  {
    if fields != [] {
      PayloadWellFormed(fields[1..], p, render);
      if SafeField(fields[0], p) {
        FieldWellFormed(fields[0], p, render);
      } else {
        JsonWellFormed(fields[0].1, p, render);
      }
    }
  }

  /** An event as the backend sends it: a name without line breaks and a Python dictionary. */
  predicate Sendable(event: string, data: seq<(Key, Value)>) {
    event != "" && F.NoBreaks(event) && Keyed(Dict(data))
  }

  /** Every encoded event is printable, whatever its data. */
  lemma EncodedPrinted(event: string, data: seq<(Key, Value)>, p: Policy, render: real -> string)
    requires Sendable(event, data) && forall r :: J.IsNumber(render(r))
    ensures F.Printed(Encoded(event, data, p, render))
  {
    var out := Payload(event, data, p);
    PayloadFields(event, data, p);
    PayloadWellFormed(out, p, render);
    var json := FieldsToJson(out, render);
    forall i | 0 <= i < |out| ensures out[i].0.Text? {
      assert SafeField(out[i], p) || out[i].0 == Text(TOKEN);
    }
    forall i, j | 0 <= i < j < |json| ensures json[i].0 != json[j].0 {
      assert out[i].0 != out[j].0 && out[i].0.Text? && out[j].0.Text?;
    }
  }

  /** What the stream yields: an event with its data, or a heartbeat comment. */
  datatype Yielded = Event(name: string, data: seq<(Key, Value)>) | Heartbeat

  function Items(sent: seq<Yielded>, p: Policy, render: real -> string): seq<F.Item> {
    if sent == [] then []
    else [match sent[0] case Event(n, d) => Encoded(n, d, p, render) case Heartbeat => F.Beat] + Items(sent[1..], p, render)
  }

  /** The events of a stream with the data that survives sanitizing. */
  function SanitizedEvents(sent: seq<Yielded>, p: Policy, render: real -> string): F.Events {
    if sent == [] then []
    else
      (match sent[0]
       case Event(n, d) => [(n, ToJson(Dict(Payload(n, d, p)), render))]
       case Heartbeat => [])
      + SanitizedEvents(sent[1..], p, render)
  }

  lemma {:induction false} ItemsPrinted(sent: seq<Yielded>, p: Policy, render: real -> string)
    requires forall i :: 0 <= i < |sent| && sent[i].Event? ==> Sendable(sent[i].name, sent[i].data)
    requires forall r :: J.IsNumber(render(r))
    ensures forall i :: 0 <= i < |Items(sent, p, render)| ==> F.Printed(Items(sent, p, render)[i])
    ensures F.EventsOf(Items(sent, p, render)) == SanitizedEvents(sent, p, render)
  {
    if sent != [] {
      ItemsPrinted(sent[1..], p, render);
      if sent[0].Event? { EncodedPrinted(sent[0].name, sent[0].data, p, render); }
      var items := Items(sent, p, render);
      assert items[1..] == Items(sent[1..], p, render);
    }
  }

  /** What the backend yields for it. */
  function YieldedText(y: Yielded, p: Policy, render: real -> string): string {
    match y case Event(n, d) => SseText(n, d, p, render) case Heartbeat => F.HEARTBEAT_BLOCK + "\n\n"
  }

  function SentText(sent: seq<Yielded>, p: Policy, render: real -> string): string {
    if sent == [] then "" else YieldedText(sent[0], p, render) + SentText(sent[1..], p, render)
  }

  /** The text of a stream is what its yields add up to. */
  lemma {:induction false} SentIsPrinted(sent: seq<Yielded>, p: Policy, render: real -> string)
    ensures SentText(sent, p, render) == F.Print(Items(sent, p, render))
  {
    if sent != [] {
      SentIsPrinted(sent[1..], p, render);
      var items := Items(sent, p, render);
      assert items[1..] == Items(sent[1..], p, render);
      assert YieldedText(sent[0], p, render) == F.Block(items[0]) + "\n\n";
    }
  }

  /**
   The evaluator reads back exactly the events the backend sends, with their sanitized data, whatever
   the data were and however the bytes were cut.
   */
  lemma EvaluatorReadsWhatIsSent(sent: seq<Yielded>, p: Policy, render: real -> string, chunks: seq<seq<Byte>>)
    requires forall i :: 0 <= i < |sent| && sent[i].Event? ==> Sendable(sent[i].name, sent[i].data)
    requires forall r :: J.IsNumber(render(r))
    requires F.Concat(chunks) == U.Encode(SentText(sent, p, render))
    ensures F.Parse(F.AsChunks(chunks)) == Ok(SanitizedEvents(sent, p, render))
  {
    SentIsPrinted(sent, p, render);
    ItemsPrinted(sent, p, render);
    F.ParseInvertsPrint(Items(sent, p, render), chunks);
  }
}
