/** What the evaluator gets back of the values that were sent (backend/sse.py, scripts/verify_multi_intent_voice.py). */
module SseValues {
  import opened Results
  import opened Texts
  import opened Sanitizer
  import opened SseEvent
  import J = Json
  import F = SseFormat
  import U = Utf8

  // ---------------------------------------------------------------- from JSON to Python values

  predicate AllDigits(s: string) { forall i | 0 <= i < |s| :: IsDigit(s[i]) }

  /** A number literal without fraction and exponent is read as an integer. */
  predicate IsInteger(literal: string) {
    literal != "" && (if literal[0] == '-' then |literal| > 1 && AllDigits(literal[1..]) else AllDigits(literal))
  }

  function DigitsValue(s: string): nat
    requires AllDigits(s)
  {
    if s == "" then 0 else DigitsValue(s[..|s| - 1]) * 10 + (s[|s| - 1] as int - '0' as int)
  }

  function IntegerOf(literal: string): int
    requires IsInteger(literal)
  {
    if literal[0] == '-' then 0 - DigitsValue(literal[1..]) else DigitsValue(literal)
  }

  /** What `json.loads` makes of a JSON value; `read` reads the other numbers. */
  function FromJson(j: J.Json, read: string -> real): Value
    decreases j, 0
  {
    match j
    case Null => Nothing
    case Bool(b) => Bool(b)
    case Num(literal) => if IsInteger(literal) then Int(IntegerOf(literal)) else Float(read(literal))
    case Str(s) => Str(s)
    case Arr(items) => List(ItemsFromJson(items, read))
    case Obj(fields) => Dict(FieldsFromJson(fields, read))
  }

  function ItemsFromJson(items: seq<J.Json>, read: string -> real): seq<Value>
    decreases items, 1
  {
    if items == [] then [] else [FromJson(items[0], read)] + ItemsFromJson(items[1..], read)
  }

  function FieldsFromJson(fields: seq<(string, J.Json)>, read: string -> real): seq<(Key, Value)>
    decreases fields, 1
  {
    if fields == [] then [] else [FieldFromJson(fields[0], read)] + FieldsFromJson(fields[1..], read)
  }

  function FieldFromJson(f: (string, J.Json), read: string -> real): (Key, Value)
    decreases f, 0
  {
    (Text(f.0), FromJson(f.1, read))
  }

  /** Floats are written so that they are read back, and never as integers. */
  ghost predicate FloatsReadBack(render: real -> string, read: string -> real) {
    forall r :: J.IsNumber(render(r)) && !IsInteger(render(r)) && read(render(r)) == r
  }

  // ---------------------------------------------------------------- integers

  lemma {:induction false} DigitsReadBack(n: nat)
    ensures AllDigits(Digits(n)) && Digits(n) != "" && DigitsValue(Digits(n)) == n
  {
    if n >= 10 {
      var front, last := Digits(n / 10), ('0' as int + n % 10) as char;
      DigitsReadBack(n / 10);
      assert Digits(n) == front + [last] && Digits(n)[..|front|] == front && Digits(n)[|front|] == last;
    } else {
      assert Digits(n)[..0] == "";
    }
  }

  /** Every integer is read back from its decimal digits. */
  lemma DecimalReadBack(n: int)
    ensures IsInteger(Decimal(n)) && IntegerOf(Decimal(n)) == n
  {
    DigitsReadBack(if n < 0 then -n else n);
    if n < 0 { assert Decimal(n)[1..] == Digits(-n); } else { assert IsDigit(Digits(n)[0]); }
  }

  // ---------------------------------------------------------------- values

  /** What JSON can carry as it is, at every depth. */
  predicate Plain(v: Value)
    decreases v
  {
    match v
    case Dict(fields) => forall i | 0 <= i < |fields| :: fields[i].0.Text? && Plain(fields[i].1)
    case List(items) => forall i | 0 <= i < |items| :: Plain(items[i])
    case Tuple(_) => false
    case SetOf(_) => false
    case NonFinite => false
    case Opaque => false
    case _ => true
  }

  lemma {:induction false} ReadBack(v: Value, render: real -> string, read: string -> real)
    requires Plain(v) && FloatsReadBack(render, read)
    ensures FromJson(ToJson(v, render), read) == v
    decreases v, 0
  {
    match v {
      case Int(n) => DecimalReadBack(n);
      case Float(r) => assert !IsInteger(render(r));
      case List(items) => ItemsReadBack(items, render, read);
      case Dict(fields) => FieldsReadBack(fields, render, read);
      case _ =>
    }
  }

  lemma {:induction false} ItemsReadBack(items: seq<Value>, render: real -> string, read: string -> real)
    requires (forall i :: 0 <= i < |items| ==> Plain(items[i])) && FloatsReadBack(render, read)
    ensures ItemsFromJson(ItemsToJson(items, render), read) == items
    decreases items, 1
  {
    if items != [] {
      ReadBack(items[0], render, read);
      ItemsReadBack(items[1..], render, read);
      assert ItemsToJson(items, render)[1..] == ItemsToJson(items[1..], render);
      assert [items[0]] + items[1..] == items;
    }
  }

  lemma {:induction false} FieldsReadBack(fields: seq<(Key, Value)>, render: real -> string, read: string -> real)
    requires (forall i :: 0 <= i < |fields| ==> fields[i].0.Text? && Plain(fields[i].1)) && FloatsReadBack(render, read)
    ensures FieldsFromJson(FieldsToJson(fields, render), read) == fields
    decreases fields, 1
  {
    if fields != [] {
      FieldReadBack(fields[0], render, read);
      FieldsReadBack(fields[1..], render, read);
      assert FieldsToJson(fields, render)[1..] == FieldsToJson(fields[1..], render);
      assert [fields[0]] + fields[1..] == fields;
    }
  }

  lemma {:induction false} FieldReadBack(f: (Key, Value), render: real -> string, read: string -> real)
    requires f.0.Text? && Plain(f.1) && FloatsReadBack(render, read)
    ensures FieldFromJson(FieldToJson(f, render), read) == f
    decreases f, 0
  {
    ReadBack(f.1, render, read);
  }

  lemma {:induction false} SafeIsPlain(v: Value, p: Policy)
    requires Safe(v, p)
    ensures Plain(v)
    decreases v
  {
    match v {
      case List(items) =>
        forall i | 0 <= i < |items| ensures Plain(items[i]) { SafeIsPlain(items[i], p); }
      case Dict(fields) =>
        forall i | 0 <= i < |fields| ensures fields[i].0.Text? && Plain(fields[i].1) {
          if fields[i].0.s != STAGE_MS { SafeIsPlain(fields[i].1, p); } else { StagesArePlain(fields[i].1); }
        }
      case _ =>
    }
  }

  lemma StagesArePlain(v: Value)
    requires SafeStages(v)
    ensures Plain(v)
  {
  }

  // ---------------------------------------------------------------- payloads

  function Without(fields: seq<(Key, Value)>, key: string): seq<(Key, Value)> {
    if fields == [] then [] else (if fields[0].0 == Text(key) then [] else [fields[0]]) + Without(fields[1..], key)
  }

  lemma {:induction false} SetElsewhere(fields: seq<(Key, Value)>, key: string, value: Value)
    ensures Without(Set(fields, key, value), key) == Without(fields, key)
  {
    if fields == [] {
      assert [(Text(key), value)][1..] == [];
    } else {
      var out := Set(fields, key, value);
      if fields[0].0 == Text(key) {
        assert out[1..] == fields[1..];
      } else {
        SetElsewhere(fields[1..], key, value);
        assert out[1..] == Set(fields[1..], key, value);
      }
    }
  }

  /** An event carries its sanitized data; only the token of a token event is sanitized by itself. */
  lemma PayloadExact(event: string, data: seq<(Key, Value)>, p: Policy)
    ensures event != "token" ==> Some(Dict(Payload(event, data, p))) == Sanitize(Dict(data), p)
    ensures event == "token" ==> Without(Payload(event, data, p), "token") == Without(Sanitize(Dict(data), p).value.fields, "token")
  {
    var safe := SanitizeFields([(Text("value"), Get(data, TOKEN))], p);
    if event == TOKEN && safe != [] { SetElsewhere(SanitizeFields(data, p), TOKEN, safe[0].1); }
  }

  lemma PayloadIsPlain(event: string, data: seq<(Key, Value)>, p: Policy)
    requires Keyed(Dict(data))
    ensures Plain(Dict(Payload(event, data, p)))
  {
    PayloadFields(event, data, p);
    var out := Payload(event, data, p);
    forall i | 0 <= i < |out| ensures out[i].0.Text? && Plain(out[i].1) {
      if SafeField(out[i], p) && out[i].0.s == STAGE_MS { StagesArePlain(out[i].1); } else { SafeIsPlain(out[i].1, p); }
    }
  }

  /** The events of a stream, each with its payload. */
  function Payloads(sent: seq<Yielded>, p: Policy): seq<(string, Value)> {
    if sent == [] then []
    else
      (match sent[0]
       case Event(n, d) => [(n, Dict(Payload(n, d, p)))]
       case Heartbeat => [])
      + Payloads(sent[1..], p)
  }

  /** The events that were read, as Python values. */
  function Loaded(events: F.Events, read: string -> real): seq<(string, Value)> {
    if events == [] then [] else [(events[0].0, FromJson(events[0].1, read))] + Loaded(events[1..], read)
  }

  lemma {:induction false} SanitizedLoaded(sent: seq<Yielded>, p: Policy, render: real -> string, read: string -> real)
    requires forall i :: 0 <= i < |sent| && sent[i].Event? ==> Sendable(sent[i].name, sent[i].data)
    requires FloatsReadBack(render, read)
    ensures Loaded(SanitizedEvents(sent, p, render), read) == Payloads(sent, p)
  {
    if sent != [] {
      var rest := SanitizedEvents(sent[1..], p, render);
      SanitizedLoaded(sent[1..], p, render, read);
      match sent[0] {
        case Event(n, d) =>
          PayloadIsPlain(n, d, p);
          ReadBack(Dict(Payload(n, d, p)), render, read);
          assert SanitizedEvents(sent, p, render)[1..] == rest;
        case Heartbeat =>
          assert [] + rest == rest && [] + Payloads(sent[1..], p) == Payloads(sent[1..], p);
      }
    }
  }

  /**
   From the bytes of any stream, cut anywhere, the evaluator gets every event by its name and with exactly the
   Python values of its payload, and nothing else; heartbeats leave no trace.
   */
  lemma EvaluatorGetsValues(sent: seq<Yielded>, p: Policy, render: real -> string, read: string -> real, chunks: seq<seq<Byte>>)
    requires forall i :: 0 <= i < |sent| && sent[i].Event? ==> Sendable(sent[i].name, sent[i].data)
    requires FloatsReadBack(render, read) && F.Concat(chunks) == U.Encode(SentText(sent, p, render))
    ensures F.Parse(F.AsChunks(chunks)).Ok? && Loaded(F.Parse(F.AsChunks(chunks)).value, read) == Payloads(sent, p)
  {
    EvaluatorReadsWhatIsSent(sent, p, render, chunks);
    SanitizedLoaded(sent, p, render, read);
  }
}
