/** The JSON texts of RFC 8259 as trees, blanks and escapes included, and the reader against them. */
module JsonGrammar {
  import opened Results
  import opened Texts
  import opened Json

  // ---------------------------------------------------------------- trees

  /** A character of a string as it stands there, or one of its escapes (section 7). */
  datatype Piece = Itself(c: char) | Letter(letter: char) | Unit(digits: string) | Pair(high: string, low: string)

  datatype Doc =
    | Word(value: Json)
    | Number(literal: string)
    | Text(pieces: seq<Piece>)
    | Array(blank: string, items: seq<Item>)
    | Object(blank: string, members: seq<Member>)

  datatype Item = Item(before: string, doc: Doc, after: string)

  datatype Member = Member(before: string, name: seq<Piece>, colon: string, item: Item)

  predicate Blank(s: string) { forall i | 0 <= i < |s| :: s[i] == ' ' || s[i] == '\t' || s[i] == '\n' || s[i] == '\r' }

  predicate IsUnit(digits: string) { |digits| == 4 && HexNumber(digits).Some? }

  predicate PieceOk(p: Piece) {
    match p
    case Itself(c) => c as int >= 0x20 && c != '"' && c != '\\'
    case Letter(c) => c == '"' || c == '\\' || c == '/' || c == 'b' || c == 'f' || c == 'n' || c == 'r' || c == 't'
    case Unit(d) => IsUnit(d) && !(0xD800 <= HexNumber(d).value <= 0xDFFF)
    case Pair(h, l) => IsUnit(h) && IsUnit(l) && 0xD800 <= HexNumber(h).value <= 0xDBFF && 0xDC00 <= HexNumber(l).value <= 0xDFFF
  }

  function PieceChar(p: Piece): char
    requires PieceOk(p)
  {
    match p
    case Itself(c) => c
    case Letter(c) =>
      (match c case 'b' => 8 as char case 'f' => 12 as char case 'n' => 10 as char case 'r' => 13 as char case 't' => 9 as char case _ => c)
    case Unit(d) => HexNumber(d).value as char
    case Pair(h, l) => (0x1_0000 + (HexNumber(h).value % 0x400) * 0x400 + HexNumber(l).value % 0x400) as char
  }

  predicate PiecesOk(ps: seq<Piece>) { forall i | 0 <= i < |ps| :: PieceOk(ps[i]) }

  function PiecesText(ps: seq<Piece>): string
    requires PiecesOk(ps)
  {
    seq(|ps|, i requires 0 <= i < |ps| => PieceChar(ps[i]))
  }

  predicate DocOk(d: Doc)
    decreases d
  {
    match d
    case Word(v) => v.Null? || v.Bool?
    case Number(literal) => IsNumber(literal)
    case Text(ps) => PiecesOk(ps)
    case Array(blank, items) =>
      Blank(blank) && forall i | 0 <= i < |items| :: Blank(items[i].before) && DocOk(items[i].doc) && Blank(items[i].after)
    case Object(blank, members) =>
      Blank(blank) &&
      forall i | 0 <= i < |members| ::
        && Blank(members[i].before) && PiecesOk(members[i].name) && Blank(members[i].colon)
        && Blank(members[i].item.before) && DocOk(members[i].item.doc) && Blank(members[i].item.after)
  }

  predicate ItemOk(x: Item) { Blank(x.before) && DocOk(x.doc) && Blank(x.after) }

  predicate MemberOk(m: Member) { Blank(m.before) && PiecesOk(m.name) && Blank(m.colon) && ItemOk(m.item) }

  // ---------------------------------------------------------------- texts

  function WritePiece(p: Piece): string {
    match p
    case Itself(c) => [c]
    case Letter(c) => "\\" + [c]
    case Unit(d) => "\\u" + d
    case Pair(h, l) => "\\u" + h + "\\u" + l
  }

  /** The pieces, the closing quote, and what follows. */
  function WritePieces(ps: seq<Piece>, rest: string): string {
    if ps == [] then "\"" + rest else WritePiece(ps[0]) + WritePieces(ps[1..], rest)
  }

  /** The text of a tree, and what follows. */
  function Write(d: Doc, rest: string): string
    decreases d, 0
  {
    match d
    case Word(v) => (match v case Null => "null" case Bool(b) => if b then "true" else "false" case _ => "") + rest
    case Number(literal) => literal + rest
    case Text(ps) => "\"" + WritePieces(ps, rest)
    case Array(blank, items) => "[" + if items == [] then blank + "]" + rest else WriteItems(items, rest)
    case Object(blank, members) => "{" + if members == [] then blank + "}" + rest else WriteMembers(members, rest)
  }

  function WriteItems(items: seq<Item>, rest: string): string
    requires items != []
    decreases items, 2
  {
    WriteItem(items[0], if |items| == 1 then "]" + rest else "," + WriteItems(items[1..], rest))
  }

  function WriteItem(x: Item, tail: string): string
    decreases x, 1
  {
    x.before + Write(x.doc, x.after + tail)
  }

  function WriteMembers(members: seq<Member>, rest: string): string
    requires members != []
    decreases members, 2
  {
    WriteMember(members[0], if |members| == 1 then "}" + rest else "," + WriteMembers(members[1..], rest))
  }

  function WriteMember(m: Member, tail: string): string
    decreases m, 1
  {
    m.before + "\"" + WritePieces(m.name, m.colon + ":" + WriteItem(m.item, tail))
  }

  // ---------------------------------------------------------------- values

  function Meaning(d: Doc): Json
    requires DocOk(d)
    decreases d, 0
  {
    match d
    case Word(v) => v
    case Number(literal) => Num(literal)
    case Text(ps) => Str(PiecesText(ps))
    case Array(_, items) => Arr(Meanings(items))
    case Object(_, members) => Obj(Dict(Pairs(members)))
  }

  function Meanings(items: seq<Item>): seq<Json>
    requires forall i :: 0 <= i < |items| ==> ItemOk(items[i])
    decreases items, 1
  {
    if items == [] then [] else [ItemMeaning(items[0])] + Meanings(items[1..])
  }

  function ItemMeaning(x: Item): Json
    requires ItemOk(x)
    decreases x, 0
  {
    Meaning(x.doc)
  }

  function Pairs(members: seq<Member>): seq<(string, Json)>
    requires forall i :: 0 <= i < |members| ==> MemberOk(members[i])
    decreases members, 1
  {
    if members == [] then [] else [PairOf(members[0])] + Pairs(members[1..])
  }

  function PairOf(m: Member): (string, Json)
    requires MemberOk(m)
    decreases m, 0
  {
    (PiecesText(m.name), Meaning(m.item.doc))
  }

  // ---------------------------------------------------------------- every such text is read

  lemma {:induction false} SkipBlank(b: string, s: string)
    requires Blank(b) && (s == "" || !IsSpace(s[0]))
    ensures Skip(b + s) == s
  {
    if b == "" {
      assert b + s == s;
    } else {
      assert (b + s)[1..] == b[1..] + s;
      SkipBlank(b[1..], s);
    }
  }

  lemma PieceRead(p: Piece, rest: string)
    requires PieceOk(p)
    ensures LoadString(WritePiece(p) + rest) == PutFront(PieceChar(p), LoadString(rest))
  {
    var w := WritePiece(p);
    var s := w + rest;
    assert s[..|w|] == w && s[|w|..] == rest;
    match p {
      case Itself(c) => assert s[1..] == rest;
      case Letter(c) => assert s[0] == '\\' && s[1] == c && s[2..] == rest;
      case Unit(d) => UnitRead(d, rest);
      case Pair(h, l) => PairRead(h, l, rest);
    }
  }

  lemma UnitRead(d: string, rest: string)
    requires PieceOk(Unit(d))
    ensures LoadString("\\u" + d + rest) == PutFront(PieceChar(Unit(d)), LoadString(rest))
  {
    var s := "\\u" + d + rest;
    assert s[0] == '\\' && s[1] == 'u' && s[2..6] == d && s[6..] == rest;
    assert NumberEscape(s) == Some((PieceChar(Unit(d)), 6));
  }

  lemma PairRead(h: string, l: string, rest: string)
    requires PieceOk(Pair(h, l))
    ensures LoadString("\\u" + h + "\\u" + l + rest) == PutFront(PieceChar(Pair(h, l)), LoadString(rest))
  {
    var s := "\\u" + h + "\\u" + l + rest;
    PairText(h, l, rest);
    SurrogateBits(HexNumber(h).value, HexNumber(l).value);
    assert NumberEscape(s) == Some((PieceChar(Pair(h, l)), 12));
  }

  lemma PairText(h: string, l: string, rest: string)
    requires |h| == |l| == 4
    ensures var s := "\\u" + h + "\\u" + l + rest;
      |s| >= 12 && s[0] == '\\' && s[1] == 'u' && s[2..6] == h && s[6] == '\\' && s[7] == 'u' && s[8..12] == l && s[12..] == rest
  {
  }

  lemma SurrogateBits(h: nat, l: nat)
    requires 0xD800 <= h <= 0xDBFF && 0xDC00 <= l <= 0xDFFF
    ensures h % 0x400 == h - 0xD800 && l % 0x400 == l - 0xDC00
  {
  }

  lemma {:induction false} PiecesRead(ps: seq<Piece>, rest: string)
    requires PiecesOk(ps)
    ensures LoadString(WritePieces(ps, rest)) == Some((PiecesText(ps), rest))
  {
    if ps == [] {
      assert ("\"" + rest)[1..] == rest;
    } else {
      PiecesRead(ps[1..], rest);
      PieceRead(ps[0], WritePieces(ps[1..], rest));
      assert PiecesText(ps) == [PieceChar(ps[0])] + PiecesText(ps[1..]);
    }
  }

  lemma WriteStart(d: Doc, rest: string)
    requires DocOk(d)
    ensures var s := Write(d, rest); s != "" && !IsSpace(s[0]) && s[0] != ']' && s[0] != '}' && Skip(s) == s
  {
    if d.Number? { NumberChars(d.literal); }
  }

  lemma BlankStops(b: string, tail: string)
    requires Blank(b) && tail != "" && (tail[0] == ',' || tail[0] == ']' || tail[0] == '}')
    ensures Stops(b + tail)
  {
  }

  /** Reading the text of a tree gives its value and leaves what follows. */
  lemma {:induction false} WrittenRead(d: Doc, rest: string)
    requires DocOk(d) && Stops(rest)
    ensures LoadValue(Write(d, rest)) == Some((Meaning(d), rest))
    decreases d, 0
  {
    match d {
      case Word(v) => WordRoundTrip(v, rest);
      case Number(literal) => NumberRoundTrip(literal, rest);
      case Text(ps) =>
        PiecesRead(ps, rest);
        assert Write(d, rest)[1..] == WritePieces(ps, rest);
      case Array(blank, items) =>
        if items != [] { ItemsRead(items, rest); }
        ArrayRead(blank, items, rest);
      case Object(blank, members) =>
        if members != [] { MembersRead(members, rest); }
        ObjectRead(blank, members, rest);
    }
  }

  lemma ArrayRead(blank: string, items: seq<Item>, rest: string)
    requires Blank(blank) && forall i :: 0 <= i < |items| ==> ItemOk(items[i])
    requires items != [] ==>
      var body := Skip(WriteItems(items, rest)); !StartsWith(body, ']') && LoadItems(body) == Some((Meanings(items), rest))
    ensures LoadValue(Write(Array(blank, items), rest)) == Some((Arr(Meanings(items)), rest))
  {
    ClosedAtOnce(blank, "]", rest);
    assert Write(Array(blank, items), rest)[1..] == if items == [] then blank + "]" + rest else WriteItems(items, rest);
  }

  lemma ObjectRead(blank: string, members: seq<Member>, rest: string)
    requires Blank(blank) && forall i :: 0 <= i < |members| ==> MemberOk(members[i])
    requires members != [] ==>
      var body := Skip(WriteMembers(members, rest)); !StartsWith(body, '}') && LoadFields(body) == Some((Pairs(members), rest))
    ensures LoadValue(Write(Object(blank, members), rest)) == Some((Obj(Dict(Pairs(members))), rest))
  {
    ClosedAtOnce(blank, "}", rest);
    assert Write(Object(blank, members), rest)[1..] == if members == [] then blank + "}" + rest else WriteMembers(members, rest);
  }

  lemma ClosedAtOnce(blank: string, close: string, rest: string)
    requires Blank(blank) && (close == "]" || close == "}")
    ensures Skip(blank + close + rest) == close + rest && (close + rest)[1..] == rest
  {
    Assoc(blank, close, rest);
    SkipBlank(blank, close + rest);
  }

  lemma {:induction false} ItemRead(x: Item, tail: string)
    requires ItemOk(x) && tail != "" && (tail[0] == ',' || tail[0] == ']' || tail[0] == '}')
    ensures var body := Skip(WriteItem(x, tail));
      body != "" && body[0] != ']' && LoadValue(body) == Some((Meaning(x.doc), x.after + tail)) && Skip(x.after + tail) == tail
    decreases x, 1
  {
    BlankStops(x.after, tail);
    WriteStart(x.doc, x.after + tail);
    SkipBlank(x.before, Write(x.doc, x.after + tail));
    WrittenRead(x.doc, x.after + tail);
    SkipBlank(x.after, tail);
  }

  lemma {:induction false} ItemsRead(items: seq<Item>, rest: string)
    requires items != [] && forall i :: 0 <= i < |items| ==> ItemOk(items[i])
    ensures var body := Skip(WriteItems(items, rest));
      !StartsWith(body, ']') && LoadItems(body) == Some((Meanings(items), rest))
    decreases items, 2
  {
    var more := if |items| == 1 then "" else WriteItems(items[1..], rest);
    var tail := if |items| == 1 then "]" + rest else "," + more;
    ItemRead(items[0], tail);
    assert tail[1..] == if |items| == 1 then rest else more;
    if |items| > 1 { ItemsRead(items[1..], rest); }
    ItemsStep(Skip(WriteItems(items, rest)), Meaning(items[0].doc), items[0].after + tail);
    assert |items| == 1 ==> Meanings(items) == [Meaning(items[0].doc)];
  }

  lemma {:induction false} MembersRead(members: seq<Member>, rest: string)
    requires members != [] && forall i :: 0 <= i < |members| ==> MemberOk(members[i])
    ensures var body := Skip(WriteMembers(members, rest));
      !StartsWith(body, '}') && LoadFields(body) == Some((Pairs(members), rest))
    decreases members, 2
  {
    var more := if |members| == 1 then "" else WriteMembers(members[1..], rest);
    var tail := if |members| == 1 then "}" + rest else "," + more;
    MemberRead(members[0], tail);
    assert tail[1..] == if |members| == 1 then rest else more;
    if |members| > 1 { MembersRead(members[1..], rest); }
    FieldsStep(Skip(WriteMembers(members, rest)), PairOf(members[0]), members[0].item.after + tail);
    assert |members| == 1 ==> Pairs(members) == [PairOf(members[0])];
  }

  lemma {:induction false} MemberRead(m: Member, tail: string)
    requires MemberOk(m) && tail != "" && (tail[0] == ',' || tail[0] == '}')
    ensures var body := Skip(WriteMember(m, tail));
      body != "" && body[0] != '}' && LoadField(body) == Some((PairOf(m), m.item.after + tail)) && Skip(m.item.after + tail) == tail
    decreases m, 1
  {
    var value := WriteItem(m.item, tail);
    var colon := m.colon + ":" + value;
    var name := WritePieces(m.name, colon);
    Assoc(m.before, "\"", name);
    SkipBlank(m.before, "\"" + name);
    assert ("\"" + name)[1..] == name;
    PiecesRead(m.name, colon);
    Assoc(m.colon, ":", value);
    SkipBlank(m.colon, ":" + value);
    assert (":" + value)[1..] == value;
    ItemRead(m.item, tail);
  }

  // ---------------------------------------------------------------- nothing else is read

  lemma {:induction false} Skipped(s: string) returns (b: string)
    ensures Blank(b) && s == b + Skip(s) && (Skip(s) == "" || !IsSpace(Skip(s)[0]))
  {
    if s != "" && IsSpace(s[0]) {
      b := Skipped(s[1..]);
      assert s == [s[0]] + s[1..];
      b := [s[0]] + b;
    } else {
      b := "";
    }
  }

  /** The first piece of a string that is read. */
  lemma FirstPiece(s: string) returns (p: Piece, later: string)
    requires LoadString(s).Some? && s[0] != '"'
    ensures PieceOk(p) && s == WritePiece(p) + later && |later| < |s|
    ensures LoadString(s) == PutFront(PieceChar(p), LoadString(later))
  {
    if s[0] != '\\' {
      p, later := Itself(s[0]), s[1..];
    } else if s[1] == 'u' {
      var n := NumberEscape(s).value.1;
      p := if n == 6 then Unit(s[2..6]) else Pair(s[2..6], s[8..12]);
      later := s[n..];
      assert n == 6 ==> s[..6] == "\\u" + s[2..6];
      assert n == 12 ==> s[..12] == "\\u" + s[2..6] + "\\u" + s[8..12];
      assert s == s[..n] + later;
      PieceRead(p, later);
    } else {
      p, later := Letter(s[1]), s[2..];
      assert s == "\\" + [s[1]] + later;
    }
  }

  lemma {:induction false} OnlyPieces(s: string) returns (ps: seq<Piece>)
    requires LoadString(s).Some?
    ensures PiecesOk(ps) && LoadString(s).value.0 == PiecesText(ps) && s == WritePieces(ps, LoadString(s).value.1)
    decreases |s|
  {
    if s[0] == '"' {
      ps := [];
    } else {
      var p, later := FirstPiece(s);
      var tail := OnlyPieces(later);
      ps := [p] + tail;
      assert ps[1..] == tail;
      assert PiecesText(ps) == [PieceChar(p)] + PiecesText(tail);
    }
  }

  /** What is read as a value is the text of a tree, and what follows it. */
  lemma {:induction false} OnlyWritten(s: string) returns (d: Doc)
    requires LoadValue(s).Some?
    ensures DocOk(d) && Meaning(d) == LoadValue(s).value.0 && s == Write(d, LoadValue(s).value.1)
    decreases |s|, 2
  {
    var (v, rest) := LoadValue(s).value;
    if s[0] == '"' {
      var ps := OnlyPieces(s[1..]);
      d := Text(ps);
      assert s == "\"" + s[1..];
    } else if s[0] == '[' {
      d := OnlyArray(s);
    } else if s[0] == '{' {
      d := OnlyObject(s);
    } else if After(s, "null").Some? {
      d := Word(Null);
    } else if After(s, "true").Some? {
      d := Word(Bool(true));
    } else if After(s, "false").Some? {
      d := Word(Bool(false));
    } else {
      d := Number(s[..NumberRun(s)]);
    }
  }

  lemma {:induction false} OnlyArray(s: string) returns (d: Doc)
    requires LoadValue(s).Some? && s[0] == '['
    ensures DocOk(d) && Meaning(d) == LoadValue(s).value.0 && s == Write(d, LoadValue(s).value.1)
    decreases |s|, 1
  {
    var rest := LoadValue(s).value.1;
    var blank := Skipped(s[1..]);
    var body := Skip(s[1..]);
    assert s == "[" + s[1..];
    if StartsWith(body, ']') {
      d := Array(blank, []);
      assert body == "]" + rest;
      Assoc(blank, "]", rest);
    } else {
      var items := OnlyItems(body);
      var first := items[0].(before := blank);
      d := Array("", [first] + items[1..]);
      BeforeFirst(items, blank, rest);
    }
  }

  lemma BeforeFirst(items: seq<Item>, blank: string, rest: string)
    requires items != [] && items[0].before == "" && Blank(blank) && forall i :: 0 <= i < |items| ==> ItemOk(items[i])
    ensures var more := [items[0].(before := blank)] + items[1..];
      && (forall i :: 0 <= i < |more| ==> ItemOk(more[i]))
      && WriteItems(more, rest) == blank + WriteItems(items, rest) && Meanings(more) == Meanings(items)
  {
    var more := [items[0].(before := blank)] + items[1..];
    assert more[1..] == items[1..];
    var tail := if |items| == 1 then "]" + rest else "," + WriteItems(items[1..], rest);
    assert items[0].before + Write(items[0].doc, items[0].after + tail) == Write(items[0].doc, items[0].after + tail);
  }

  lemma {:induction false} OnlyItems(s: string) returns (items: seq<Item>)
    requires LoadItems(s).Some?
    ensures items != [] && items[0].before == "" && forall i :: 0 <= i < |items| ==> ItemOk(items[i])
    ensures Meanings(items) == LoadItems(s).value.0 && s == WriteItems(items, LoadItems(s).value.1)
    decreases |s|, 3
  {
    var rest := LoadItems(s).value.1;
    var d := OnlyWritten(s);
    var r := LoadValue(s).value.1;
    var after := Skipped(r);
    var next := Skip(r);
    var x := Item("", d, after);
    assert next == [next[0]] + next[1..];
    if StartsWith(next, ']') {
      items := [x];
      assert items[1..] == [];
    } else {
      var blank := Skipped(next[1..]);
      var tail := OnlyItems(Skip(next[1..]));
      BeforeFirst(tail, blank, rest);
      var more := [tail[0].(before := blank)] + tail[1..];
      items := [x] + more;
      assert items[1..] == more;
    }
    assert s == "" + s;
  }

  lemma {:induction false} OnlyObject(s: string) returns (d: Doc)
    requires LoadValue(s).Some? && s[0] == '{'
    ensures DocOk(d) && Meaning(d) == LoadValue(s).value.0 && s == Write(d, LoadValue(s).value.1)
    decreases |s|, 1
  {
    var rest := LoadValue(s).value.1;
    var blank := Skipped(s[1..]);
    var body := Skip(s[1..]);
    assert s == "{" + s[1..];
    if StartsWith(body, '}') {
      d := Object(blank, []);
      assert body == "}" + rest;
      Assoc(blank, "}", rest);
    } else {
      var members := OnlyMembers(body);
      var first := members[0].(before := blank);
      d := Object("", [first] + members[1..]);
      BeforeFirstName(members, blank, rest);
    }
  }

  lemma BeforeFirstName(members: seq<Member>, blank: string, rest: string)
    requires members != [] && members[0].before == "" && Blank(blank) && forall i :: 0 <= i < |members| ==> MemberOk(members[i])
    ensures var more := [members[0].(before := blank)] + members[1..];
      && (forall i :: 0 <= i < |more| ==> MemberOk(more[i]))
      && WriteMembers(more, rest) == blank + WriteMembers(members, rest) && Pairs(more) == Pairs(members)
  {
    var m := members[0];
    var more := [m.(before := blank)] + members[1..];
    assert more[1..] == members[1..];
    var tail := if |members| == 1 then "}" + rest else "," + WriteMembers(members[1..], rest);
    var name := WritePieces(m.name, m.colon + ":" + WriteItem(m.item, tail));
    assert "" + "\"" + name == "\"" + name;
    Assoc(blank, "\"", name);
  }

  lemma NamedMember(name: seq<Piece>, colon: string, blank: string, d: Doc, rest: string)
    ensures WriteMember(Member("", name, colon, Item(blank, d, "")), rest) == "\"" + WritePieces(name, colon + (":" + (blank + Write(d, rest))))
  {
    assert "" + rest == rest;
    Assoc(colon, ":", blank + Write(d, rest));
    assert "" + "\"" == "\"";
  }

  /** The steps of reading a field. */
  lemma FieldSteps(s: string)
    requires LoadField(s).Some?
    ensures s != "" && s[0] == '"' && LoadString(s[1..]).Some?
    ensures var (key, r) := LoadString(s[1..]).value;
      && StartsWith(Skip(r), ':') && LoadValue(Skip(Skip(r)[1..])).Some?
      && LoadField(s).value == ((key, LoadValue(Skip(Skip(r)[1..])).value.0), LoadValue(Skip(Skip(r)[1..])).value.1)
  {
  }

  lemma {:induction false} OnlyMember(s: string) returns (m: Member)
    requires LoadField(s).Some?
    ensures m.before == "" && MemberOk(m) && m.item.after == "" && PairOf(m) == LoadField(s).value.0 && s == WriteMember(m, LoadField(s).value.1)
    decreases |s|, 2
  {
    FieldSteps(s);
    var name := OnlyPieces(s[1..]);
    var r := LoadString(s[1..]).value.1;
    var colon := Skipped(r);
    var next := Skip(r);
    var blank := Skipped(next[1..]);
    var d := OnlyWritten(Skip(next[1..]));
    m := Member("", name, colon, Item(blank, d, ""));
    NamedMember(name, colon, blank, d, LoadField(s).value.1);
    assert next == ":" + next[1..] && s == "\"" + s[1..];
  }

  lemma MemberFollowed(m: Member, after: string, next: string)
    requires MemberOk(m) && m.item.after == "" && Blank(after)
    ensures var x := m.(item := m.item.(after := after));
      MemberOk(x) && PairOf(x) == PairOf(m) && WriteMember(x, next) == WriteMember(m, after + next)
  {
    assert "" + (after + next) == after + next;
  }

  /** One more member before others. */
  lemma MoreMembers(x: Member, tail: seq<Member>, blank: string, rest: string)
    requires MemberOk(x) && tail != [] && tail[0].before == "" && Blank(blank) && forall i :: 0 <= i < |tail| ==> MemberOk(tail[i])
    ensures var members := [x] + ([tail[0].(before := blank)] + tail[1..]);
      && (forall i :: 0 <= i < |members| ==> MemberOk(members[i]))
      && WriteMembers(members, rest) == WriteMember(x, "," + (blank + WriteMembers(tail, rest)))
      && Pairs(members) == [PairOf(x)] + Pairs(tail)
  {
    BeforeFirstName(tail, blank, rest);
    var more := [tail[0].(before := blank)] + tail[1..];
    assert ([x] + more)[1..] == more;
  }

  lemma {:induction false} OnlyMembers(s: string) returns (members: seq<Member>)
    requires LoadFields(s).Some?
    ensures members != [] && members[0].before == "" && forall i :: 0 <= i < |members| ==> MemberOk(members[i])
    ensures Pairs(members) == LoadFields(s).value.0 && s == WriteMembers(members, LoadFields(s).value.1)
    decreases |s|, 3
  {
    var rest := LoadFields(s).value.1;
    var m := OnlyMember(s);
    var r := LoadField(s).value.1;
    var after := Skipped(r);
    var next := Skip(r);
    var x := m.(item := m.item.(after := after));
    MemberFollowed(m, after, next);
    assert next == [next[0]] + next[1..];
    if StartsWith(next, '}') {
      members := [x];
      assert members[1..] == [];
    } else {
      var blank := Skipped(next[1..]);
      var tail := OnlyMembers(Skip(next[1..]));
      MoreMembers(x, tail, blank, rest);
      members := [x] + ([tail[0].(before := blank)] + tail[1..]);
    }
  }

  // ---------------------------------------------------------------- whole texts

  /** The text is that of the tree between blanks. */
  predicate IsText(s: string, a: string, d: Doc, b: string) { Blank(a) && Blank(b) && DocOk(d) && s == a + Write(d, b) }

  /** A text is read as a value exactly when it is a JSON text for it, with any blanks and escapes. */
  lemma LoadsIff(s: string, v: Json)
    ensures Loads(s) == Some(v) <==> exists a, d, b :: IsText(s, a, d, b) && Meaning(d) == v
  {
    forall a, d, b | IsText(s, a, d, b) ensures Loads(s) == Some(Meaning(d)) {
      WriteStart(d, b);
      SkipBlank(a, Write(d, b));
      WrittenRead(d, b);
      SkipBlank(b, "");
      assert b + "" == b;
    }
    if Loads(s) == Some(v) {
      var a := Skipped(s);
      var d := OnlyWritten(Skip(s));
      var b := LoadValue(Skip(s)).value.1;
      var blank := Skipped(b);
      assert blank + "" == blank;
      assert IsText(s, a, d, b) && Meaning(d) == v;
    }
  }

  // ---------------------------------------------------------------- numbers

  predicate AllDigits(s: string) { forall i | 0 <= i < |s| :: '0' <= s[i] <= '9' }

  predicate IsExp(s: string) {
    || s == ""
    || (|s| > 1 && (s[0] == 'e' || s[0] == 'E')
        && var d := if s[1] == '+' || s[1] == '-' then s[2..] else s[1..]; d != "" && AllDigits(d))
  }

  /** The parts of a number (section 6): a sign, digits without a leading zero, a fraction and an exponent. */
  predicate NumberParts(s: string, sign: string, whole: string, fraction: string, exponent: string) {
    && s == sign + (whole + (fraction + exponent)) && (sign == "" || sign == "-")
    && whole != "" && AllDigits(whole) && (whole[0] == '0' ==> |whole| == 1)
    && (fraction == "" || (|fraction| > 1 && fraction[0] == '.' && AllDigits(fraction[1..]))) && IsExp(exponent)
  }

  lemma {:induction false} DigitsDropped(a: string, b: string)
    requires AllDigits(a) && (b == "" || !IsDigit(b[0]))
    ensures DropDigits(a + b) == b
  {
    if a == "" {
      assert a + b == b;
    } else {
      assert (a + b)[1..] == a[1..] + b;
      DigitsDropped(a[1..], b);
    }
  }

  lemma {:induction false} DigitsInFront(s: string) returns (a: string)
    ensures AllDigits(a) && s == a + DropDigits(s) && (s != "" && IsDigit(s[0]) ==> a != "" && a[0] == s[0])
  {
    if s != "" && IsDigit(s[0]) {
      a := DigitsInFront(s[1..]);
      assert s == [s[0]] + s[1..];
      a := [s[0]] + a;
    } else {
      a := "";
    }
  }

  lemma ExponentIff(s: string)
    ensures IsExponent(s) <==> IsExp(s)
  {
    if s != "" {
      var d := if |s| > 1 && (s[1] == '+' || s[1] == '-') then s[2..] else s[1..];
      var a := DigitsInFront(d);
      if AllDigits(d) { DigitsDropped(d, ""); assert d + "" == d; }
      assert DropDigits(d) == "" ==> d == a;
    }
  }

  lemma FractionParts(s: string) returns (fraction: string, exponent: string)
    requires IsFraction(s)
    ensures s == fraction + exponent && IsExp(exponent)
    ensures fraction == "" || (|fraction| > 1 && fraction[0] == '.' && AllDigits(fraction[1..]))
  {
    if s != "" && s[0] == '.' {
      var a := DigitsInFront(s[1..]);
      fraction, exponent := "." + a, DropDigits(s[1..]);
      assert s == "." + s[1..] && fraction[1..] == a;
    } else {
      fraction, exponent := "", s;
    }
    ExponentIff(exponent);
  }

  lemma PartsFraction(fraction: string, exponent: string)
    requires IsExp(exponent) && (fraction == "" || (|fraction| > 1 && fraction[0] == '.' && AllDigits(fraction[1..])))
    ensures IsFraction(fraction + exponent) && (fraction + exponent == "" || !IsDigit((fraction + exponent)[0]))
  {
    ExponentIff(exponent);
    if fraction == "" {
      assert fraction + exponent == exponent;
    } else {
      assert (fraction + exponent)[1..] == fraction[1..] + exponent;
      DigitsDropped(fraction[1..], exponent);
    }
  }

  lemma PartsOfNumber(s: string) returns (sign: string, whole: string, fraction: string, exponent: string)
    requires IsNumber(s)
    ensures NumberParts(s, sign, whole, fraction, exponent)
  {
    sign := if s[0] == '-' then "-" else "";
    var digits := if s[0] == '-' then s[1..] else s;
    assert s == sign + digits;
    whole := WholePart(digits);
    fraction, exponent := FractionParts(if digits[0] == '0' then digits[1..] else DropDigits(digits));
  }

  lemma WholePart(digits: string) returns (whole: string)
    requires digits != "" && IsDigit(digits[0])
    ensures whole != "" && AllDigits(whole) && (whole[0] == '0' ==> |whole| == 1)
    ensures digits == whole + if digits[0] == '0' then digits[1..] else DropDigits(digits)
  {
    var a := DigitsInFront(digits);
    whole := if digits[0] == '0' then "0" else a;
  }

  lemma NumberOfParts(s: string, sign: string, whole: string, fraction: string, exponent: string)
    requires NumberParts(s, sign, whole, fraction, exponent)
    ensures IsNumber(s)
  {
    var rest := fraction + exponent;
    PartsFraction(fraction, exponent);
    assert (whole + rest)[0] == whole[0];
    assert sign == "" ==> s == whole + rest;
    assert sign == "-" ==> s[1..] == whole + rest;
    if whole[0] == '0' { assert (whole + rest)[1..] == rest; } else { DigitsDropped(whole, rest); }
  }

  /** A literal is read as a number exactly when it has such parts. */
  lemma NumberIff(s: string)
    ensures IsNumber(s) <==> exists sign, whole, fraction, exponent :: NumberParts(s, sign, whole, fraction, exponent)
  {
    if IsNumber(s) { var sign, whole, fraction, exponent := PartsOfNumber(s); }
    forall sign, whole, fraction, exponent | NumberParts(s, sign, whole, fraction, exponent) ensures IsNumber(s) {
      NumberOfParts(s, sign, whole, fraction, exponent);
    }
  }

  // ---------------------------------------------------------------- repeated names

  /** The value of the last pair with a name. */
  function LastOf(pairs: seq<(string, Json)>, name: string): Option<Json> {
    if pairs == [] then None
    else
      var last := pairs[|pairs| - 1];
      if last.0 == name then Some(last.1) else LastOf(pairs[..|pairs| - 1], name)
  }

  function Lookup(fields: seq<(string, Json)>, name: string): Option<Json> {
    if fields == [] then None else if fields[0].0 == name then Some(fields[0].1) else Lookup(fields[1..], name)
  }

  function Names(fields: seq<(string, Json)>): seq<string> { seq(|fields|, i requires 0 <= i < |fields| => fields[i].0) }

  /** The names in the order in which they first occur. */
  function FirstNames(pairs: seq<(string, Json)>): seq<string> {
    if pairs == [] then []
    else
      var before, last := FirstNames(pairs[..|pairs| - 1]), pairs[|pairs| - 1].0;
      if last in before then before else before + [last]
  }

  lemma {:induction false} PutLookedUp(fields: seq<(string, Json)>, f: (string, Json), name: string)
    ensures Lookup(Put(fields, f), name) == if name == f.0 then Some(f.1) else Lookup(fields, name)
  {
    if fields != [] {
      var rest := fields[1..];
      PutLookedUp(rest, f, name);
      assert ([f] + rest)[1..] == rest && ([fields[0]] + Put(rest, f))[1..] == Put(rest, f);
    }
  }

  lemma NamesCons(f: (string, Json), rest: seq<(string, Json)>)
    ensures Names([f] + rest) == [f.0] + Names(rest)
  {
  }

  lemma {:induction false} PutNames(fields: seq<(string, Json)>, f: (string, Json))
    ensures Names(Put(fields, f)) == if f.0 in Names(fields) then Names(fields) else Names(fields) + [f.0]
  {
    if fields != [] {
      var first, rest := fields[0], fields[1..];
      assert fields == [first] + rest;
      NamesCons(first, rest);
      if first.0 == f.0 {
        NamesCons(f, rest);
        assert Names(fields)[0] == f.0;
      } else {
        PutNames(rest, f);
        NamesCons(first, Put(rest, f));
        assert f.0 in Names(fields) <==> f.0 in Names(rest);
        assert [first.0] + (Names(rest) + [f.0]) == [first.0] + Names(rest) + [f.0];
      }
    }
  }

  /** An object has each name once, in the order of first occurrence, with its last value. */
  lemma {:induction false} DictExact(pairs: seq<(string, Json)>, name: string)
    ensures Lookup(Dict(pairs), name) == LastOf(pairs, name) && Names(Dict(pairs)) == FirstNames(pairs)
  {
    if pairs != [] {
      DictExact(pairs[..|pairs| - 1], name);
      PutLookedUp(Dict(pairs[..|pairs| - 1]), pairs[|pairs| - 1], name);
      PutNames(Dict(pairs[..|pairs| - 1]), pairs[|pairs| - 1]);
    }
  }
}
