/** The checker of paginated voice panels (scripts/verify_multi_intent_voice.py). */
module VoicePages {
  import opened Results
  import opened Ordering

  // ---------------------------------------------------------------- what is compared

  /** One recording of a line; "" stands for a field that is absent or empty. */
  datatype Variant = Variant(media: string, language: string, child: string, entity: string, leaks: bool)

  datatype Line = Line(id: string, variants: seq<Variant>)

  /** `next_cursor`: null, a string, or another value with what `str(value or "")` makes of it. */
  datatype Cursor = Absent | Text(text: string) | Other(text: string)

  /** `has_more`: whether it is a boolean, and whether it is truthy. */
  datatype Flag = Flag(isBool: bool, truthy: bool)

  /** `pageSize` and `totalLines` are None when they are not integers. */
  datatype Page = Page(
    kind: string, grouping: string, entity: string, pageSize: Option<int>, totalLines: Option<int>,
    hasMore: Flag, cursor: Cursor, lines: seq<Line>)

  datatype Inventory = Inventory(
    entity: string, scope: string, scopeValid: bool, lineIds: seq<string>, mediaIds: seq<string>,
    mediaByLine: map<string, seq<string>>, languages: map<string, string>, conflicts: seq<string>)

  datatype Failure =
    | Conflict(id: string)
    | MissingPages
    | PageCount
    | PageType(index: nat)
    | Grouping(index: nat)
    | ScopeOfPage(index: nat)
    | PageEntity(index: nat)
    | SizeInvalid(index: nat)
    | SizeMismatch(index: nat)
    | TotalLines(index: nat)
    | Geometry(more: bool, index: nat)
    | HasMore(index: nat)
    | NextCursor(index: nat)
    | TerminalCursor(index: nat)
    | InvalidScope
    | DuplicateLine(id: string)
    | DuplicateMedia(id: string)
    | ForeignLine(id: string)
    | ForeignMedia(id: string)
    | EmptyLine(id: string)
    | MediaOfLine(id: string)
    | LanguageOf(id: string)
    | ChildOf(id: string)
    | EntityOf(id: string)
    | LocalPath(id: string)
    | AllLines
    | AllMedia

  // ---------------------------------------------------------------- observations of a page

  function LineIds(lines: seq<Line>): seq<string> {
    if lines == [] then [] else (if lines[0].id == "" then [] else [lines[0].id]) + LineIds(lines[1..])
  }

  function Identities(variants: seq<Variant>): seq<string> {
    if variants == [] then [] else (if variants[0].media == "" then [] else [variants[0].media]) + Identities(variants[1..])
  }

  function MediaIds(lines: seq<Line>): seq<string> {
    if lines == [] then [] else Identities(lines[0].variants) + MediaIds(lines[1..])
  }

  /** The recordings of all lines with the id. */
  function VariantsOf(lines: seq<Line>, id: string): seq<Variant> {
    if lines == [] then [] else (if lines[0].id == id then lines[0].variants else []) + VariantsOf(lines[1..], id)
  }

  ghost predicate HasLine(lines: seq<Line>, id: string) {
    exists i :: 0 <= i < |lines| && lines[i].id == id
  }

  lemma {:induction false} LineIdsConcat(a: seq<Line>, b: seq<Line>)
    ensures LineIds(a + b) == LineIds(a) + LineIds(b)
  {
    if a == [] {
      assert a + b == b;
    } else {
      assert (a + b)[1..] == a[1..] + b;
      LineIdsConcat(a[1..], b);
    }
  }

  lemma {:induction false} MediaIdsConcat(a: seq<Line>, b: seq<Line>)
    ensures MediaIds(a + b) == MediaIds(a) + MediaIds(b)
  {
    if a == [] {
      assert a + b == b;
    } else {
      assert (a + b)[1..] == a[1..] + b;
      MediaIdsConcat(a[1..], b);
    }
  }

  lemma {:induction false} VariantsOfConcat(a: seq<Line>, b: seq<Line>, id: string)
    ensures VariantsOf(a + b, id) == VariantsOf(a, id) + VariantsOf(b, id)
  {
    if a == [] {
      assert a + b == b;
    } else {
      assert (a + b)[1..] == a[1..] + b;
      VariantsOfConcat(a[1..], b, id);
    }
  }

  lemma {:induction false} IdentitiesConcat(a: seq<Variant>, b: seq<Variant>)
    ensures Identities(a + b) == Identities(a) + Identities(b)
  {
    if a == [] {
      assert a + b == b;
    } else {
      assert (a + b)[1..] == a[1..] + b;
      IdentitiesConcat(a[1..], b);
    }
  }

  /** The dictionary of recordings by line id, with its keys in the order they were put in. */
  ghost predicate Grouped(lines: seq<Line>, keys: seq<string>, byLine: map<string, seq<Variant>>) {
    && (forall id :: id in keys <==> id in byLine)
    && (forall i, j :: 0 <= i < j < |keys| ==> keys[i] != keys[j])
    && (forall id :: id in byLine <==> HasLine(lines, id))
    && (forall id :: id in byLine ==> byLine[id] == VariantsOf(lines, id))
  }

  /** `byLine.setdefault(id, []).extend(variants)`. */
  function Extended(byLine: map<string, seq<Variant>>, line: Line): map<string, seq<Variant>> {
    byLine[line.id := (if line.id in byLine then byLine[line.id] else []) + line.variants]
  }

  lemma {:induction false} NoVariants(lines: seq<Line>, id: string)
    requires !HasLine(lines, id)
    ensures VariantsOf(lines, id) == []
  {
    if lines != [] {
      assert lines[0].id != id;
      forall k | 0 <= k < |lines[1..]| ensures lines[1..][k].id != id { assert lines[k + 1].id != id; }
      NoVariants(lines[1..], id);
    }
  }

  lemma HasLineStep(lines: seq<Line>, i: nat, id: string)
    requires i < |lines|
    ensures HasLine(lines[..i + 1], id) <==> HasLine(lines[..i], id) || lines[i].id == id
  {
    if HasLine(lines[..i], id) {
      var k :| 0 <= k < i && lines[..i][k].id == id;
      assert lines[..i + 1][k].id == id;
    }
    assert lines[..i + 1][i] == lines[i];
    if HasLine(lines[..i + 1], id) {
      var k :| 0 <= k < i + 1 && lines[..i + 1][k].id == id;
      assert k < i ==> lines[..i][k].id == id;
    }
  }

  lemma VariantsStep(lines: seq<Line>, i: nat, id: string)
    requires i < |lines|
    ensures VariantsOf(lines[..i + 1], id) == VariantsOf(lines[..i], id) + if lines[i].id == id then lines[i].variants else []
  {
    assert lines[..i + 1] == lines[..i] + [lines[i]];
    VariantsOfConcat(lines[..i], [lines[i]], id);
  }

  lemma ExtendedValue(lines: seq<Line>, i: nat, byLine: map<string, seq<Variant>>, id: string)
    requires i < |lines| && (id in byLine <==> HasLine(lines[..i], id)) && (id in byLine ==> byLine[id] == VariantsOf(lines[..i], id))
    ensures id in Extended(byLine, lines[i]) <==> HasLine(lines[..i + 1], id)
    ensures id in Extended(byLine, lines[i]) ==> Extended(byLine, lines[i])[id] == VariantsOf(lines[..i + 1], id)
  {
    HasLineStep(lines, i, id);
    VariantsStep(lines, i, id);
    if id !in byLine { NoVariants(lines[..i], id); }
  }

  lemma GroupedStep(lines: seq<Line>, i: nat, keys: seq<string>, byLine: map<string, seq<Variant>>)
    requires i < |lines| && Grouped(lines[..i], keys, byLine)
    ensures Grouped(lines[..i + 1], if lines[i].id in byLine then keys else keys + [lines[i].id], Extended(byLine, lines[i]))
  {
    forall id
      ensures id in Extended(byLine, lines[i]) <==> HasLine(lines[..i + 1], id)
      ensures id in Extended(byLine, lines[i]) ==> Extended(byLine, lines[i])[id] == VariantsOf(lines[..i + 1], id)
    {
      ExtendedValue(lines, i, byLine, id);
    }
  }

  /** The ids of the lines, in the order in which they first occur. */
  function KeysOf(lines: seq<Line>): seq<string> {
    if lines == [] then []
    else
      var before, last := KeysOf(lines[..|lines| - 1]), lines[|lines| - 1].id;
      if last in before then before else before + [last]
  }

  lemma KeysStep(lines: seq<Line>, i: nat)
    requires i < |lines|
    ensures var before := KeysOf(lines[..i]);
      KeysOf(lines[..i + 1]) == if lines[i].id in before then before else before + [lines[i].id]
  {
    assert lines[..i + 1][..i] == lines[..i];
  }

  method IdentitiesOf(variants: seq<Variant>) returns (ids: seq<string>)
    ensures ids == Identities(variants)
  {
    ids := [];
    for j := 0 to |variants|
      invariant ids == Identities(variants[..j])
    {
      IdentitiesConcat(variants[..j], [variants[j]]);
      assert variants[..j + 1] == variants[..j] + [variants[j]];
      if variants[j].media != "" { ids := ids + [variants[j].media]; }
    }
    assert variants[..|variants|] == variants;
  }

  /** `_voice_observations`. */
  method VoiceObservations(lines: seq<Line>)
    returns (lineIds: seq<string>, mediaIds: seq<string>, keys: seq<string>, byLine: map<string, seq<Variant>>)
    ensures lineIds == LineIds(lines) && mediaIds == MediaIds(lines) && keys == KeysOf(lines) && Grouped(lines, keys, byLine)
  {
    lineIds, mediaIds, keys, byLine := [], [], [], map[];
    for i := 0 to |lines|
      invariant lineIds == LineIds(lines[..i]) && mediaIds == MediaIds(lines[..i])
      invariant keys == KeysOf(lines[..i]) && Grouped(lines[..i], keys, byLine)
    {
      var line := lines[i];
      OneMoreLine(lines, i);
      GroupedStep(lines, i, keys, byLine);
      KeysStep(lines, i);
      if line.id != "" { lineIds := lineIds + [line.id]; }
      if line.id !in byLine { keys := keys + [line.id]; }
      byLine := Extended(byLine, line);
      var ids := IdentitiesOf(line.variants);
      mediaIds := mediaIds + ids;
    }
    assert lines[..|lines|] == lines;
  }

  lemma OneMoreLine(lines: seq<Line>, i: nat)
    requires i < |lines|
    ensures LineIds(lines[..i + 1]) == LineIds(lines[..i]) + if lines[i].id == "" then [] else [lines[i].id]
    ensures MediaIds(lines[..i + 1]) == MediaIds(lines[..i]) + Identities(lines[i].variants)
  {
    assert lines[..i + 1] == lines[..i] + [lines[i]];
    LineIdsConcat(lines[..i], [lines[i]]);
    MediaIdsConcat(lines[..i], [lines[i]]);
  }

  // ---------------------------------------------------------------- what each failure means

  /** The ids `_duplicates` reports. */
  function Repeats(ids: seq<string>): set<string> {
    set id | id in ids && id != "" && multiset(ids)[id] > 1
  }

  function Or(a: string, b: string): string { if a == "" then b else a }

  function CanonicalScope(inv: Inventory): string {
    if !inv.scopeValid then "" else Or(inv.scope, inv.entity)
  }

  predicate VariantReported(inv: Inventory, id: string, v: Variant, f: Failure) {
    || (f == LanguageOf(v.media) && v.media in inv.languages && v.language != inv.languages[v.media])
    || (f == ChildOf(v.media) && Or(v.child, id) != id)
    || (f == EntityOf(v.media) && inv.scopeValid && Or(v.entity, CanonicalScope(inv)) != inv.entity)
    || (f == LocalPath(v.media) && v.leaks)
  }

  ghost predicate LineReported(inv: Inventory, id: string, variants: seq<Variant>, f: Failure) {
    if variants == [] then f == EmptyLine(id)
    else
      || (f == MediaOfLine(id) && id in inv.mediaByLine && multiset(Identities(variants)) != multiset(inv.mediaByLine[id]))
      || SomeVariantReported(inv, id, variants, |variants|, f)
  }

  ghost predicate IdsReported(inv: Inventory, lineIds: seq<string>, mediaIds: seq<string>, f: Failure) {
    || (f == InvalidScope && !inv.scopeValid)
    || (f.DuplicateLine? && f.id in Repeats(lineIds))
    || (f.DuplicateMedia? && f.id in Repeats(mediaIds))
    || (f.ForeignLine? && f.id in lineIds && f.id !in inv.lineIds)
    || (f.ForeignMedia? && f.id in mediaIds && f.id !in inv.mediaIds)
  }

  ghost predicate ContentReported(inv: Inventory, lines: seq<Line>, f: Failure) {
    || IdsReported(inv, LineIds(lines), MediaIds(lines), f)
    || exists id :: HasLine(lines, id) && LineReported(inv, id, VariantsOf(lines, id), f)
  }

  predicate ValidSize(size: Option<int>) { size.Some? && size.value > 0 }

  function Ceil(a: int, b: int): int
    requires b > 0
  {
    (a + b - 1) / b
  }

  function ExpectedPages(inv: Inventory, size: Option<int>): int {
    if ValidSize(size) then Ceil(|inv.lineIds|, size.value) else 0
  }

  predicate ExpectedMore(inv: Inventory, size: Option<int>, i: nat) {
    ValidSize(size) && i < ExpectedPages(inv, size) - 1
  }

  function Max(a: int, b: int): int { if a < b then b else a }

  function ExpectedLines(inv: Inventory, size: Option<int>, i: nat): int {
    if ValidSize(size) then Min(size.value, Max(0, |inv.lineIds| - i * size.value)) else 0
  }

  predicate ShapeReported(inv: Inventory, size: Option<int>, i: nat, page: Page, f: Failure) {
    || (f == PageType(i) && page.kind != "voice")
    || (f == Grouping(i) && page.grouping != "voice_line")
    || (f == ScopeOfPage(i) && !inv.scopeValid)
    || (f == PageEntity(i) && inv.scopeValid && page.entity != inv.entity)
    || (f == SizeInvalid(i) && !ValidSize(page.pageSize))
    || (f == SizeMismatch(i) && ValidSize(page.pageSize) && page.pageSize != size)
  }

  predicate PlaceReported(inv: Inventory, size: Option<int>, i: nat, page: Page, f: Failure) {
    var more := ExpectedMore(inv, size, i);
    || (f == TotalLines(i) && page.totalLines != Some(|inv.lineIds|))
    || (f == Geometry(more, i) && |LineIds(page.lines)| != ExpectedLines(inv, size, i))
    || (f == HasMore(i) && page.hasMore != Flag(true, more))
    || (f == NextCursor(i) && more && (!page.cursor.Text? || page.cursor.text == ""))
    || (f == TerminalCursor(i) && !more && page.cursor != Absent)
  }

  ghost predicate PageReported(inv: Inventory, size: Option<int>, i: nat, page: Page, f: Failure) {
    ShapeReported(inv, size, i, page, f) || PlaceReported(inv, size, i, page, f) || ContentReported(inv, page.lines, f)
  }

  ghost predicate SomePageReported(inv: Inventory, size: Option<int>, pages: seq<Page>, n: nat, f: Failure)
    requires n <= |pages|
  {
    exists i :: 0 <= i < n && PageReported(inv, size, i, pages[i], f)
  }

  function AllLinesOf(pages: seq<Page>): seq<string> {
    if pages == [] then [] else LineIds(pages[0].lines) + AllLinesOf(pages[1..])
  }

  function AllMediaOf(pages: seq<Page>): seq<string> {
    if pages == [] then [] else MediaIds(pages[0].lines) + AllMediaOf(pages[1..])
  }

  ghost predicate UnionReported(inv: Inventory, lineIds: seq<string>, mediaIds: seq<string>, f: Failure) {
    || (f.DuplicateLine? && f.id in Repeats(lineIds))
    || (f.DuplicateMedia? && f.id in Repeats(mediaIds))
    || (f == AllLines && lineIds != inv.lineIds)
    || (f == AllMedia && multiset(mediaIds) != multiset(inv.mediaIds))
  }

  ghost predicate Reported(inv: Inventory, pages: seq<Page>, f: Failure) {
    || (f.Conflict? && f.id in inv.conflicts)
    || (pages == [] && f == MissingPages && inv.lineIds != [])
    || (pages != [] && var size := pages[0].pageSize;
          || (f == PageCount && |pages| != ExpectedPages(inv, size))
          || SomePageReported(inv, size, pages, |pages|, f)
          || UnionReported(inv, AllLinesOf(pages), AllMediaOf(pages), f))
  }

  // ---------------------------------------------------------------- the checker

  function When(test: bool, f: Failure): (r: seq<Failure>) { if test then [f] else [] }

  function Each(ids: seq<string>, make: string -> Failure): (r: seq<Failure>)
    ensures forall f :: f in r <==> exists i :: 0 <= i < |ids| && f == make(ids[i])
  {
    var made := seq(|ids|, i requires 0 <= i < |ids| => make(ids[i]));
    assert forall i :: 0 <= i < |ids| ==> made[i] == make(ids[i]);
    made
  }

  function DuplicateLines(ids: seq<string>): (r: seq<Failure>)
    ensures forall f :: f in r <==> f.DuplicateLine? && f.id in Repeats(ids)
  {
    SortedHas(Repeats(ids));
    Each(Sorted(Repeats(ids)), id => DuplicateLine(id))
  }

  function DuplicateMedias(ids: seq<string>): (r: seq<Failure>)
    ensures forall f :: f in r <==> f.DuplicateMedia? && f.id in Repeats(ids)
  {
    SortedHas(Repeats(ids));
    Each(Sorted(Repeats(ids)), id => DuplicateMedia(id))
  }

  function ForeignLines(ids: seq<string>, known: seq<string>): (r: seq<Failure>)
    ensures forall f :: f in r <==> f.ForeignLine? && f.id in ids && f.id !in known
  {
    var foreign := set id | id in ids && id !in known;
    SortedHas(foreign);
    var r := Each(Sorted(foreign), id => ForeignLine(id));
    assert forall f :: f in r <==> f.ForeignLine? && f.id in foreign;
    r
  }

  function ForeignMedias(ids: seq<string>, known: seq<string>): (r: seq<Failure>)
    ensures forall f :: f in r <==> f.ForeignMedia? && f.id in ids && f.id !in known
  {
    var foreign := set id | id in ids && id !in known;
    SortedHas(foreign);
    var r := Each(Sorted(foreign), id => ForeignMedia(id));
    assert forall f :: f in r <==> f.ForeignMedia? && f.id in foreign;
    r
  }

  function Conflicts(ids: seq<string>): (r: seq<Failure>)
    ensures forall f :: f in r <==> f.Conflict? && f.id in ids
  {
    Each(ids, id => Conflict(id))
  }

  lemma SortedHas(ids: set<string>)
    ensures forall id :: id in Sorted(ids) <==> id in ids
  {
    assert forall id :: id in Sorted(ids) <==> id in Elements(Sorted(ids));
  }

  /** `list(dict.fromkeys(failures))`. */
  function Unique(failures: seq<Failure>): (r: seq<Failure>)
    ensures forall f :: f in r <==> f in failures
    ensures forall i, j :: 0 <= i < j < |r| ==> r[i] != r[j]
  {
    if failures == [] then []
    else
      var before := Unique(failures[..|failures| - 1]);
      var last := failures[|failures| - 1];
      assert failures == failures[..|failures| - 1] + [last];
      if last in before then before else before + [last]
  }

  function VariantFailures(inv: Inventory, id: string, v: Variant): (r: seq<Failure>)
    ensures forall f :: f in r <==> VariantReported(inv, id, v, f)
  {
    When(v.media in inv.languages && v.language != inv.languages[v.media], LanguageOf(v.media))
    + When(Or(v.child, id) != id, ChildOf(v.media))
    + When(inv.scopeValid && Or(v.entity, CanonicalScope(inv)) != inv.entity, EntityOf(v.media))
    + When(v.leaks, LocalPath(v.media))
  }

  function VariantsFailures(inv: Inventory, id: string, variants: seq<Variant>): seq<Failure> {
    if variants == [] then []
    else VariantsFailures(inv, id, variants[..|variants| - 1]) + VariantFailures(inv, id, variants[|variants| - 1])
  }

  /** The failures of one line, in order. */
  function LineFailures(inv: Inventory, id: string, variants: seq<Variant>): seq<Failure> {
    if variants == [] then [EmptyLine(id)]
    else
      When(id in inv.mediaByLine && multiset(Identities(variants)) != multiset(inv.mediaByLine[id]), MediaOfLine(id))
      + VariantsFailures(inv, id, variants)
  }

  function IdsFailures(inv: Inventory, lineIds: seq<string>, mediaIds: seq<string>): seq<Failure> {
    When(!inv.scopeValid, InvalidScope) + DuplicateLines(lineIds) + DuplicateMedias(mediaIds)
    + ForeignLines(lineIds, inv.lineIds) + ForeignMedias(mediaIds, inv.mediaIds)
  }

  lemma IdsExact(inv: Inventory, lineIds: seq<string>, mediaIds: seq<string>, f: Failure)
    ensures f in IdsFailures(inv, lineIds, mediaIds) <==> IdsReported(inv, lineIds, mediaIds, f)
  {
    var scope := When(!inv.scopeValid, InvalidScope);
    assert f in scope <==> f == InvalidScope && !inv.scopeValid;
  }

  function LinesFailures(inv: Inventory, lines: seq<Line>, keys: seq<string>): seq<Failure> {
    if keys == [] then []
    else
      var last := keys[|keys| - 1];
      LinesFailures(inv, lines, keys[..|keys| - 1]) + LineFailures(inv, last, VariantsOf(lines, last))
  }

  /** The failures of a page's content: those of its ids, then those of its lines, as the lines first occur. */
  function ContentFailures(inv: Inventory, lines: seq<Line>): seq<Failure> {
    IdsFailures(inv, LineIds(lines), MediaIds(lines)) + LinesFailures(inv, lines, KeysOf(lines))
  }

  ghost predicate SomeVariantReported(inv: Inventory, id: string, variants: seq<Variant>, n: nat, f: Failure)
    requires n <= |variants|
  {
    exists k :: 0 <= k < n && VariantReported(inv, id, variants[k], f)
  }

  lemma {:induction false} VariantsExact(inv: Inventory, id: string, variants: seq<Variant>, n: nat, f: Failure)
    requires n <= |variants|
    ensures f in VariantsFailures(inv, id, variants[..n]) <==> SomeVariantReported(inv, id, variants, n, f)
  {
    if n > 0 {
      VariantsExact(inv, id, variants, n - 1, f);
      EachVariantStep(inv, id, variants, n - 1);
      SomeVariantStep(inv, id, variants, n - 1, f);
    }
  }

  lemma EachVariantStep(inv: Inventory, id: string, variants: seq<Variant>, n: nat)
    requires n < |variants|
    ensures VariantsFailures(inv, id, variants[..n + 1]) == VariantsFailures(inv, id, variants[..n]) + VariantFailures(inv, id, variants[n])
  {
    assert variants[..n + 1][..n] == variants[..n];
  }

  lemma SomeVariantStep(inv: Inventory, id: string, variants: seq<Variant>, n: nat, f: Failure)
    requires n < |variants|
    ensures SomeVariantReported(inv, id, variants, n + 1, f) <==>
              SomeVariantReported(inv, id, variants, n, f) || VariantReported(inv, id, variants[n], f)
  {
  }

  lemma LineExact(inv: Inventory, id: string, variants: seq<Variant>, f: Failure)
    ensures f in LineFailures(inv, id, variants) <==> LineReported(inv, id, variants, f)
  {
    VariantsExact(inv, id, variants, |variants|, f);
    assert variants[..|variants|] == variants;
  }

  /** One of the keys has the failure. */
  ghost predicate KeyReported(inv: Inventory, lines: seq<Line>, keys: seq<string>, f: Failure) {
    exists id :: id in keys && LineReported(inv, id, VariantsOf(lines, id), f)
  }

  lemma KeyStep(inv: Inventory, lines: seq<Line>, keys: seq<string>, last: string, f: Failure)
    ensures KeyReported(inv, lines, keys + [last], f) <==> KeyReported(inv, lines, keys, f) || LineReported(inv, last, VariantsOf(lines, last), f)
  {
    assert last in keys + [last];
  }

  lemma LinesStep(inv: Inventory, lines: seq<Line>, keys: seq<string>, last: string)
    ensures LinesFailures(inv, lines, keys + [last]) == LinesFailures(inv, lines, keys) + LineFailures(inv, last, VariantsOf(lines, last))
  {
    assert (keys + [last])[..|keys|] == keys;
  }

  lemma {:induction false} LinesExact(inv: Inventory, lines: seq<Line>, keys: seq<string>, f: Failure)
    ensures f in LinesFailures(inv, lines, keys) <==> KeyReported(inv, lines, keys, f)
  {
    if keys != [] {
      var before, last := keys[..|keys| - 1], keys[|keys| - 1];
      assert keys == before + [last];
      LinesExact(inv, lines, before, f);
      LinesStep(inv, lines, before, last);
      LineExact(inv, last, VariantsOf(lines, last), f);
      KeyStep(inv, lines, before, last, f);
    }
  }

  /** A content failure is listed exactly when it occurs. */
  lemma ContentExact(inv: Inventory, lines: seq<Line>, f: Failure)
    ensures f in ContentFailures(inv, lines) <==> ContentReported(inv, lines, f)
  {
    IdsExact(inv, LineIds(lines), MediaIds(lines), f);
    LinesExact(inv, lines, KeysOf(lines), f);
    forall id ensures id in KeysOf(lines) <==> HasLine(lines, id) { KeysAreIds(lines, id); }
  }

  lemma {:induction false} KeysAreIds(lines: seq<Line>, id: string)
    ensures id in KeysOf(lines) <==> HasLine(lines, id)
  {
    if lines != [] {
      var n := |lines| - 1;
      KeysAreIds(lines[..n], id);
      assert lines[..n + 1] == lines;
      HasLineStep(lines, n, id);
    }
  }

  method EvaluateVariants(inv: Inventory, id: string, variants: seq<Variant>) returns (failures: seq<Failure>)
    ensures failures == VariantsFailures(inv, id, variants)
  {
    failures := [];
    for k := 0 to |variants|
      invariant failures == VariantsFailures(inv, id, variants[..k])
    {
      EachVariantStep(inv, id, variants, k);
      failures := failures + VariantFailures(inv, id, variants[k]);
    }
    assert variants[..|variants|] == variants;
  }

  method EvaluateLine(inv: Inventory, id: string, variants: seq<Variant>) returns (failures: seq<Failure>)
    ensures failures == LineFailures(inv, id, variants)
  {
    if variants == [] {
      failures := [EmptyLine(id)];
    } else {
      var ids := IdentitiesOf(variants);
      failures := When(id in inv.mediaByLine && multiset(ids) != multiset(inv.mediaByLine[id]), MediaOfLine(id));
      var found := EvaluateVariants(inv, id, variants);
      failures := failures + found;
    }
  }

  /** The loop over the lines. */
  method EvaluateLines(inv: Inventory, ghost lines: seq<Line>, keys: seq<string>, byLine: map<string, seq<Variant>>) returns (failures: seq<Failure>)
    requires forall i :: 0 <= i < |keys| ==> keys[i] in byLine && byLine[keys[i]] == VariantsOf(lines, keys[i])
    ensures failures == LinesFailures(inv, lines, keys)
  {
    failures := [];
    for k := 0 to |keys|
      invariant failures == LinesFailures(inv, lines, keys[..k])
    {
      LinesStep(inv, lines, keys[..k], keys[k]);
      assert keys[..k + 1] == keys[..k] + [keys[k]];
      var found := EvaluateLine(inv, keys[k], byLine[keys[k]]);
      failures := failures + found;
    }
    assert keys[..|keys|] == keys;
  }

  /** `_evaluate_voice_content`. */
  method EvaluateVoiceContent(inv: Inventory, lines: seq<Line>) returns (failures: seq<Failure>)
    ensures failures == ContentFailures(inv, lines)
  {
    var lineIds, mediaIds, keys, byLine := VoiceObservations(lines);
    var found := EvaluateLines(inv, lines, keys, byLine);
    failures := IdsFailures(inv, lineIds, mediaIds) + found;
  }

  function ShapeFailures(inv: Inventory, size: Option<int>, i: nat, page: Page): (r: seq<Failure>)
    ensures forall f :: f in r <==> ShapeReported(inv, size, i, page, f)
  {
    When(page.kind != "voice", PageType(i))
    + When(page.grouping != "voice_line", Grouping(i))
    + (if !inv.scopeValid then [ScopeOfPage(i)] else When(page.entity != inv.entity, PageEntity(i)))
    + (if !ValidSize(page.pageSize) then [SizeInvalid(i)] else When(page.pageSize != size, SizeMismatch(i)))
  }

  function PlaceFailures(inv: Inventory, size: Option<int>, i: nat, page: Page): (r: seq<Failure>)
    ensures forall f :: f in r <==> PlaceReported(inv, size, i, page, f)
  {
    var more := ExpectedMore(inv, size, i);
    When(page.totalLines != Some(|inv.lineIds|), TotalLines(i))
    + When(|LineIds(page.lines)| != ExpectedLines(inv, size, i), Geometry(more, i))
    + When(page.hasMore != Flag(true, more), HasMore(i))
    + When(more && (!page.cursor.Text? || page.cursor.text == ""), NextCursor(i))
    + When(!more && page.cursor != Absent, TerminalCursor(i))
  }

  lemma {:induction false} AllConcat(a: seq<Page>, b: seq<Page>)
    ensures AllLinesOf(a + b) == AllLinesOf(a) + AllLinesOf(b) && AllMediaOf(a + b) == AllMediaOf(a) + AllMediaOf(b)
  {
    if a == [] {
      assert a + b == b;
    } else {
      assert (a + b)[1..] == a[1..] + b;
      AllConcat(a[1..], b);
    }
  }

  /** The conclusions drawn from all pages together. */
  function UnionFailures(inv: Inventory, lineIds: seq<string>, mediaIds: seq<string>): (r: seq<Failure>)
    ensures forall f :: f in r <==> UnionReported(inv, lineIds, mediaIds, f)
  {
    DuplicateLines(lineIds) + DuplicateMedias(mediaIds)
    + When(lineIds != inv.lineIds, AllLines) + When(multiset(mediaIds) != multiset(inv.mediaIds), AllMedia)
  }

  function PageFailures(inv: Inventory, size: Option<int>, i: nat, page: Page): seq<Failure> {
    ShapeFailures(inv, size, i, page) + PlaceFailures(inv, size, i, page) + ContentFailures(inv, page.lines)
  }

  function PagesFailures(inv: Inventory, size: Option<int>, pages: seq<Page>): seq<Failure> {
    if pages == [] then []
    else
      var last := |pages| - 1;
      PagesFailures(inv, size, pages[..last]) + PageFailures(inv, size, last, pages[last])
  }

  /** All failures in order: conflicts, the page count, page by page, the pages together; the first of equal ones is kept. */
  function AllFailures(inv: Inventory, pages: seq<Page>): seq<Failure> {
    if pages == [] then Conflicts(inv.conflicts) + When(inv.lineIds != [], MissingPages)
    else
      var size := pages[0].pageSize;
      Unique(Conflicts(inv.conflicts) + When(|pages| != ExpectedPages(inv, size), PageCount)
        + PagesFailures(inv, size, pages) + UnionFailures(inv, AllLinesOf(pages), AllMediaOf(pages)))
  }

  lemma PageExact(inv: Inventory, size: Option<int>, i: nat, page: Page, f: Failure)
    ensures f in PageFailures(inv, size, i, page) <==> PageReported(inv, size, i, page, f)
  {
    ContentExact(inv, page.lines, f);
  }

  lemma SomePageStep(inv: Inventory, size: Option<int>, pages: seq<Page>, n: nat, f: Failure)
    requires n < |pages|
    ensures SomePageReported(inv, size, pages, n + 1, f) <==> SomePageReported(inv, size, pages, n, f) || PageReported(inv, size, n, pages[n], f)
  {
  }

  lemma {:induction false} PagesExact(inv: Inventory, size: Option<int>, pages: seq<Page>, n: nat, f: Failure)
    requires n <= |pages|
    ensures f in PagesFailures(inv, size, pages[..n]) <==> SomePageReported(inv, size, pages, n, f)
  {
    if n > 0 {
      PagesExact(inv, size, pages, n - 1, f);
      PagesExactStep(inv, size, pages, n - 1, f);
    }
  }

  lemma PagesExactStep(inv: Inventory, size: Option<int>, pages: seq<Page>, n: nat, f: Failure)
    requires n < |pages| && (f in PagesFailures(inv, size, pages[..n]) <==> SomePageReported(inv, size, pages, n, f))
    ensures f in PagesFailures(inv, size, pages[..n + 1]) <==> SomePageReported(inv, size, pages, n + 1, f)
  {
    PagesStep(inv, size, pages, n);
    PageExact(inv, size, n, pages[n], f);
    SomePageStep(inv, size, pages, n, f);
  }

  lemma PagesStep(inv: Inventory, size: Option<int>, pages: seq<Page>, n: nat)
    requires n < |pages|
    ensures PagesFailures(inv, size, pages[..n + 1]) == PagesFailures(inv, size, pages[..n]) + PageFailures(inv, size, n, pages[n])
  {
    assert pages[..n + 1][..n] == pages[..n];
  }

  lemma EveryPageExact(inv: Inventory, size: Option<int>, pages: seq<Page>, f: Failure)
    ensures f in PagesFailures(inv, size, pages) <==> SomePageReported(inv, size, pages, |pages|, f)
  {
    PagesExact(inv, size, pages, |pages|, f);
    assert pages[..|pages|] == pages;
  }

  lemma InFour(a: seq<Failure>, b: seq<Failure>, c: seq<Failure>, d: seq<Failure>, f: Failure)
    ensures f in Unique(a + b + c + d) <==> f in a || f in b || f in c || f in d
  {
  }

  lemma ManyPagesExact(inv: Inventory, pages: seq<Page>, f: Failure)
    requires pages != []
    ensures f in AllFailures(inv, pages) <==> Reported(inv, pages, f)
  {
    var size := pages[0].pageSize;
    var count := When(|pages| != ExpectedPages(inv, size), PageCount);
    EveryPageExact(inv, size, pages, f);
    InFour(Conflicts(inv.conflicts), count, PagesFailures(inv, size, pages), UnionFailures(inv, AllLinesOf(pages), AllMediaOf(pages)), f);
  }

  /** A failure is listed exactly when it occurs. */
  lemma AllExact(inv: Inventory, pages: seq<Page>, f: Failure)
    ensures f in AllFailures(inv, pages) <==> Reported(inv, pages, f)
  {
    if pages != [] { ManyPagesExact(inv, pages, f); }
  }

  method EvaluatePage(inv: Inventory, size: Option<int>, i: nat, page: Page) returns (failures: seq<Failure>)
    ensures failures == PageFailures(inv, size, i, page)
  {
    var content := EvaluateVoiceContent(inv, page.lines);
    failures := ShapeFailures(inv, size, i, page) + PlaceFailures(inv, size, i, page) + content;
  }

  /** The loop over the pages. */
  method EvaluateEach(inv: Inventory, size: Option<int>, pages: seq<Page>)
    returns (failures: seq<Failure>, lineIds: seq<string>, mediaIds: seq<string>)
    ensures lineIds == AllLinesOf(pages) && mediaIds == AllMediaOf(pages) && failures == PagesFailures(inv, size, pages)
  {
    failures, lineIds, mediaIds := [], [], [];
    for i := 0 to |pages|
      invariant lineIds == AllLinesOf(pages[..i]) && mediaIds == AllMediaOf(pages[..i])
      invariant failures == PagesFailures(inv, size, pages[..i])
    {
      var lines, media, _, _ := VoiceObservations(pages[i].lines);
      OneMorePage(pages, i);
      lineIds, mediaIds := lineIds + lines, mediaIds + media;
      var found := EvaluatePage(inv, size, i, pages[i]);
      PagesStep(inv, size, pages, i);
      failures := failures + found;
    }
    assert pages[..|pages|] == pages;
  }

  /** `evaluate_all_voice_pages`: the failures of the pages in the order of the checks, none of them twice. */
  method EvaluateAllVoicePages(inv: Inventory, pages: seq<Page>) returns (failures: seq<Failure>)
    ensures failures == AllFailures(inv, pages)
    ensures pages != [] ==> NoRepeats(failures)
  {
    if pages == [] {
      return Conflicts(inv.conflicts) + When(inv.lineIds != [], MissingPages);
    }
    var size := pages[0].pageSize;
    var found, lineIds, mediaIds := EvaluateEach(inv, size, pages);
    failures := Unique(Conflicts(inv.conflicts) + When(|pages| != ExpectedPages(inv, size), PageCount) + found + UnionFailures(inv, lineIds, mediaIds));
  }

  lemma OneMorePage(pages: seq<Page>, i: nat)
    requires i < |pages|
    ensures AllLinesOf(pages[..i + 1]) == AllLinesOf(pages[..i]) + LineIds(pages[i].lines)
    ensures AllMediaOf(pages[..i + 1]) == AllMediaOf(pages[..i]) + MediaIds(pages[i].lines)
  {
    assert pages[..i + 1] == pages[..i] + [pages[i]];
    AllConcat(pages[..i], [pages[i]]);
  }
}
