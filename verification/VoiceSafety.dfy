/** What the voice page checker accepts, and what it sees of a server (scripts/verify_multi_intent_voice.py). */
module VoiceSafety {
  import opened Results
  import opened Ordering
  import opened VoicePages

  // ---------------------------------------------------------------- honest pages

  /** The lines that page i shows. */
  function Slice(ids: seq<string>, size: int, i: nat): seq<string>
    requires size > 0
  {
    ids[Min(i * size, |ids|)..Min((i + 1) * size, |ids|)]
  }

  predicate HonestVariant(inv: Inventory, id: string, v: Variant) {
    && (v.media in inv.languages ==> v.language == inv.languages[v.media])
    && (v.child == "" || v.child == id)
    && (if v.entity == "" then Or(inv.scope, inv.entity) == inv.entity else v.entity == inv.entity)
    && !v.leaks
  }

  ghost predicate HonestLine(inv: Inventory, id: string, variants: seq<Variant>) {
    && variants != []
    && (id in inv.mediaByLine ==> multiset(Identities(variants)) == multiset(inv.mediaByLine[id]))
    && forall k :: 0 <= k < |variants| ==> HonestVariant(inv, id, variants[k])
  }

  ghost predicate HonestLines(inv: Inventory, lines: seq<Line>) {
    forall id :: HasLine(lines, id) ==> HonestLine(inv, id, VariantsOf(lines, id))
  }

  ghost predicate HonestPage(inv: Inventory, size: int, i: nat, page: Page)
    requires size > 0
  {
    var more := i + 1 < Ceil(|inv.lineIds|, size);
    && page.kind == "voice" && page.grouping == "voice_line" && page.entity == inv.entity
    && page.pageSize == Some(size) && page.totalLines == Some(|inv.lineIds|) && page.hasMore == Flag(true, more)
    && (if more then page.cursor.Text? && page.cursor.text != "" else page.cursor == Absent)
    && LineIds(page.lines) == Slice(inv.lineIds, size, i)
    && HonestLines(inv, page.lines)
  }

  ghost predicate HonestPages(inv: Inventory, size: int, pages: seq<Page>)
    requires size > 0
  {
    |pages| == Ceil(|inv.lineIds|, size) && forall i :: 0 <= i < |pages| ==> HonestPage(inv, size, i, pages[i])
  }

  /** The pages show the inventory, slice by slice, and all its recordings, each once. */
  ghost predicate Honest(inv: Inventory, pages: seq<Page>) {
    && inv.scopeValid && inv.conflicts == []
    && inv.lineIds != [] && NoRepeats(inv.lineIds) && NoRepeats(inv.mediaIds)
    && multiset(AllMediaOf(pages)) == multiset(inv.mediaIds)
    && exists size :: size > 0 && HonestPages(inv, size, pages)
  }

  // ---------------------------------------------------------------- repeats and slices

  lemma {:induction false} CountAt(ids: seq<string>, i: nat)
    requires i < |ids|
    ensures multiset(ids) == multiset(ids[..i]) + multiset{ids[i]} + multiset(ids[i + 1..])
  {
    assert ids == ids[..i] + [ids[i]] + ids[i + 1..];
  }

  lemma RepeatsIff(ids: seq<string>)
    requires "" !in ids
    ensures Repeats(ids) == {} <==> NoRepeats(ids)
  {
    if NoRepeats(ids) {
      forall id | id in ids ensures multiset(ids)[id] == 1 {
        var i :| 0 <= i < |ids| && ids[i] == id;
        CountAt(ids, i);
        assert id !in ids[..i] && id !in ids[i + 1..];
      }
      assert Repeats(ids) == {};
    }
    forall i, j | 0 <= i < j < |ids| && ids[i] == ids[j] ensures ids[i] in Repeats(ids) {
      CountAt(ids, j);
      assert ids[i] in ids[..j];
    }
  }

  lemma SameMultisetNoRepeats(a: seq<string>, b: seq<string>)
    requires "" !in a && multiset(a) == multiset(b) && NoRepeats(a)
    ensures NoRepeats(b)
  {
    assert forall x :: x in b ==> x in multiset(b);
    RepeatsIff(a);
    assert forall x :: x in multiset(a) ==> multiset(a)[x] <= 1 by {
      forall x | x in multiset(a) ensures multiset(a)[x] <= 1 {
        assert x in a && x !in Repeats(a);
      }
    }
    assert Repeats(b) == {};
    RepeatsIff(b);
  }

  lemma {:induction false} LineIdsNonblank(lines: seq<Line>)
    ensures "" !in LineIds(lines)
  {
    if lines != [] { LineIdsNonblank(lines[1..]); }
  }

  lemma {:induction false} IdentitiesNonblank(variants: seq<Variant>)
    ensures "" !in Identities(variants)
  {
    if variants != [] { IdentitiesNonblank(variants[1..]); }
  }

  lemma {:induction false} MediaIdsNonblank(lines: seq<Line>)
    ensures "" !in MediaIds(lines)
  {
    if lines != [] {
      IdentitiesNonblank(lines[0].variants);
      MediaIdsNonblank(lines[1..]);
    }
  }

  lemma {:induction false} AllNonblank(pages: seq<Page>)
    ensures "" !in AllLinesOf(pages) && "" !in AllMediaOf(pages)
  {
    if pages != [] {
      LineIdsNonblank(pages[0].lines);
      MediaIdsNonblank(pages[0].lines);
      AllNonblank(pages[1..]);
    }
  }

  lemma AllSplit(a: seq<Page>, page: Page, b: seq<Page>)
    ensures AllLinesOf(a + [page] + b) == AllLinesOf(a) + LineIds(page.lines) + AllLinesOf(b)
    ensures AllMediaOf(a + [page] + b) == AllMediaOf(a) + MediaIds(page.lines) + AllMediaOf(b)
  {
    AllConcat(a + [page], b);
    AllConcat(a, [page]);
    AllOfOne(page);
  }

  lemma AllOfOne(page: Page)
    ensures AllLinesOf([page]) == LineIds(page.lines) && AllMediaOf([page]) == MediaIds(page.lines)
  {
    assert [page][1..] == [];
    assert LineIds(page.lines) + [] == LineIds(page.lines) && MediaIds(page.lines) + [] == MediaIds(page.lines);
  }

  lemma CutAround<T>(s: seq<T>, i: nat)
    requires i < |s|
    ensures s == s[..i] + [s[i]] + s[i + 1..]
  {
  }

  /** What one page shows stands between what the pages before it and after it show. */
  lemma AllAround(pages: seq<Page>, i: nat)
    requires i < |pages|
    ensures AllLinesOf(pages) == AllLinesOf(pages[..i]) + LineIds(pages[i].lines) + AllLinesOf(pages[i + 1..])
    ensures AllMediaOf(pages) == AllMediaOf(pages[..i]) + MediaIds(pages[i].lines) + AllMediaOf(pages[i + 1..])
  {
    CutAround(pages, i);
    AllSplit(pages[..i], pages[i], pages[i + 1..]);
  }

  lemma PagesCover(total: nat, size: int, i: nat)
    requires size > 0
    ensures i < Ceil(total, size) <==> i * size < total
  {
    var n := Ceil(total, size);
    assert total <= n * size < total + size;
    if i < n { assert i * size <= (n - 1) * size; } else { assert n * size <= i * size; }
  }

  lemma SliceLength(ids: seq<string>, size: int, i: nat)
    requires size > 0
    ensures |Slice(ids, size, i)| == Min(size, Max(0, |ids| - i * size))
    ensures ids[..Min((i + 1) * size, |ids|)] == ids[..Min(i * size, |ids|)] + Slice(ids, size, i)
  {
    assert (i + 1) * size == i * size + size;
  }

  /** Pages of the right lengths that make up the whole are its slices. */
  lemma {:induction false} PrefixLength(pages: seq<Page>, total: nat, size: int, i: nat)
    requires size > 0 && i <= |pages|
    requires forall k :: 0 <= k < |pages| ==> |LineIds(pages[k].lines)| == Min(size, Max(0, total - k * size))
    ensures |AllLinesOf(pages[..i])| == Min(i * size, total)
  {
    if i > 0 {
      PrefixLength(pages, total, size, i - 1);
      OneMorePage(pages, i - 1);
      assert i * size == (i - 1) * size + size;
    }
  }

  lemma PageIsSlice(pages: seq<Page>, whole: seq<string>, size: int, i: nat)
    requires size > 0 && i < |pages| && AllLinesOf(pages) == whole
    requires forall k :: 0 <= k < |pages| ==> |LineIds(pages[k].lines)| == Min(size, Max(0, |whole| - k * size))
    ensures LineIds(pages[i].lines) == Slice(whole, size, i)
  {
    PrefixLength(pages, |whole|, size, i);
    SliceLength(whole, size, i);
    AllAround(pages, i);
    var before, here := AllLinesOf(pages[..i]), LineIds(pages[i].lines);
    assert whole[|before|..|before| + |here|] == here;
    assert (i + 1) * size == i * size + size;
  }

  lemma {:induction false} SlicesMakeWhole(pages: seq<Page>, whole: seq<string>, size: int, i: nat)
    requires size > 0 && i <= |pages|
    requires forall k :: 0 <= k < |pages| ==> LineIds(pages[k].lines) == Slice(whole, size, k)
    ensures AllLinesOf(pages[..i]) == whole[..Min(i * size, |whole|)]
  {
    if i > 0 {
      SlicesMakeWhole(pages, whole, size, i - 1);
      OneMorePage(pages, i - 1);
      SliceLength(whole, size, i - 1);
    }
  }

  // ---------------------------------------------------------------- the checker is exact

  ghost predicate Silent(inv: Inventory, pages: seq<Page>) { forall f :: !Reported(inv, pages, f) }

  ghost predicate PageSilent(inv: Inventory, size: Option<int>, i: nat, page: Page) {
    forall f :: !PageReported(inv, size, i, page, f)
  }

  ghost predicate ContentSilent(inv: Inventory, lines: seq<Line>) { forall f :: !ContentReported(inv, lines, f) }

  /** Whatever is shown comes from the inventory, without repeats. */
  ghost predicate Familiar(inv: Inventory, lines: seq<Line>) {
    && NoRepeats(LineIds(lines)) && NoRepeats(MediaIds(lines))
    && (forall id :: id in LineIds(lines) ==> id in inv.lineIds)
    && (forall id :: id in MediaIds(lines) ==> id in inv.mediaIds)
  }

  lemma LineSilentIff(inv: Inventory, id: string, variants: seq<Variant>)
    requires inv.scopeValid
    ensures (forall f :: !LineReported(inv, id, variants, f)) <==> HonestLine(inv, id, variants)
  {
    if forall f :: !LineReported(inv, id, variants, f) {
      assert !LineReported(inv, id, variants, EmptyLine(id));
      assert !LineReported(inv, id, variants, MediaOfLine(id));
      forall k | 0 <= k < |variants| ensures HonestVariant(inv, id, variants[k]) {
        var v := variants[k];
        assert !LineReported(inv, id, variants, LanguageOf(v.media));
        assert !VariantReported(inv, id, v, LanguageOf(v.media));
        assert !LineReported(inv, id, variants, ChildOf(v.media));
        assert !VariantReported(inv, id, v, ChildOf(v.media));
        assert !LineReported(inv, id, variants, EntityOf(v.media));
        assert !VariantReported(inv, id, v, EntityOf(v.media));
        assert !LineReported(inv, id, variants, LocalPath(v.media));
        assert !VariantReported(inv, id, v, LocalPath(v.media));
      }
    }
    if HonestLine(inv, id, variants) {
      forall f ensures !LineReported(inv, id, variants, f) {
        assert forall k :: 0 <= k < |variants| ==> HonestVariant(inv, id, variants[k]) && !VariantReported(inv, id, variants[k], f);
      }
    }
  }

  lemma IdsSilentIff(inv: Inventory, a: seq<string>, b: seq<string>)
    requires inv.scopeValid
    ensures (forall f :: !IdsReported(inv, a, b, f)) <==>
      Repeats(a) == {} && Repeats(b) == {} && (forall id :: id in a ==> id in inv.lineIds) && (forall id :: id in b ==> id in inv.mediaIds)
  {
    if forall f :: !IdsReported(inv, a, b, f) {
      forall id ensures id !in Repeats(a) { assert !IdsReported(inv, a, b, DuplicateLine(id)); }
      forall id ensures id !in Repeats(b) { assert !IdsReported(inv, a, b, DuplicateMedia(id)); }
      forall id | id in a ensures id in inv.lineIds { assert !IdsReported(inv, a, b, ForeignLine(id)); }
      forall id | id in b ensures id in inv.mediaIds { assert !IdsReported(inv, a, b, ForeignMedia(id)); }
    }
  }

  lemma FamiliarIff(inv: Inventory, lines: seq<Line>)
    requires inv.scopeValid
    ensures (forall f :: !IdsReported(inv, LineIds(lines), MediaIds(lines), f)) <==> Familiar(inv, lines)
  {
    LineIdsNonblank(lines);
    MediaIdsNonblank(lines);
    RepeatsIff(LineIds(lines));
    RepeatsIff(MediaIds(lines));
    IdsSilentIff(inv, LineIds(lines), MediaIds(lines));
  }

  lemma ContentSilentIff(inv: Inventory, lines: seq<Line>)
    requires inv.scopeValid
    ensures ContentSilent(inv, lines) <==> Familiar(inv, lines) && HonestLines(inv, lines)
  {
    FamiliarIff(inv, lines);
    forall id ensures (forall f :: !LineReported(inv, id, VariantsOf(lines, id), f)) <==> HonestLine(inv, id, VariantsOf(lines, id)) {
      LineSilentIff(inv, id, VariantsOf(lines, id));
    }
    if ContentSilent(inv, lines) {
      forall id | HasLine(lines, id) ensures HonestLine(inv, id, VariantsOf(lines, id)) {
        forall f ensures !LineReported(inv, id, VariantsOf(lines, id), f) { assert !ContentReported(inv, lines, f); }
      }
      forall f ensures !IdsReported(inv, LineIds(lines), MediaIds(lines), f) { assert !ContentReported(inv, lines, f); }
    }
    if Familiar(inv, lines) && HonestLines(inv, lines) {
      forall f ensures !ContentReported(inv, lines, f) {
        assert !IdsReported(inv, LineIds(lines), MediaIds(lines), f);
        forall id | HasLine(lines, id) ensures !LineReported(inv, id, VariantsOf(lines, id), f) {
          LineSilentIff(inv, id, VariantsOf(lines, id));
          assert HonestLine(inv, id, VariantsOf(lines, id));
        }
      }
    }
  }

  ghost predicate HonestFrame(inv: Inventory, size: int, i: nat, page: Page)
    requires size > 0
  {
    var more := i + 1 < Ceil(|inv.lineIds|, size);
    && page.kind == "voice" && page.grouping == "voice_line" && page.entity == inv.entity
    && page.pageSize == Some(size) && page.totalLines == Some(|inv.lineIds|) && page.hasMore == Flag(true, more)
    && (if more then page.cursor.Text? && page.cursor.text != "" else page.cursor == Absent)
    && |LineIds(page.lines)| == Min(size, Max(0, |inv.lineIds| - i * size))
  }

  lemma FrameSilentIff(inv: Inventory, size: int, i: nat, page: Page)
    requires size > 0 && inv.scopeValid
    ensures (forall f :: !ShapeReported(inv, Some(size), i, page, f) && !PlaceReported(inv, Some(size), i, page, f))
            <==> HonestFrame(inv, size, i, page)
  {
    var s := Some(size);
    var more := ExpectedMore(inv, s, i);
    if forall f :: !ShapeReported(inv, s, i, page, f) && !PlaceReported(inv, s, i, page, f) {
      assert !ShapeReported(inv, s, i, page, PageType(i)) && !ShapeReported(inv, s, i, page, Grouping(i));
      assert !ShapeReported(inv, s, i, page, PageEntity(i)) && !ShapeReported(inv, s, i, page, SizeInvalid(i));
      assert !ShapeReported(inv, s, i, page, SizeMismatch(i));
      assert !PlaceReported(inv, s, i, page, TotalLines(i)) && !PlaceReported(inv, s, i, page, Geometry(more, i));
      assert !PlaceReported(inv, s, i, page, HasMore(i)) && !PlaceReported(inv, s, i, page, NextCursor(i));
      assert !PlaceReported(inv, s, i, page, TerminalCursor(i));
    }
  }

  lemma PageSilentIff(inv: Inventory, size: int, i: nat, page: Page)
    requires size > 0 && inv.scopeValid
    ensures PageSilent(inv, Some(size), i, page) <==> HonestFrame(inv, size, i, page) && Familiar(inv, page.lines) && HonestLines(inv, page.lines)
  {
    FrameSilentIff(inv, size, i, page);
    ContentSilentIff(inv, page.lines);
    if PageSilent(inv, Some(size), i, page) {
      forall f ensures !ShapeReported(inv, Some(size), i, page, f) && !PlaceReported(inv, Some(size), i, page, f) && !ContentReported(inv, page.lines, f) {
        assert !PageReported(inv, Some(size), i, page, f);
      }
    }
  }

  lemma SilentParts(inv: Inventory, pages: seq<Page>)
    requires pages != [] && Silent(inv, pages)
    ensures inv.scopeValid && inv.conflicts == [] && ValidSize(pages[0].pageSize)
    ensures |pages| == ExpectedPages(inv, pages[0].pageSize)
    ensures forall i :: 0 <= i < |pages| ==> PageSilent(inv, pages[0].pageSize, i, pages[i])
    ensures AllLinesOf(pages) == inv.lineIds && multiset(AllMediaOf(pages)) == multiset(inv.mediaIds)
    ensures Repeats(AllLinesOf(pages)) == {} && Repeats(AllMediaOf(pages)) == {}
  {
    var size := pages[0].pageSize;
    forall i | 0 <= i < |pages| ensures PageSilent(inv, size, i, pages[i]) {
      forall f ensures !PageReported(inv, size, i, pages[i], f) { assert !Reported(inv, pages, f); }
    }
    assert PageSilent(inv, size, 0, pages[0]);
    assert !PageReported(inv, size, 0, pages[0], ScopeOfPage(0)) && !PageReported(inv, size, 0, pages[0], SizeInvalid(0));
    assert !Reported(inv, pages, PageCount) && !Reported(inv, pages, AllLines) && !Reported(inv, pages, AllMedia);
    assert inv.conflicts != [] ==> Reported(inv, pages, Conflict(inv.conflicts[0]));
    forall id ensures id !in Repeats(AllLinesOf(pages)) { assert !Reported(inv, pages, DuplicateLine(id)); }
    forall id ensures id !in Repeats(AllMediaOf(pages)) { assert !Reported(inv, pages, DuplicateMedia(id)); }
  }

  lemma FramesAreHonest(inv: Inventory, size: int, pages: seq<Page>)
    requires size > 0 && |pages| == Ceil(|inv.lineIds|, size) && AllLinesOf(pages) == inv.lineIds
    requires forall i :: 0 <= i < |pages| ==> HonestFrame(inv, size, i, pages[i]) && HonestLines(inv, pages[i].lines)
    ensures HonestPages(inv, size, pages)
  {
    forall i | 0 <= i < |pages| ensures HonestPage(inv, size, i, pages[i]) {
      assert HonestFrame(inv, size, i, pages[i]);
      PageIsSlice(pages, inv.lineIds, size, i);
    }
  }

  lemma NoRepeatsAtAll(inv: Inventory, pages: seq<Page>)
    requires AllLinesOf(pages) == inv.lineIds && multiset(AllMediaOf(pages)) == multiset(inv.mediaIds)
    requires Repeats(AllLinesOf(pages)) == {} && Repeats(AllMediaOf(pages)) == {}
    ensures NoRepeats(inv.lineIds) && NoRepeats(inv.mediaIds)
  {
    AllNonblank(pages);
    RepeatsIff(AllLinesOf(pages));
    RepeatsIff(AllMediaOf(pages));
    SameMultisetNoRepeats(AllMediaOf(pages), inv.mediaIds);
  }

  /** Soundness: pages without a failure are the slices of the inventory. */
  lemma SilentIsHonest(inv: Inventory, pages: seq<Page>)
    requires pages != [] && Silent(inv, pages)
    ensures Honest(inv, pages)
  {
    SilentParts(inv, pages);
    var size := pages[0].pageSize.value;
    forall i | 0 <= i < |pages| ensures HonestFrame(inv, size, i, pages[i]) && HonestLines(inv, pages[i].lines) {
      PageSilentIff(inv, size, i, pages[i]);
    }
    FramesAreHonest(inv, size, pages);
    NoRepeatsAtAll(inv, pages);
    PagesCover(|inv.lineIds|, size, 0);
  }

  lemma PartFamiliar(a: seq<string>, b: seq<string>, c: seq<string>, whole: seq<string>)
    requires NoRepeats(a + b + c) && forall x :: x in a + b + c ==> x in whole
    ensures NoRepeats(b) && forall x :: x in b ==> x in whole
  {
    forall i, j | 0 <= i < j < |b| ensures b[i] != b[j] {
      assert (a + b + c)[|a| + i] == b[i] && (a + b + c)[|a| + j] == b[j];
    }
    assert forall x :: x in b ==> x in a + b + c;
  }

  lemma HonestTotals(inv: Inventory, size: int, pages: seq<Page>)
    requires size > 0 && HonestPages(inv, size, pages)
    ensures AllLinesOf(pages) == inv.lineIds
  {
    SlicesMakeWhole(pages, inv.lineIds, size, |pages|);
    PagesCover(|inv.lineIds|, size, |pages|);
    assert pages[..|pages|] == pages;
  }

  lemma PartOfLines(inv: Inventory, pages: seq<Page>, i: nat)
    requires i < |pages| && AllLinesOf(pages) == inv.lineIds && NoRepeats(inv.lineIds)
    ensures NoRepeats(LineIds(pages[i].lines)) && forall x :: x in LineIds(pages[i].lines) ==> x in inv.lineIds
  {
    AllAround(pages, i);
    PartFamiliar(AllLinesOf(pages[..i]), LineIds(pages[i].lines), AllLinesOf(pages[i + 1..]), inv.lineIds);
  }

  lemma PartOfMedia(inv: Inventory, pages: seq<Page>, i: nat)
    requires i < |pages| && multiset(AllMediaOf(pages)) == multiset(inv.mediaIds) && NoRepeats(AllMediaOf(pages))
    ensures NoRepeats(MediaIds(pages[i].lines)) && forall x :: x in MediaIds(pages[i].lines) ==> x in inv.mediaIds
  {
    AllAround(pages, i);
    assert forall x :: x in AllMediaOf(pages) ==> x in multiset(AllMediaOf(pages));
    PartFamiliar(AllMediaOf(pages[..i]), MediaIds(pages[i].lines), AllMediaOf(pages[i + 1..]), inv.mediaIds);
  }

  lemma HonestPageSilent(inv: Inventory, size: int, pages: seq<Page>, i: nat)
    requires size > 0 && HonestPages(inv, size, pages) && i < |pages| && inv.scopeValid
    requires AllLinesOf(pages) == inv.lineIds && NoRepeats(inv.lineIds)
    requires multiset(AllMediaOf(pages)) == multiset(inv.mediaIds) && NoRepeats(AllMediaOf(pages))
    ensures PageSilent(inv, Some(size), i, pages[i])
  {
    assert HonestPage(inv, size, i, pages[i]);
    PartOfLines(inv, pages, i);
    PartOfMedia(inv, pages, i);
    SliceLength(inv.lineIds, size, i);
    PageSilentIff(inv, size, i, pages[i]);
  }

  lemma HonestMedia(inv: Inventory, pages: seq<Page>)
    requires NoRepeats(inv.mediaIds) && multiset(AllMediaOf(pages)) == multiset(inv.mediaIds)
    ensures NoRepeats(AllMediaOf(pages)) && Repeats(AllMediaOf(pages)) == {}
  {
    AllNonblank(pages);
    assert "" !in inv.mediaIds by { assert "" !in multiset(AllMediaOf(pages)); }
    SameMultisetNoRepeats(inv.mediaIds, AllMediaOf(pages));
    RepeatsIff(AllMediaOf(pages));
  }

  lemma SilentFromParts(inv: Inventory, size: int, pages: seq<Page>)
    requires pages != [] && size > 0 && inv.conflicts == [] && pages[0].pageSize == Some(size) && |pages| == ExpectedPages(inv, Some(size))
    requires AllLinesOf(pages) == inv.lineIds && multiset(AllMediaOf(pages)) == multiset(inv.mediaIds)
    requires Repeats(AllLinesOf(pages)) == {} && Repeats(AllMediaOf(pages)) == {}
    requires forall i :: 0 <= i < |pages| ==> PageSilent(inv, Some(size), i, pages[i])
    ensures Silent(inv, pages)
  {
    forall f ensures !Reported(inv, pages, f) {
      forall i | 0 <= i < |pages| ensures !PageReported(inv, Some(size), i, pages[i], f) {
        assert PageSilent(inv, Some(size), i, pages[i]);
      }
    }
  }

  /** Completeness: honest pages give no failure. */
  lemma HonestIsSilent(inv: Inventory, pages: seq<Page>)
    requires pages != [] && Honest(inv, pages)
    ensures Silent(inv, pages)
  {
    var size :| size > 0 && HonestPages(inv, size, pages);
    assert HonestPage(inv, size, 0, pages[0]);
    HonestTotals(inv, size, pages);
    HonestMedia(inv, pages);
    AllNonblank(pages);
    RepeatsIff(AllLinesOf(pages));
    forall i | 0 <= i < |pages| ensures PageSilent(inv, Some(size), i, pages[i]) {
      HonestPageSilent(inv, size, pages, i);
    }
    SilentFromParts(inv, size, pages);
  }

  lemma SilentIff(inv: Inventory, pages: seq<Page>)
    ensures AllFailures(inv, pages) == [] <==> Silent(inv, pages)
  {
    forall f ensures f in AllFailures(inv, pages) <==> Reported(inv, pages, f) { AllExact(inv, pages, f); }
    if AllFailures(inv, pages) != [] { assert AllFailures(inv, pages)[0] in AllFailures(inv, pages); }
  }

  /** The checker returns no failure exactly on the honest pages. */
  lemma CheckerExact(inv: Inventory, pages: seq<Page>)
    requires pages != []
    ensures AllFailures(inv, pages) == [] <==> Honest(inv, pages)
  {
    SilentIff(inv, pages);
    if Silent(inv, pages) { SilentIsHonest(inv, pages); }
    if Honest(inv, pages) { HonestIsSilent(inv, pages); }
  }
}
