/** Following the cursors of a server to its last voice page (scripts/verify_multi_intent_voice.py). */
module VoiceWalk {
  import opened Results
  import opened Ordering
  import opened VoicePages
  import opened VoiceSafety

  const MAX_VOICE_PAGES := 512

  datatype WalkError = InvalidGeometry | AbsoluteLimit | MissingCursor | PageLimit | RepeatedCursor | FetchFailed

  /** What the n-th request to the server gets; it may answer the same cursor differently each time. */
  type Server = (nat, string) -> Option<Page>

  function CursorText(page: Page): string { if page.cursor.Absent? then "" else page.cursor.text }

  /** The pages collected so far, and the cursors they were asked for with. */
  ghost predicate Collected(server: Server, first: Page, pages: seq<Page>, asked: seq<string>) {
    && |pages| == |asked| + 1 && pages[0] == first
    && NoRepeats(asked) && "" !in asked
    && forall k :: 0 <= k < |asked| ==>
         pages[k].hasMore.truthy && asked[k] == CursorText(pages[k]) && server(k, asked[k]) == Some(pages[k + 1])
  }

  /** Why the walk stops after these pages, if it does. */
  function Stop(server: Server, limit: int, pages: seq<Page>, asked: seq<string>): Option<Result<seq<Page>, WalkError>>
    requires pages != []
  {
    var last := pages[|pages| - 1];
    var cursor := CursorText(last);
    if !last.hasMore.truthy then Some(Ok(pages))
    else if cursor == "" then Some(Err(MissingCursor))
    else if |pages| >= limit then Some(Err(PageLimit))
    else if cursor in asked then Some(Err(RepeatedCursor))
    else if server(|asked|, cursor) == None then Some(Err(FetchFailed))
    else None
  }

  /** How often the walk may have to ask, at most. */
  function PageBound(first: Page, maxPages: Option<int>): Result<int, WalkError>
  {
    if !ValidSize(first.pageSize) || !ValidSize(first.totalLines) then Err(InvalidGeometry)
    else
      var declared := Ceil(first.totalLines.value, first.pageSize.value);
      if declared > MAX_VOICE_PAGES then Err(AbsoluteLimit)
      else Ok(if maxPages.Some? then Min(declared, Max(1, maxPages.value)) else declared)
  }

  /**
   `follow_voice_pages`. `pages` and `asked` are what it collected and requested before it
   returned or raised; `calls` counts its requests, the failed one included.
   */
  method FollowVoicePages(server: Server, panel: Option<Page>, maxPages: Option<int>)
    returns (r: Result<seq<Page>, WalkError>, pages: seq<Page>, asked: seq<string>, calls: nat)
    ensures panel == None ==> r == Ok([]) && calls == 0
    ensures panel.Some? && PageBound(panel.value, maxPages).Err? ==> r == Err(PageBound(panel.value, maxPages).error) && calls == 0
    ensures panel.Some? && PageBound(panel.value, maxPages).Ok? ==>
      && Collected(server, panel.value, pages, asked)
      && Stop(server, PageBound(panel.value, maxPages).value, pages, asked) == Some(r)
      && calls <= PageBound(panel.value, maxPages).value - 1 <= MAX_VOICE_PAGES - 1
    ensures calls == |asked| + if r == Err(FetchFailed) then 1 else 0
  {
    pages, asked, calls := [], [], 0;
    if panel == None { r := Ok([]); return; }
    var first := panel.value;
    pages := [first];
    if !ValidSize(first.pageSize) || !ValidSize(first.totalLines) { r := Err(InvalidGeometry); return; }
    PositiveCeil(first.totalLines.value, first.pageSize.value);
    var declared := Ceil(first.totalLines.value, first.pageSize.value);
    if declared > MAX_VOICE_PAGES { r := Err(AbsoluteLimit); return; }
    var limit := declared;
    if maxPages.Some? { limit := Min(limit, Max(1, maxPages.value)); }
    while pages[|pages| - 1].hasMore.truthy
      invariant Collected(server, first, pages, asked) && |pages| <= limit && calls == |asked|
      decreases limit - |pages|
    {
      var cursor := CursorText(pages[|pages| - 1]);
      if cursor == "" { r := Err(MissingCursor); return; }
      if |pages| >= limit { r := Err(PageLimit); return; }
      if cursor in asked { r := Err(RepeatedCursor); return; }
      var answer := server(|asked|, cursor);
      calls := calls + 1;
      if answer == None { r := Err(FetchFailed); return; }
      asked, pages := asked + [cursor], pages + [answer.value];
    }
    r := Ok(pages);
  }

  /**
   The bound: the least number of pages that can hold all lines, at most 512 of them, and fewer only when the
   caller allows fewer, but never less than one.
   */
  lemma BoundExact(first: Page, maxPages: Option<int>)
    ensures PageBound(first, maxPages) == Err(InvalidGeometry) <==>
      first.pageSize == None || first.totalLines == None || first.pageSize.value <= 0 || first.totalLines.value <= 0
    ensures first.pageSize.Some? && first.totalLines.Some? && first.pageSize.value > 0 && first.totalLines.value > 0 ==>
      var size, total := first.pageSize.value, first.totalLines.value;
      match PageBound(first, maxPages)
      case Err(e) => e == AbsoluteLimit && total > 512 * size
      case Ok(n) =>
        && 1 <= n <= 512 && total <= 512 * size && (n - 1) * size < total
        && (total <= n * size || (maxPages.Some? && n == Max(1, maxPages.value)))
        && (maxPages.Some? ==> n <= Max(1, maxPages.value))
  {
    if ValidSize(first.pageSize) && ValidSize(first.totalLines) {
      var size, total := first.pageSize.value, first.totalLines.value;
      var declared := Ceil(total, size);
      PositiveCeil(total, size);
      CeilIsLeast(total, size);
      LeastWithin(total, size, declared, 512);
      if PageBound(first, maxPages).Ok? {
        var n := PageBound(first, maxPages).value;
        assert (n - 1) * size <= (declared - 1) * size by { MonotoneTimes(n - 1, declared - 1, size); }
      }
    }
  }

  lemma CeilIsLeast(a: int, b: int)
    requires a > 0 && b > 0
    ensures (Ceil(a, b) - 1) * b < a <= Ceil(a, b) * b
  {
    var q := (a + b - 1) / b;
    assert a + b - 1 == q * b + (a + b - 1) % b;
    assert (q - 1) * b == q * b - b;
  }

  lemma MonotoneTimes(m: int, n: int, b: int)
    requires m <= n && b > 0
    ensures m * b <= n * b
  {
    assert n * b - m * b == (n - m) * b;
  }

  lemma LeastWithin(a: int, b: int, n: int, most: int)
    requires a > 0 && b > 0 && (n - 1) * b < a <= n * b
    ensures n <= most <==> a <= most * b
  {
    if n <= most { MonotoneTimes(n, most, b); } else { MonotoneTimes(most, n - 1, b); }
  }

  /** The last page and the requests so far decide how a walk ends, or that it goes on. */
  lemma EndExact(server: Server, limit: int, pages: seq<Page>, asked: seq<string>)
    requires pages != []
    ensures var last := pages[|pages| - 1];
      var text := if last.cursor == Absent then "" else last.cursor.text;
      match Stop(server, limit, pages, asked)
      case Some(Ok(r)) => !last.hasMore.truthy && r == pages
      case Some(Err(e)) =>
        && last.hasMore.truthy && (e == MissingCursor <==> text == "")
        && (text != "" ==> (e == PageLimit <==> limit <= |pages|))
        && (text != "" && |pages| < limit ==> e == (if text in asked then RepeatedCursor else FetchFailed))
        && (e == FetchFailed ==> server(|asked|, text) == None)
      case None => last.hasMore.truthy && text != "" && |pages| < limit && text !in asked && server(|asked|, text).Some?
  {
  }

  lemma PositiveCeil(a: int, b: int)
    requires a > 0 && b > 0
    ensures 1 <= Ceil(a, b)
  {
    PagesCover(a, b, 0);
  }

  lemma {:induction false} SamePrefix(server: Server, first: Page, p1: seq<Page>, a1: seq<string>, p2: seq<Page>, a2: seq<string>, k: nat)
    requires Collected(server, first, p1, a1) && Collected(server, first, p2, a2) && k < |p1| && k < |p2|
    ensures p1[..k + 1] == p2[..k + 1] && a1[..k] == a2[..k]
  {
    if k == 0 {
      assert p1[..1] == [first] == p2[..1];
    } else {
      SamePrefix(server, first, p1, a1, p2, a2, k - 1);
      assert p1[k - 1] == p1[..k][k - 1] == p2[..k][k - 1] == p2[k - 1];
      assert p1[..k + 1] == p1[..k] + [p1[k]] && p2[..k + 1] == p2[..k] + [p2[k]];
      assert a1[..k] == a1[..k - 1] + [a1[k - 1]] && a2[..k] == a2[..k - 1] + [a2[k - 1]];
    }
  }

  lemma GoesOn(server: Server, first: Page, limit: int, pages: seq<Page>, asked: seq<string>, k: nat)
    requires Collected(server, first, pages, asked) && k < |asked| && |pages| <= limit
    ensures Stop(server, limit, pages[..k + 1], asked[..k]) == None
  {
    var p, a := pages[..k + 1], asked[..k];
    assert p[|p| - 1] == pages[k];
    assert CursorText(pages[k]) == asked[k] && asked[k] in asked;
    assert |a| == k && server(k, asked[k]) == Some(pages[k + 1]);
    assert asked[k] !in a by {
      forall i | 0 <= i < k ensures a[i] != asked[k] { assert a[i] == asked[i]; }
    }
  }

  lemma StopsNoLater(server: Server, first: Page, limit: int, p1: seq<Page>, a1: seq<string>, p2: seq<Page>, a2: seq<string>)
    requires Collected(server, first, p1, a1) && Stop(server, limit, p1, a1).Some?
    requires Collected(server, first, p2, a2) && |p2| <= limit
    ensures |p2| <= |p1|
  {
    var k := |p1| - 1;
    assert p1[..k + 1] == p1 && a1[..k] == a1;
    if k < |a2| {
      SamePrefix(server, first, p1, a1, p2, a2, k);
      GoesOn(server, first, limit, p2, a2, k);
    }
  }

  /** A walk ends in one way: the pages, the requests and the outcome are determined by the server. */
  lemma WalkDetermined(server: Server, first: Page, limit: int, p1: seq<Page>, a1: seq<string>, p2: seq<Page>, a2: seq<string>)
    requires Collected(server, first, p1, a1) && |p1| <= limit && Stop(server, limit, p1, a1).Some?
    requires Collected(server, first, p2, a2) && |p2| <= limit && Stop(server, limit, p2, a2).Some?
    ensures p1 == p2 && a1 == a2
  {
    StopsNoLater(server, first, limit, p1, a1, p2, a2);
    StopsNoLater(server, first, limit, p2, a2, p1, a1);
    SamePrefix(server, first, p1, a1, p2, a2, |p1| - 1);
    assert p1[..|p1|] == p1 && p2[..|p2|] == p2 && a1[..|a1|] == a1 && a2[..|a2|] == a2;
  }

  /** Against any server: a walk whose pages the checker accepts asked exactly for the other slices, each with its own cursor. */
  lemma AcceptedWalk(server: Server, inv: Inventory, first: Page, limit: int, pages: seq<Page>, asked: seq<string>)
    requires Collected(server, first, pages, asked) && Stop(server, limit, pages, asked) == Some(Ok(pages))
    requires AllFailures(inv, pages) == []
    ensures Honest(inv, pages) && ValidSize(first.pageSize) && |asked| == Ceil(|inv.lineIds|, first.pageSize.value) - 1
    ensures NoRepeats(asked)
  {
    CheckerExact(inv, pages);
    var size :| size > 0 && HonestPages(inv, size, pages);
    assert HonestPage(inv, size, 0, pages[0]);
  }

  // ---------------------------------------------------------------- an honest server

  /** The recordings of the given lines, in order. */
  function Listed(inv: Inventory, ids: seq<string>): seq<string> {
    if ids == [] then [] else (if ids[0] in inv.mediaByLine then inv.mediaByLine[ids[0]] else []) + Listed(inv, ids[1..])
  }

  /** What building an inventory yields when no recording is used for two lines. */
  ghost predicate WellFormed(inv: Inventory) {
    && inv.scopeValid && inv.conflicts == [] && inv.entity != "" && inv.lineIds != []
    && NoRepeats(inv.lineIds) && "" !in inv.lineIds && NoRepeats(inv.mediaIds)
    && (forall id :: id in inv.lineIds ==> id in inv.mediaByLine && inv.mediaByLine[id] != [] && "" !in inv.mediaByLine[id])
    && multiset(Listed(inv, inv.lineIds)) == multiset(inv.mediaIds)
  }

  function ServedVariant(inv: Inventory, id: string, media: string): Variant {
    Variant(media, if media in inv.languages then inv.languages[media] else "", id, inv.entity, false)
  }

  function ServedVariants(inv: Inventory, id: string, media: seq<string>): seq<Variant> {
    if media == [] then [] else [ServedVariant(inv, id, media[0])] + ServedVariants(inv, id, media[1..])
  }

  function ServedLines(inv: Inventory, ids: seq<string>): seq<Line> {
    if ids == [] then []
    else [Line(ids[0], ServedVariants(inv, ids[0], if ids[0] in inv.mediaByLine then inv.mediaByLine[ids[0]] else []))] + ServedLines(inv, ids[1..])
  }

  /** Page i of a server that shows the inventory; `name` makes the cursors. */
  function ServedPage(inv: Inventory, size: int, name: nat -> string, i: nat): Page
    requires size > 0
  {
    var more := i + 1 < Ceil(|inv.lineIds|, size);
    Page("voice", "voice_line", inv.entity, Some(size), Some(|inv.lineIds|), Flag(true, more),
         if more then Text(name(i + 1)) else Absent, ServedLines(inv, Slice(inv.lineIds, size, i)))
  }

  ghost predicate Serves(server: Server, inv: Inventory, size: int, name: nat -> string)
    requires size > 0
  {
    && (forall i :: name(i) != "") && (forall i, j :: i != j ==> name(i) != name(j))
    && forall n, i :: 0 < i < Ceil(|inv.lineIds|, size) ==> server(n, name(i)) == Some(ServedPage(inv, size, name, i))
  }

  lemma {:induction false} ServedVariantsShow(inv: Inventory, id: string, media: seq<string>)
    requires "" !in media
    ensures |ServedVariants(inv, id, media)| == |media| && Identities(ServedVariants(inv, id, media)) == media
    ensures forall k :: 0 <= k < |media| ==> ServedVariants(inv, id, media)[k] == ServedVariant(inv, id, media[k])
  {
    if media != [] {
      var rest, first := ServedVariants(inv, id, media[1..]), ServedVariant(inv, id, media[0]);
      ServedVariantsShow(inv, id, media[1..]);
      assert ServedVariants(inv, id, media) == [first] + rest && ([first] + rest)[1..] == rest;
      assert [media[0]] + media[1..] == media && first.media == media[0] != "";
    }
  }

  ghost predicate Known(inv: Inventory, ids: seq<string>) {
    forall k :: 0 <= k < |ids| ==> ids[k] != "" && ids[k] in inv.mediaByLine && inv.mediaByLine[ids[k]] != [] && "" !in inv.mediaByLine[ids[k]]
  }

  lemma {:induction false} ServedLinesShow(inv: Inventory, ids: seq<string>)
    requires Known(inv, ids)
    ensures LineIds(ServedLines(inv, ids)) == ids && MediaIds(ServedLines(inv, ids)) == Listed(inv, ids)
    ensures forall id :: HasLine(ServedLines(inv, ids), id) ==> id in ids
  {
    if ids != [] {
      var rest := ServedLines(inv, ids[1..]);
      ServedVariantsShow(inv, ids[0], inv.mediaByLine[ids[0]]);
      assert Known(inv, ids[1..]);
      ServedLinesShow(inv, ids[1..]);
      assert ServedLines(inv, ids)[1..] == rest;
      forall id | HasLine(ServedLines(inv, ids), id) ensures id in ids {
        var k :| 0 <= k < |ServedLines(inv, ids)| && ServedLines(inv, ids)[k].id == id;
        if k > 0 { assert rest[k - 1].id == id; assert HasLine(rest, id); }
      }
    }
  }

  lemma {:induction false} ServedLineVariants(inv: Inventory, ids: seq<string>, id: string)
    requires Known(inv, ids) && NoRepeats(ids)
    ensures VariantsOf(ServedLines(inv, ids), id) == if id in ids then ServedVariants(inv, id, inv.mediaByLine[id]) else []
  {
    if ids != [] {
      assert Known(inv, ids[1..]) && NoRepeats(ids[1..]);
      ServedLineVariants(inv, ids[1..], id);
      assert ServedLines(inv, ids)[1..] == ServedLines(inv, ids[1..]);
      assert id in ids <==> id == ids[0] || id in ids[1..];
      assert forall k :: 0 <= k < |ids[1..]| ==> ids[1..][k] == ids[k + 1] != ids[0];
    }
  }

  lemma PartKnown(inv: Inventory, ids: seq<string>, a: nat, b: nat)
    requires a <= b <= |ids| && Known(inv, ids) && NoRepeats(ids)
    ensures Known(inv, ids[a..b]) && NoRepeats(ids[a..b])
  {
    forall k | 0 <= k < b - a ensures ids[a..b][k] == ids[a + k] { }
  }

  lemma SliceKnown(inv: Inventory, size: int, i: nat)
    requires size > 0 && WellFormed(inv)
    ensures Known(inv, Slice(inv.lineIds, size, i)) && NoRepeats(Slice(inv.lineIds, size, i))
  {
    forall k | 0 <= k < |inv.lineIds| ensures inv.lineIds[k] in inv.lineIds && inv.lineIds[k] != "" { }
    assert (i + 1) * size == i * size + size;
    PartKnown(inv, inv.lineIds, Min(i * size, |inv.lineIds|), Min((i + 1) * size, |inv.lineIds|));
  }

  lemma ServedPageHonest(inv: Inventory, size: int, name: nat -> string, i: nat)
    requires size > 0 && WellFormed(inv) && forall j :: name(j) != ""
    ensures HonestPage(inv, size, i, ServedPage(inv, size, name, i))
    ensures MediaIds(ServedPage(inv, size, name, i).lines) == Listed(inv, Slice(inv.lineIds, size, i))
  {
    var slice := Slice(inv.lineIds, size, i);
    var lines := ServedLines(inv, slice);
    SliceKnown(inv, size, i);
    ServedLinesShow(inv, slice);
    forall id | HasLine(lines, id) ensures HonestLine(inv, id, VariantsOf(lines, id)) {
      ServedLineVariants(inv, slice, id);
      ServedVariantsShow(inv, id, inv.mediaByLine[id]);
    }
  }

  lemma {:induction false} ListedConcat(inv: Inventory, a: seq<string>, b: seq<string>)
    ensures Listed(inv, a + b) == Listed(inv, a) + Listed(inv, b)
  {
    if a == [] {
      assert a + b == b;
    } else {
      assert (a + b)[1..] == a[1..] + b;
      ListedConcat(inv, a[1..], b);
    }
  }

  ghost predicate AreServed(inv: Inventory, size: int, name: nat -> string, pages: seq<Page>)
    requires size > 0
  {
    forall i :: 0 <= i < |pages| ==> pages[i] == ServedPage(inv, size, name, i)
  }

  lemma ListedUpTo(inv: Inventory, size: int, i: nat)
    requires size > 0
    ensures Listed(inv, inv.lineIds[..Min((i + 1) * size, |inv.lineIds|)])
            == Listed(inv, inv.lineIds[..Min(i * size, |inv.lineIds|)]) + Listed(inv, Slice(inv.lineIds, size, i))
  {
    SliceLength(inv.lineIds, size, i);
    ListedConcat(inv, inv.lineIds[..Min(i * size, |inv.lineIds|)], Slice(inv.lineIds, size, i));
  }

  lemma {:induction false} ServedMedia(inv: Inventory, size: int, name: nat -> string, pages: seq<Page>, i: nat)
    requires size > 0 && WellFormed(inv) && (forall j :: name(j) != "") && AreServed(inv, size, name, pages) && i <= |pages|
    ensures AllMediaOf(pages[..i]) == Listed(inv, inv.lineIds[..Min(i * size, |inv.lineIds|)])
  {
    if i > 0 {
      ServedMedia(inv, size, name, pages, i - 1);
      OneMorePage(pages, i - 1);
      ServedPageHonest(inv, size, name, i - 1);
      ListedUpTo(inv, size, i - 1);
    }
  }

  lemma ServedIsHonest(inv: Inventory, size: int, name: nat -> string, pages: seq<Page>)
    requires size > 0 && WellFormed(inv) && (forall j :: name(j) != "") && AreServed(inv, size, name, pages)
    requires |pages| == Ceil(|inv.lineIds|, size)
    ensures Honest(inv, pages)
  {
    forall i | 0 <= i < |pages| ensures HonestPage(inv, size, i, pages[i]) { ServedPageHonest(inv, size, name, i); }
    ServedMedia(inv, size, name, pages, |pages|);
    PagesCover(|inv.lineIds|, size, |pages|);
    assert pages[..|pages|] == pages && inv.lineIds[..|inv.lineIds|] == inv.lineIds;
    assert HonestPages(inv, size, pages);
  }

  lemma {:induction false} WalkedPages(server: Server, inv: Inventory, size: int, name: nat -> string, pages: seq<Page>, asked: seq<string>, k: nat)
    requires size > 0 && Serves(server, inv, size, name) && k < |pages|
    requires Collected(server, ServedPage(inv, size, name, 0), pages, asked)
    ensures pages[k] == ServedPage(inv, size, name, k) && (k > 0 ==> k < Ceil(|inv.lineIds|, size) && asked[k - 1] == name(k))
  {
    if k > 0 {
      WalkedPages(server, inv, size, name, pages, asked, k - 1);
    }
  }

  lemma MorePages(server: Server, inv: Inventory, size: int, name: nat -> string, pages: seq<Page>, asked: seq<string>)
    requires size > 0 && Serves(server, inv, size, name)
    requires Collected(server, ServedPage(inv, size, name, 0), pages, asked)
    ensures |pages| < Ceil(|inv.lineIds|, size) ==> Stop(server, Ceil(|inv.lineIds|, size), pages, asked) == None
  {
    var n, last := Ceil(|inv.lineIds|, size), |pages| - 1;
    if |pages| < n {
      WalkedPages(server, inv, size, name, pages, asked, last);
      assert CursorText(pages[last]) == name(last + 1);
      forall k | 0 <= k < |asked| ensures asked[k] != name(last + 1) {
        WalkedPages(server, inv, size, name, pages, asked, k + 1);
      }
      assert server(|asked|, name(last + 1)) == Some(ServedPage(inv, size, name, last + 1));
    }
  }

  /**
   A server that shows a well-formed inventory in at most 512 pages is walked to the end, and the checker
   finds nothing to report.
   */
  lemma HonestServerPasses(server: Server, inv: Inventory, size: int, name: nat -> string,
                           r: Result<seq<Page>, WalkError>, pages: seq<Page>, asked: seq<string>)
    requires size > 0 && WellFormed(inv) && Serves(server, inv, size, name) && Ceil(|inv.lineIds|, size) <= MAX_VOICE_PAGES
    requires Collected(server, ServedPage(inv, size, name, 0), pages, asked)
    requires PageBound(ServedPage(inv, size, name, 0), None).Ok?
    requires Stop(server, PageBound(ServedPage(inv, size, name, 0), None).value, pages, asked) == Some(r)
    ensures r == Ok(pages) && |pages| == Ceil(|inv.lineIds|, size)
    ensures AllFailures(inv, pages) == []
  {
    forall k | 0 <= k < |pages| ensures pages[k] == ServedPage(inv, size, name, k) {
      WalkedPages(server, inv, size, name, pages, asked, k);
    }
    var last := |pages| - 1;
    PagesCover(|inv.lineIds|, size, 0);
    WalkedPages(server, inv, size, name, pages, asked, last);
    MorePages(server, inv, size, name, pages, asked);
    ServedIsHonest(inv, size, name, pages);
    CheckerExact(inv, pages);
  }
}
