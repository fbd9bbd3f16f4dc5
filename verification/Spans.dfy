/** Where the story names of a query stand in it (scripts/capture_story_segment_baseline.py). */
module Spans {
  import opened Results
  import opened Texts

  datatype Span = Span(start: nat, end: nat, text: string)

  predicate At(query: string, name: string, i: nat) {
    i + |name| <= |query| && query[i..i + |name|] == name
  }

  /** `query.find(name, start)`: the first place from start on, None for -1. */
  function FindFrom(query: string, name: string, start: nat): (r: Option<nat>)
    ensures r.Some? ==> r.value >= start && At(query, name, r.value)
    ensures forall i :: start <= i && At(query, name, i) ==> r.Some? && r.value <= i
    decreases |query| - start
  {
    if start + |name| > |query| then None
    else if query[start..start + |name|] == name then Some(start)
    else FindFrom(query, name, start + 1)
  }

  /** The names stand at the given places, from `start` on, in order and without overlap. */
  ghost predicate Placed(query: string, names: seq<string>, places: seq<nat>, start: nat) {
    && |places| == |names|
    && (forall i :: 0 <= i < |names| ==> places[i] >= start && At(query, names[i], places[i]))
    && forall i, j :: 0 <= i < j < |names| ==> places[i] + |names[i]| <= places[j]
  }

  function Starts(spans: seq<Span>): (places: seq<nat>)
    ensures |places| == |spans| && forall i :: 0 <= i < |spans| ==> places[i] == spans[i].start
  {
    seq(|spans|, i requires 0 <= i < |spans| => spans[i].start)
  }

  /** No placement of the names has one of them further left. */
  ghost predicate Leftmost(query: string, names: seq<string>, places: seq<nat>, n: nat)
    requires n <= |places|
  {
    forall other, i :: Placed(query, names, other, 0) && 0 <= i < n && i < |other| ==> places[i] <= other[i]
  }

  /** The spans of names at the given places. */
  function SpansAt(names: seq<string>, places: seq<nat>): (spans: seq<Span>)
    requires |places| <= |names|
    ensures |spans| == |places|
    ensures forall i :: 0 <= i < |spans| ==> spans[i] == Span(places[i], places[i] + |names[i]|, names[i])
  {
    seq(|places|, i requires 0 <= i < |places| => Span(places[i], places[i] + |names[i]|, names[i]))
  }

  lemma OneMoreSpan(names: seq<string>, places: seq<nat>, place: nat)
    requires |places| < |names|
    ensures SpansAt(names, places + [place]) == SpansAt(names, places) + [Span(place, place + |names[|places|]|, names[|places|])]
  {
  }

  ghost predicate Placeable(query: string, names: seq<string>) { exists places :: Placed(query, names, places, 0) }

  /** A leftmost placement of the first names. */
  ghost predicate Best(query: string, names: seq<string>, places: seq<nat>) {
    |places| <= |names| && Placed(query, names[..|places|], places, 0) && Leftmost(query, names, places, |places|)
  }

  /** `_mention_spans`: it fails exactly when the names cannot be placed, and otherwise places them leftmost. */
  method MentionSpans(query: string, names: seq<string>) returns (r: Option<seq<Span>>)
    ensures r.Some? <==> Placeable(query, names)
    ensures r.Some? ==> Placed(query, names, Starts(r.value), 0) && Leftmost(query, names, Starts(r.value), |names|)
    ensures r.Some? ==> r.value == SpansAt(names, Starts(r.value))
  {
    var spans: seq<Span> := [];
    var cursor: nat := 0;
    ghost var places: seq<nat> := [];
    SearchStart(query, names);
    for k := 0 to |names|
      invariant |places| == k && Best(query, names, places) && Tracks(names, places, spans, cursor)
    {
      var found := FindFrom(query, names[k], cursor);
      BestStep(query, names, places, cursor);
      if found == None { return None; }
      var next := Span(found.value, found.value + |names[k]|, names[k]);
      TrackStep(names, places, spans, cursor, next);
      spans, cursor := spans + [next], next.end;
      places := places + [next.start];
    }
    BestOfAll(query, names, places);
    r := Some(spans);
  }

  /** The spans so far and the end of the last one. */
  ghost predicate Tracks(names: seq<string>, places: seq<nat>, spans: seq<Span>, cursor: nat) {
    |places| <= |names| && spans == SpansAt(names, places) && cursor == CursorAfter(names, places)
  }

  lemma TrackStep(names: seq<string>, places: seq<nat>, spans: seq<Span>, cursor: nat, next: Span)
    requires |places| < |names| && Tracks(names, places, spans, cursor)
    requires next == Span(next.start, next.start + |names[|places|]|, names[|places|])
    ensures Tracks(names, places + [next.start], spans + [next], next.end)
  {
    OneMoreSpan(names, places, next.start);
  }

  lemma SearchStart(query: string, names: seq<string>)
    ensures Best(query, names, []) && Tracks(names, [], [], 0)
  {
  }

  lemma BestOfAll(query: string, names: seq<string>, places: seq<nat>)
    requires Best(query, names, places) && |places| == |names|
    ensures Placed(query, names, places, 0) && Leftmost(query, names, places, |names|) && Placeable(query, names)
    ensures Starts(SpansAt(names, places)) == places
  {
    assert names[..|names|] == names;
  }

  /** Where the search goes on. */
  function CursorAfter(names: seq<string>, places: seq<nat>): nat
    requires |places| <= |names|
  {
    if places == [] then 0 else places[|places| - 1] + |names[|places| - 1]|
  }

  /** Every placement has name k at the cursor or after it. */
  ghost predicate NextFrom(query: string, names: seq<string>, k: nat, cursor: nat)
    requires k < |names|
  {
    forall other :: Placed(query, names, other, 0) ==> cursor <= other[k] && At(query, names[k], other[k])
  }

  lemma CursorIsLeftmost(query: string, names: seq<string>, places: seq<nat>, cursor: nat)
    requires |places| < |names| && cursor == CursorAfter(names, places)
    requires Leftmost(query, names, places, |places|)
    ensures NextFrom(query, names, |places|, cursor)
  {
    var k := |places|;
    forall other | Placed(query, names, other, 0) ensures cursor <= other[k] && At(query, names[k], other[k]) {
      if k > 0 {
        assert places[k - 1] <= other[k - 1];
        assert other[k - 1] + |names[k - 1]| <= other[k];
      }
    }
  }

  lemma PlacedStep(query: string, names: seq<string>, places: seq<nat>, found: nat)
    requires |places| < |names| && Placed(query, names[..|places|], places, 0)
    requires CursorAfter(names, places) <= found && At(query, names[|places|], found)
    ensures Placed(query, names[..|places| + 1], places + [found], 0)
  {
    var k := |places|;
    forall i | 0 <= i < k ensures places[i] + |names[i]| <= found {
      if i < k - 1 { assert places[i] + |names[..k][i]| <= places[k - 1]; }
    }
  }

  lemma LeftmostStep(query: string, names: seq<string>, places: seq<nat>, cursor: nat, found: nat)
    requires |places| < |names| && Leftmost(query, names, places, |places|)
    requires NextFrom(query, names, |places|, cursor)
    requires forall i :: cursor <= i && At(query, names[|places|], i) ==> found <= i
    ensures Leftmost(query, names, places + [found], |places| + 1)
  {
  }

  lemma BestStep(query: string, names: seq<string>, places: seq<nat>, cursor: nat)
    requires |places| < |names| && cursor == CursorAfter(names, places) && Best(query, names, places)
    ensures var found := FindFrom(query, names[|places|], cursor);
      if found.None? then !Placeable(query, names) else Best(query, names, places + [found.value])
  {
    var found := FindFrom(query, names[|places|], cursor);
    CursorIsLeftmost(query, names, places, cursor);
    if found.Some? {
      PlacedStep(query, names, places, found.value);
      LeftmostStep(query, names, places, cursor, found.value);
    }
  }

  // ---------------------------------------------------------------- queries built from the names

  /** A text before each name, and one after the last. */
  function Woven(texts: seq<string>, names: seq<string>, last: string): string
    requires |texts| == |names|
  {
    if names == [] then last else texts[0] + names[0] + Woven(texts[1..], names[1..], last)
  }

  lemma Later(query: string, before: string, names: seq<string>, places: seq<nat>)
    requires Placed(query, names, places, 0)
    ensures Placed(before + query, names, seq(|places|, i requires 0 <= i < |places| => places[i] + |before|), |before|)
  {
    var later := seq(|places|, i requires 0 <= i < |places| => places[i] + |before|);
    forall i | 0 <= i < |names| ensures later[i] >= |before| && At(before + query, names[i], later[i]) {
      assert (before + query)[later[i]..later[i] + |names[i]|] == query[places[i]..places[i] + |names[i]|];
    }
  }

  lemma OneMore(query: string, name: string, names: seq<string>, first: nat, places: seq<nat>)
    requires At(query, name, first) && Placed(query, names, places, first + |name|)
    ensures Placed(query, [name] + names, [first] + places, 0)
  {
  }

  /** Whatever texts the names are woven into, they are found in that query. */
  lemma {:induction false} WovenIsPlaceable(texts: seq<string>, names: seq<string>, last: string) returns (places: seq<nat>)
    requires |texts| == |names|
    ensures Placed(Woven(texts, names, last), names, places, 0)
  {
    if names == [] {
      places := [];
    } else {
      var rest := Woven(texts[1..], names[1..], last);
      var inner := WovenIsPlaceable(texts[1..], names[1..], last);
      var before := texts[0] + names[0];
      var later := seq(|inner|, i requires 0 <= i < |inner| => inner[i] + |before|);
      Later(rest, before, names[1..], inner);
      assert before + rest == Woven(texts, names, last);
      assert (before + rest)[|texts[0]|..|before|] == names[0];
      OneMore(before + rest, names[0], names[1..], |texts[0]|, later);
      places := [|texts[0]|] + later;
      assert [names[0]] + names[1..] == names;
    }
  }

  lemma ThreePieces(query: string, a: nat, b: nat, c: nat)
    requires a <= b <= c <= |query|
    ensures query[a..] == query[a..b] + query[b..c] + query[c..]
  {
  }

  /** A query in which the names can be placed is woven from them. */
  lemma {:induction false} PlaceableIsWoven(query: string, names: seq<string>, places: seq<nat>, start: nat) returns (texts: seq<string>, last: string)
    requires Placed(query, names, places, start) && start <= |query|
    ensures |texts| == |names| && Woven(texts, names, last) == query[start..]
  {
    if names == [] {
      texts, last := [], query[start..];
    } else {
      var first := query[start..places[0]];
      var next := places[0] + |names[0]|;
      assert At(query, names[0], places[0]);
      var rest, end := PlaceableIsWoven(query, names[1..], places[1..], next);
      texts, last := [first] + rest, end;
      assert texts[1..] == rest;
      assert names[0] == query[places[0]..next];
      ThreePieces(query, start, places[0], next);
    }
  }

  /** `"、".join(f"《{name}》" for name in names)`. */
  function Quoted(names: seq<string>): string {
    if names == [] then ""
    else if |names| == 1 then "\U{300A}" + names[0] + "\U{300B}"
    else "\U{300A}" + names[0] + "\U{300B}\U{3001}" + Quoted(names[1..])
  }

  /** The texts around quoted names. */
  function Around(n: nat, before: string): (texts: seq<string>)
    ensures |texts| == n
  {
    if n == 0 then [] else [before] + Around(n - 1, "\U{300B}\U{3001}\U{300A}")
  }

  lemma Regroup(before: string, open: string, name: string, later: string, suffix: string)
    ensures before + (open + name + later) + suffix == (before + open) + name + (later + suffix)
  {
  }

  lemma {:induction false} QuotedIsWoven(names: seq<string>, before: string, suffix: string)
    requires names != []
    ensures before + Quoted(names) + suffix == Woven(Around(|names|, before + "\U{300A}"), names, "\U{300B}" + suffix)
  {
    var texts := Around(|names|, before + "\U{300A}");
    if |names| == 1 {
      Regroup(before, "\U{300A}", names[0], "\U{300B}", suffix);
      assert Woven(texts[1..], names[1..], "\U{300B}" + suffix) == "\U{300B}" + suffix;
    } else {
      var between := "\U{300B}\U{3001}";
      QuotedIsWoven(names[1..], between, suffix);
      assert between + "\U{300A}" == "\U{300B}\U{3001}\U{300A}";
      assert texts[1..] == Around(|names| - 1, "\U{300B}\U{3001}\U{300A}");
      Assoc("\U{300A}" + names[0], between, Quoted(names[1..]));
      Regroup(before, "\U{300A}", names[0], between + Quoted(names[1..]), suffix);
    }
  }

  /** The queries that list the names in quotation marks never fail. */
  lemma QuotedIsPlaceable(names: seq<string>, before: string, suffix: string)
    ensures Placeable(before + Quoted(names) + suffix, names)
  {
    var query := before + Quoted(names) + suffix;
    if names == [] {
      assert Placed(query, names, [], 0);
    } else {
      QuotedIsWoven(names, before, suffix);
      var places := WovenIsPlaceable(Around(|names|, before + "\U{300A}"), names, "\U{300B}" + suffix);
    }
  }
}
