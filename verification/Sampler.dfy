/** The stratified sample of characters (scripts/verify_multi_intent_voice.py). */
module Sampler {
  import opened Ordering

  const SAMPLE_LIMIT := 8

  datatype Item = Item(entity: string, skills: seq<string>, texts: seq<string>, playable: seq<string>, languages: seq<string>)

  predicate Eligible(x: Item) { x.skills != [] && x.texts != [] && x.playable != [] }

  predicate Partial(x: Item) { x.playable != [] && Elements(x.texts) - Elements(x.playable) != {} }

  predicate Anomalous(x: Item) {
    x.skills == [] || x.texts == [] || (x.texts != [] && x.playable == []) || Partial(x)
  }

  function AnomalyKind(x: Item): nat { if Partial(x) then 0 else if x.playable == [] then 1 else 2 }

  /** Python's order of the tuples (number, entity id). */
  predicate KeyLe(m: nat, a: string, n: nat, b: string) { m < n || (m == n && Le(a, b)) }

  // ---------------------------------------------------------------- sorting and choosing

  function InsertBy(x: Item, sorted: seq<Item>, measure: Item -> nat): seq<Item> {
    if sorted == [] || KeyLe(measure(x), x.entity, measure(sorted[0]), sorted[0].entity) then [x] + sorted
    else [sorted[0]] + InsertBy(x, sorted[1..], measure)
  }

  /** `sorted(items, key=lambda item: (measure(item), item.entity_id))`, which is stable. */
  function SortBy(items: seq<Item>, measure: Item -> nat): seq<Item> {
    if items == [] then [] else InsertBy(items[0], SortBy(items[1..], measure), measure)
  }

  lemma {:induction false} InsertByMembers(x: Item, sorted: seq<Item>, measure: Item -> nat)
    ensures |InsertBy(x, sorted, measure)| == |sorted| + 1
    ensures forall y :: y in InsertBy(x, sorted, measure) <==> y == x || y in sorted
  {
    if sorted != [] {
      assert sorted == [sorted[0]] + sorted[1..];
      InsertByMembers(x, sorted[1..], measure);
    }
  }

  lemma {:induction false} SortByMembers(items: seq<Item>, measure: Item -> nat)
    ensures |SortBy(items, measure)| == |items|
    ensures forall y :: y in SortBy(items, measure) <==> y in items
  {
    if items != [] {
      assert items == [items[0]] + items[1..];
      SortByMembers(items[1..], measure);
      InsertByMembers(items[0], SortBy(items[1..], measure), measure);
    }
  }

  predicate Before(x: Item, y: Item, measure: Item -> nat) { KeyLe(measure(x), x.entity, measure(y), y.entity) }

  ghost predicate Ordered(items: seq<Item>, measure: Item -> nat) {
    forall i, j :: 0 <= i < j < |items| ==> Before(items[i], items[j], measure)
  }

  lemma BeforeTransitive(x: Item, y: Item, z: Item, measure: Item -> nat)
    requires Before(x, y, measure) && Before(y, z, measure)
    ensures Before(x, z, measure)
  {
    if measure(x) == measure(y) == measure(z) { LeTransitive(x.entity, y.entity, z.entity); }
  }

  lemma {:induction false} InsertByOrdered(x: Item, sorted: seq<Item>, measure: Item -> nat)
    requires Ordered(sorted, measure)
    ensures Ordered(InsertBy(x, sorted, measure), measure)
  {
    if sorted != [] {
      if Before(x, sorted[0], measure) {
        forall j | 0 <= j < |sorted| ensures Before(x, sorted[j], measure) {
          if j > 0 { BeforeTransitive(x, sorted[0], sorted[j], measure); }
        }
      } else {
        var r := InsertBy(x, sorted[1..], measure);
        LeTotal(x.entity, sorted[0].entity);
        InsertByOrdered(x, sorted[1..], measure);
        InsertByMembers(x, sorted[1..], measure);
        forall j | 0 <= j < |r| ensures Before(sorted[0], r[j], measure) {
          assert r[j] in r;
          if r[j] in sorted[1..] {
            var k :| 0 <= k < |sorted[1..]| && sorted[1..][k] == r[j];
            assert sorted[k + 1] == r[j];
          }
        }
      }
    }
  }

  lemma {:induction false} SortByOrdered(items: seq<Item>, measure: Item -> nat)
    ensures Ordered(SortBy(items, measure), measure)
  {
    if items != [] {
      SortByOrdered(items[1..], measure);
      InsertByOrdered(items[0], SortBy(items[1..], measure), measure);
    }
  }

  function Filtered(items: seq<Item>, keep: Item -> bool): seq<Item> {
    if items == [] then [] else (if keep(items[0]) then [items[0]] else []) + Filtered(items[1..], keep)
  }

  lemma {:induction false} FilteredMembers(items: seq<Item>, keep: Item -> bool)
    ensures forall y :: y in Filtered(items, keep) <==> y in items && keep(y)
  {
    if items != [] {
      assert items == [items[0]] + items[1..];
      FilteredMembers(items[1..], keep);
    }
  }

  /** The first item with the least key, as `min` takes it. */
  function Least(items: seq<Item>, measure: Item -> nat): (r: Item)
    requires items != []
    ensures r in items
  {
    if |items| == 1 then items[0]
    else
      var before := Least(items[..|items| - 1], measure);
      var last := items[|items| - 1];
      if KeyLe(measure(before), before.entity, measure(last), last.entity) then before else last
  }

  /** The first item with the greatest key, as `max` takes it. */
  function Greatest(items: seq<Item>, measure: Item -> nat): (r: Item)
    requires items != []
    ensures r in items
  {
    if |items| == 1 then items[0]
    else
      var before := Greatest(items[..|items| - 1], measure);
      var last := items[|items| - 1];
      if KeyLe(measure(last), last.entity, measure(before), before.entity) then before else last
  }

  /** They are the least and the greatest. */
  lemma {:induction false} ExtremesBound(items: seq<Item>, measure: Item -> nat, y: Item)
    requires y in items
    ensures Before(Least(items, measure), y, measure) && Before(y, Greatest(items, measure), measure)
  {
    var n := |items| - 1;
    var last := items[n];
    LeReflexive(y.entity);
    if n > 0 {
      var least, greatest := Least(items[..n], measure), Greatest(items[..n], measure);
      LeTotal(least.entity, last.entity);
      LeTotal(greatest.entity, last.entity);
      if y in items[..n] {
        ExtremesBound(items[..n], measure, y);
        if Before(last, least, measure) { BeforeTransitive(last, least, y, measure); }
        if Before(greatest, last, measure) { BeforeTransitive(y, greatest, last, measure); }
      }
    }
  }

  /** `round(a / b)`: to the nearest integer, from the middle to the even one. */
  function Round(a: nat, b: nat): nat
    requires b > 0
  {
    var q, r := a / b, a % b;
    if 2 * r < b || (2 * r == b && q % 2 == 0) then q else q + 1
  }

  lemma RoundAtMost(a: nat, b: nat, c: nat)
    requires b > 0 && a <= b * c
    ensures Round(a, b) <= c
  {
    var q, r := a / b, a % b;
    assert a == b * q + r;
    Grows(b, q, c);
    if q == c { assert r == 0; }
  }

  lemma {:induction false} Grows(b: nat, q: int, c: int)
    ensures q > c ==> b * q >= b * c + b
    decreases q - c
  {
    if q > c {
      assert b * q == b * (q - 1) + b;
      Grows(b, q - 1, c);
    }
  }

  /** A rounded position lies in the list. */
  lemma PositionInRange(index: nat, count: nat, target: nat)
    requires count > 0 && index < target
    ensures Round(index * (count - 1), if target > 2 then target - 1 else 1) <= count - 1
  {
    var b := if target > 2 then target - 1 else 1;
    assert index * (count - 1) <= b * (count - 1);
    RoundAtMost(index * (count - 1), b, count - 1);
  }

  // ---------------------------------------------------------------- the selection

  /** `_select_unique`. */
  function SelectUnique(selected: seq<Item>, x: Item): seq<Item> { if x in selected then selected else selected + [x] }

  /** The items of a list of preferences in order, each once, until the target is reached. */
  function Take(selected: seq<Item>, preferences: seq<Item>, target: nat): seq<Item>
    decreases |preferences|
  {
    if preferences == [] || |selected| >= target then selected
    else Take(SelectUnique(selected, preferences[0]), preferences[1..], target)
  }

  function Lines(x: Item): nat { |x.playable| }

  function Skills(x: Item): nat { |x.skills| }

  function Languages(x: Item): nat { |x.languages| }

  /** The ends of the order and its middle. */
  function Ends(eligible: seq<Item>, target: nat): seq<Item>
    requires target <= |eligible|
  {
    if target == 0 then []
    else if target == 1 then [eligible[0]]
    else if target == 2 then [eligible[0], eligible[|eligible| - 1]]
    else [eligible[0], eligible[|eligible| / 2], eligible[|eligible| - 1]]
  }

  /** The extremes of a measure. */
  function Extremes(eligible: seq<Item>, measure: Item -> nat): seq<Item> {
    if eligible == [] then [] else [Least(eligible, measure), Greatest(eligible, measure)]
  }

  /** `round(index * (count - 1) / max(target - 1, 1))`. */
  function Position(count: nat, target: nat, index: nat): (r: nat)
    requires count > 0 && index < target
    ensures r < count
  {
    PositionInRange(index, count, target);
    Round(index * (count - 1), if target > 2 then target - 1 else 1)
  }

  /** The items at evenly spread positions. */
  function Spread(eligible: seq<Item>, target: nat): (r: seq<Item>)
    requires target <= |eligible|
    ensures |r| == target && forall i :: 0 <= i < target ==> r[i] == eligible[Position(|eligible|, target, i)]
  {
    seq(target, i requires 0 <= i < target => eligible[Position(|eligible|, target, i)])
  }

  /** What the sample prefers: ends, extremes of skills and languages, spread positions, and then everything. */
  function Preferences(eligible: seq<Item>, target: nat): seq<Item>
    requires target <= |eligible|
  {
    Ends(eligible, target) + Extremes(eligible, Skills) + Extremes(eligible, Languages) + Spread(eligible, target) + eligible
  }

  lemma {:induction false} TakeConcat(selected: seq<Item>, a: seq<Item>, b: seq<Item>, target: nat)
    ensures Take(selected, a + b, target) == Take(Take(selected, a, target), b, target)
    decreases |a|
  {
    if a == [] {
      assert a + b == b;
    } else if |selected| < target {
      assert (a + b)[1..] == a[1..] + b;
      TakeConcat(SelectUnique(selected, a[0]), a[1..], b, target);
    }
  }

  lemma TakeOne(selected: seq<Item>, x: Item, target: nat)
    requires |selected| < target
    ensures Take(selected, [x], target) == SelectUnique(selected, x)
  {
    assert [x][1..] == [];
  }

  lemma TakeNext(start: seq<Item>, items: seq<Item>, i: nat, target: nat)
    requires i < |items| && |Take(start, items[..i], target)| < target
    ensures Take(start, items[..i + 1], target) == SelectUnique(Take(start, items[..i], target), items[i])
  {
    assert items[..i + 1] == items[..i] + [items[i]];
    TakeConcat(start, items[..i], [items[i]], target);
    TakeOne(Take(start, items[..i], target), items[i], target);
  }

  lemma TakeFull(start: seq<Item>, items: seq<Item>, i: nat, target: nat)
    requires i <= |items| && (i == |items| || |Take(start, items[..i], target)| >= target)
    ensures Take(start, items, target) == Take(start, items[..i], target)
  {
    assert items == items[..i] + items[i..];
    TakeConcat(start, items[..i], items[i..], target);
  }

  /** The first choices. */
  method SelectEnds(eligible: seq<Item>, target: nat) returns (selected: seq<Item>)
    requires target <= |eligible|
    ensures selected == Take([], Ends(eligible, target), target)
  {
    selected := [];
    if target == 1 {
      selected := SelectUnique(selected, eligible[0]);
      TakeOne([], eligible[0], target);
    } else if target == 2 {
      selected := SelectUnique(selected, eligible[0]);
      TakeTwo([], eligible[0], eligible[|eligible| - 1], target);
      selected := SelectUnique(selected, eligible[|eligible| - 1]);
    } else if target >= 3 {
      selected := SelectUnique(selected, eligible[0]);
      TakeTwo([], eligible[0], eligible[|eligible| / 2], target);
      selected := SelectUnique(selected, eligible[|eligible| / 2]);
      TakeConcat([], [eligible[0], eligible[|eligible| / 2]], [eligible[|eligible| - 1]], target);
      TakeOne(selected, eligible[|eligible| - 1], target);
      selected := SelectUnique(selected, eligible[|eligible| - 1]);
    }
  }

  lemma TakeTwo(selected: seq<Item>, x: Item, y: Item, target: nat)
    requires |selected| + 1 < target
    ensures Take(selected, [x, y], target) == SelectUnique(SelectUnique(selected, x), y)
  {
    assert [x, y][1..] == [y];
    TakeOne(SelectUnique(selected, x), y, target);
  }

  /** The extremes of a measure, while there is room. */
  method SelectExtremes(eligible: seq<Item>, target: nat, start: seq<Item>, measure: Item -> nat) returns (selected: seq<Item>)
    ensures selected == Take(start, Extremes(eligible, measure), target)
  {
    selected := start;
    if |selected| >= target || eligible == [] { return; }
    var least, greatest := Least(eligible, measure), Greatest(eligible, measure);
    assert [least, greatest] == [least] + [greatest];
    TakeConcat(selected, [least], [greatest], target);
    TakeOne(selected, least, target);
    selected := SelectUnique(selected, least);
    if |selected| >= target { return; }
    TakeOne(selected, greatest, target);
    selected := SelectUnique(selected, greatest);
  }

  /** The items of a list, while there is room. */
  method SelectAll(items: seq<Item>, target: nat, start: seq<Item>) returns (selected: seq<Item>)
    ensures selected == Take(start, items, target)
  {
    selected := start;
    var i := 0;
    assert items[..0] == [];
    while i < |items| && |selected| < target
      invariant 0 <= i <= |items| && selected == Take(start, items[..i], target)
    {
      TakeNext(start, items, i, target);
      selected := SelectUnique(selected, items[i]);
      i := i + 1;
    }
    TakeFull(start, items, i, target);
  }

  /** The evenly spread positions, while there is room. */
  method SelectSpread(eligible: seq<Item>, target: nat, start: seq<Item>) returns (selected: seq<Item>)
    requires target <= |eligible|
    ensures selected == Take(start, Spread(eligible, target), target)
  {
    selected := start;
    ghost var items := Spread(eligible, target);
    var index := 0;
    assert items[..0] == [];
    while index < target && |selected| < target
      invariant 0 <= index <= target && selected == Take(start, items[..index], target)
    {
      var position := Position(|eligible|, target, index);
      assert items[index] == eligible[position];
      TakeNext(start, items, index, target);
      selected := SelectUnique(selected, eligible[position]);
      index := index + 1;
    }
    TakeFull(start, items, index, target);
  }

  method SelectFrom(eligible: seq<Item>, target: nat) returns (selected: seq<Item>)
    requires target <= |eligible|
    ensures selected == Take([], Preferences(eligible, target), target)
  {
    selected := SelectEnds(eligible, target);
    TakeConcat([], Ends(eligible, target), Extremes(eligible, Skills), target);
    selected := SelectExtremes(eligible, target, selected, Skills);
    TakeConcat([], Ends(eligible, target) + Extremes(eligible, Skills), Extremes(eligible, Languages), target);
    selected := SelectExtremes(eligible, target, selected, Languages);
    TakeConcat([], Ends(eligible, target) + Extremes(eligible, Skills) + Extremes(eligible, Languages), Spread(eligible, target), target);
    selected := SelectSpread(eligible, target, selected);
    TakeConcat([], Ends(eligible, target) + Extremes(eligible, Skills) + Extremes(eligible, Languages) + Spread(eligible, target), eligible, target);
    selected := SelectAll(eligible, target, selected);
  }

  /** The eligible items by number of playable lines. */
  function EligibleItems(inventory: seq<Item>): seq<Item> { SortBy(Filtered(inventory, Eligible), Lines) }

  function Target(inventory: seq<Item>, limit: int): (n: nat)
    ensures n <= |EligibleItems(inventory)|
  {
    Min(if limit < 0 then 0 else limit, |EligibleItems(inventory)|)
  }

  /** The eligible part of the sample. */
  function Chosen(inventory: seq<Item>, limit: int): seq<Item> {
    Take([], Preferences(EligibleItems(inventory), Target(inventory, limit)), Target(inventory, limit))
  }

  /** The anomalies that are not yet selected, in their order. */
  function Remaining(inventory: seq<Item>, selected: seq<Item>): seq<Item> {
    SortBy(Filtered(inventory, (x: Item) => Anomalous(x) && x !in selected), AnomalyKind)
  }

  /** The whole sample: the first preferences, and then the first anomaly that is not among them. */
  function Sampled(inventory: seq<Item>, limit: int): seq<Item> {
    var chosen := Chosen(inventory, limit);
    var anomalies := Remaining(inventory, chosen);
    if anomalies == [] then chosen else chosen + [anomalies[0]]
  }

  /** `select_stratified_characters`. */
  method SelectStratified(inventory: seq<Item>, limit: int) returns (selected: seq<Item>)
    ensures selected == Sampled(inventory, limit)
  {
    var eligible := EligibleItems(inventory);
    var bound := if limit < 0 then 0 else limit;
    var target := if bound < |eligible| then bound else |eligible|;
    selected := SelectFrom(eligible, target);
    var anomalies := Remaining(inventory, selected);
    if anomalies != [] { selected := selected + [anomalies[0]]; }
  }

  // ---------------------------------------------------------------- what the sample is

  /** What is selected so far: eligible items, without repetition, not more than the target. */
  ghost predicate Sound(selected: seq<Item>, eligible: seq<Item>, target: nat) {
    NoRepeats(selected) && |selected| <= target && forall x :: x in selected ==> x in eligible
  }

  lemma {:induction false} TakeSound(selected: seq<Item>, preferences: seq<Item>, eligible: seq<Item>, target: nat)
    requires Sound(selected, eligible, target) && forall x :: x in preferences ==> x in eligible
    ensures Sound(Take(selected, preferences, target), eligible, target)
    ensures |Take(selected, preferences, target)| == target
            || forall x :: x in selected || x in preferences ==> x in Take(selected, preferences, target)
    decreases |preferences|
  {
    if preferences != [] && |selected| < target {
      assert preferences == [preferences[0]] + preferences[1..];
      TakeSound(SelectUnique(selected, preferences[0]), preferences[1..], eligible, target);
    }
  }

  /** A preference is met when it comes before the target is reached. */
  lemma {:induction false} EarlyPreference(selected: seq<Item>, preferences: seq<Item>, target: nat, i: nat)
    requires i < |preferences| && |selected| + i < target
    ensures preferences[i] in Take(selected, preferences, target)
    decreases |preferences|
  {
    var next := SelectUnique(selected, preferences[0]);
    if i == 0 {
      TakeKeeps(next, preferences[1..], target, preferences[0]);
    } else {
      EarlyPreference(next, preferences[1..], target, i - 1);
    }
  }

  lemma {:induction false} TakeKeeps(selected: seq<Item>, preferences: seq<Item>, target: nat, x: Item)
    requires x in selected
    ensures x in Take(selected, preferences, target)
    decreases |preferences|
  {
    if preferences != [] && |selected| < target { TakeKeeps(SelectUnique(selected, preferences[0]), preferences[1..], target, x); }
  }

  ghost function EligibleSet(inventory: seq<Item>): set<Item> { set x | x in inventory && Eligible(x) }

  lemma {:induction false} SizeOfElements(items: seq<Item>)
    ensures |Elements(items)| <= |items|
    ensures |Elements(items)| == |items| <==> NoRepeats(items)
  {
    if items != [] {
      var rest, last := items[..|items| - 1], items[|items| - 1];
      SizeOfElements(rest);
      assert items == rest + [last];
      assert Elements(items) == Elements(rest) + {last};
      if last in rest {
        var i :| 0 <= i < |rest| && rest[i] == last;
        assert items[i] == items[|items| - 1];
        assert Elements(items) == Elements(rest);
      } else {
        assert NoRepeats(items) <==> NoRepeats(rest) by {
          if NoRepeats(items) { forall i, j | 0 <= i < j < |rest| ensures rest[i] != rest[j] { assert items[i] != items[j]; } }
        }
      }
    }
  }

  lemma SubsetSize(a: set<Item>, b: set<Item>)
    requires a <= b
    ensures |a| <= |b| && (|a| == |b| ==> a == b)
  {
    assert |b - a| == |b| - |a|;
  }

  lemma EligibleItemsFacts(inventory: seq<Item>)
    ensures Ordered(EligibleItems(inventory), Lines) && Elements(EligibleItems(inventory)) == EligibleSet(inventory)
    ensures |EligibleItems(inventory)| == Count(inventory)
  {
    SortByMembers(Filtered(inventory, Eligible), Lines);
    SortByOrdered(Filtered(inventory, Eligible), Lines);
    FilteredMembers(inventory, Eligible);
  }

  lemma PreferencesEligible(eligible: seq<Item>, target: nat)
    requires target <= |eligible|
    ensures forall x :: x in Preferences(eligible, target) <==> x in eligible
  {
    forall x | x in Spread(eligible, target) ensures x in eligible {
      var i :| 0 <= i < target && Spread(eligible, target)[i] == x;
    }
  }

  /** As many eligible items as there are, up to the limit, each once. */
  lemma ChosenSize(inventory: seq<Item>, limit: int)
    ensures NoRepeats(Chosen(inventory, limit)) && Elements(Chosen(inventory, limit)) <= EligibleSet(inventory)
    ensures |Chosen(inventory, limit)| == Min(if limit < 0 then 0 else limit, |EligibleSet(inventory)|)
  {
    var eligible, target := EligibleItems(inventory), Target(inventory, limit);
    EligibleItemsFacts(inventory);
    PreferencesEligible(eligible, target);
    TakeSound([], Preferences(eligible, target), eligible, target);
    SoundSize(Chosen(inventory, limit), eligible, target, if limit < 0 then 0 else limit);
  }

  lemma SoundSize(selected: seq<Item>, eligible: seq<Item>, target: nat, bound: nat)
    requires Sound(selected, eligible, target) && target == Min(bound, |eligible|)
    requires |selected| == target || forall x :: x in eligible ==> x in selected
    ensures Elements(selected) <= Elements(eligible) && |selected| == Min(bound, |Elements(eligible)|)
  {
    SizeOfElements(selected);
    SizeOfElements(eligible);
    assert Elements(selected) <= Elements(eligible);
    SubsetSize(Elements(selected), Elements(eligible));
    if |selected| != target { assert Elements(selected) == Elements(eligible); }
  }

  /** The ends and the middle by lines, then the extremes of skills, then those of languages. */
  function Strata(eligible: seq<Item>): seq<Item>
    requires eligible != []
  {
    var n := |eligible|;
    [eligible[0], eligible[n / 2], eligible[n - 1],
     Least(eligible, Skills), Greatest(eligible, Skills), Least(eligible, Languages), Greatest(eligible, Languages)]
  }

  /** For any target the first ones of these, as many as the target, are in the sample; for two these are the ends. */
  lemma StrataChosen(inventory: seq<Item>, limit: int, i: nat)
    requires i < 7 && i < Target(inventory, limit)
    ensures var eligible := EligibleItems(inventory);
      (if Target(inventory, limit) == 2 && i == 1 then eligible[|eligible| - 1] else Strata(eligible)[i]) in Chosen(inventory, limit)
  {
    EarlyPreference([], Preferences(EligibleItems(inventory), Target(inventory, limit)), Target(inventory, limit), i);
  }

  predicate Nearest(twice: int, position: nat, width: int) {
    -width <= twice <= width && (twice == width || twice == -width ==> position % 2 == 0)
  }

  /** The i-th spread position is the whole number nearest to i * (count - 1) / (target - 1), the even one of two. */
  lemma PositionNearest(count: nat, target: nat, index: nat)
    requires count > 0 && index < target && target > 1
    ensures var position := Position(count, target, index);
      Nearest(2 * (position * (target - 1) - index * (count - 1)), position, target - 1)
  {
    RoundNearest(index * (count - 1), target - 1);
  }

  /** The spread starts with the first item and ends with the last one. */
  lemma SpreadEnds(count: nat, target: nat)
    requires count > 0 && target > 1
    ensures Position(count, target, 0) == 0 && Position(count, target, target - 1) == count - 1
  {
    OnlyQuotient(target - 1, count - 1);
  }

  lemma RoundNearest(a: nat, b: int)
    requires b > 0
    ensures Nearest(2 * (Round(a, b) * b - a), Round(a, b), b)
  {
    var q, r := a / b, a % b;
    assert a == q * b + r && (q + 1) * b == q * b + b;
  }

  lemma OnlyQuotient(b: nat, c: nat)
    requires b > 0
    ensures b * c / b == c && b * c % b == 0
  {
    var q, r := b * c / b, b * c % b;
    Grows(b, q, c);
    Grows(b, c, q);
  }

  /** An entry is anomalous exactly when it is not eligible or some of its texts have no playable line; the last come first. */
  lemma AnomalousIff(x: Item)
    ensures Anomalous(x) <==> x.skills == [] || x.texts == [] || x.playable == [] || exists t :: t in x.texts && t !in x.playable
    ensures Anomalous(x) <==> !Eligible(x) || Partial(x)
    ensures AnomalyKind(x) == if x.playable == [] then 1 else if exists t :: t in x.texts && t !in x.playable then 0 else 2
  {
    if t :| t in x.texts && t !in x.playable { assert t in Elements(x.texts) - Elements(x.playable); }
    if Partial(x) {
      var t :| t in Elements(x.texts) - Elements(x.playable);
      assert t in x.texts && t !in x.playable;
    }
  }

  ghost predicate FirstAnomaly(inventory: seq<Item>, chosen: seq<Item>, a: Item) {
    && a in inventory && Anomalous(a)
    && forall x :: x in inventory && Anomalous(x) && x !in chosen ==> Before(a, x, AnomalyKind)
  }

  /** A sample as it is meant: first the eligible items, then the first anomaly that is not among them, if any. */
  ghost predicate Sample(inventory: seq<Item>, limit: int, selected: seq<Item>, n: nat) {
    && n <= |selected| <= n + 1 && n == Min(if limit < 0 then 0 else limit, |EligibleSet(inventory)|)
    && NoRepeats(selected)
    && (forall i :: 0 <= i < n ==> selected[i] in inventory && Eligible(selected[i]))
    && (|selected| > n ==> FirstAnomaly(inventory, selected[..n], selected[n]))
    && (|selected| == n ==> forall x :: x in inventory && Anomalous(x) ==> x in selected)
  }

  lemma RemainingFacts(inventory: seq<Item>, selected: seq<Item>)
    ensures Ordered(Remaining(inventory, selected), AnomalyKind)
    ensures forall x :: x in Remaining(inventory, selected) <==> x in inventory && Anomalous(x) && x !in selected
  {
    var isAnomaly := (x: Item) => Anomalous(x) && x !in selected;
    FilteredMembers(inventory, isAnomaly);
    SortByMembers(Filtered(inventory, isAnomaly), AnomalyKind);
    SortByOrdered(Filtered(inventory, isAnomaly), AnomalyKind);
  }

  /** The sample is one. */
  lemma SampledIsSample(inventory: seq<Item>, limit: int)
    ensures Sample(inventory, limit, Sampled(inventory, limit), |Chosen(inventory, limit)|)
  {
    var chosen := Chosen(inventory, limit);
    var anomalies, selected := Remaining(inventory, chosen), Sampled(inventory, limit);
    ChosenSize(inventory, limit);
    RemainingFacts(inventory, chosen);
    forall i | 0 <= i < |chosen| ensures selected[i] == chosen[i] && chosen[i] in inventory && Eligible(chosen[i]) {
      assert chosen[i] in Elements(chosen);
    }
    if anomalies != [] {
      assert anomalies[0] in anomalies && selected[..|chosen|] == chosen;
      FirstIsFirst(anomalies, AnomalyKind);
    } else {
      assert forall x :: x in inventory && Anomalous(x) && x !in chosen ==> x in anomalies;
    }
  }

  lemma FirstIsFirst(items: seq<Item>, measure: Item -> nat)
    requires items != [] && Ordered(items, measure)
    ensures forall x :: x in items ==> Before(items[0], x, measure)
  {
    LeReflexive(items[0].entity);
  }

  // ---------------------------------------------------------------- the labels of a report

  /** The number of eligible entries of the inventory, repeated ones included. */
  function Count(inventory: seq<Item>): nat { |Filtered(inventory, Eligible)| }

  /** `run_evaluation` labels the first of the sample "eligible", by the number of eligible entries. */
  function Labelled(inventory: seq<Item>, i: nat): bool { i < Min(SAMPLE_LIMIT, Count(inventory)) }

  /** The labels tell the eligible ones from the anomaly. */
  ghost predicate LabelsRight(inventory: seq<Item>) {
    forall i :: 0 <= i < |Sampled(inventory, SAMPLE_LIMIT)| ==> (Labelled(inventory, i) <==> i < |Chosen(inventory, SAMPLE_LIMIT)|)
  }

  /** While the eligible ones do not fill the sample, no anomaly is added exactly when each anomaly is eligible as well. */
  lemma NoAnomalyLeftIff(inventory: seq<Item>)
    requires |EligibleSet(inventory)| < SAMPLE_LIMIT
    ensures |Sampled(inventory, SAMPLE_LIMIT)| == |Chosen(inventory, SAMPLE_LIMIT)| <==> forall x :: x in inventory && Anomalous(x) ==> Eligible(x)
  {
    var chosen := Chosen(inventory, SAMPLE_LIMIT);
    ChosenSize(inventory, SAMPLE_LIMIT);
    RemainingFacts(inventory, chosen);
    SizeOfElements(chosen);
    SubsetSize(Elements(chosen), EligibleSet(inventory));
    assert forall x :: x in chosen <==> x in EligibleSet(inventory) by { assert forall x :: x in chosen <==> x in Elements(chosen); }
    var anomalies := Remaining(inventory, chosen);
    if anomalies != [] { assert anomalies[0] in anomalies; }
  }

  /**
   The labels are right exactly when the eligible ones fill the sample, or no eligible entry is repeated, or
   every anomaly is eligible as well.
   */
  lemma LabelsRightIff(inventory: seq<Item>)
    ensures LabelsRight(inventory) <==>
      || |EligibleSet(inventory)| >= SAMPLE_LIMIT
      || Count(inventory) == |EligibleSet(inventory)|
      || forall x :: x in inventory && Anomalous(x) ==> Eligible(x)
  {
    var n, all := |Chosen(inventory, SAMPLE_LIMIT)|, |Sampled(inventory, SAMPLE_LIMIT)|;
    ChosenSize(inventory, SAMPLE_LIMIT);
    FilteredMembers(inventory, Eligible);
    SizeOfElements(Filtered(inventory, Eligible));
    assert Elements(Filtered(inventory, Eligible)) == EligibleSet(inventory);
    if |EligibleSet(inventory)| < SAMPLE_LIMIT { NoAnomalyLeftIff(inventory); }
    if all > n { assert Labelled(inventory, n) <==> n < Min(SAMPLE_LIMIT, Count(inventory)); }
  }

  /** What `build_character_inventory` returns: one entry for each entity. */
  ghost predicate DistinctEntities(inventory: seq<Item>) {
    forall i, j :: 0 <= i < j < |inventory| ==> inventory[i].entity != inventory[j].entity
  }

  /** For such an inventory no eligible entry is repeated, and the labels are always right. */
  lemma BuiltInventoryLabelsRight(inventory: seq<Item>)
    requires DistinctEntities(inventory)
    ensures Count(inventory) == |EligibleSet(inventory)| && LabelsRight(inventory)
  {
    FilteredDistinct(inventory, Eligible);
    FilteredMembers(inventory, Eligible);
    SizeOfElements(Filtered(inventory, Eligible));
    assert Elements(Filtered(inventory, Eligible)) == EligibleSet(inventory);
    LabelsRightIff(inventory);
  }

  lemma {:induction false} FilteredDistinct(items: seq<Item>, keep: Item -> bool)
    requires DistinctEntities(items)
    ensures NoRepeats(Filtered(items, keep))
  {
    if items != [] {
      var rest := Filtered(items[1..], keep);
      assert forall i :: 0 <= i < |items[1..]| ==> items[1..][i] == items[i + 1];
      FilteredDistinct(items[1..], keep);
      FilteredMembers(items[1..], keep);
      assert items[0] !in items[1..];
      if !keep(items[0]) { assert Filtered(items, keep) == rest; }
    }
  }

  lemma FilteredCons(x: Item, rest: seq<Item>, keep: Item -> bool)
    ensures Filtered([x] + rest, keep) == (if keep(x) then [x] else []) + Filtered(rest, keep)
  {
    assert ([x] + rest)[1..] == rest;
  }

  lemma CountOfThree(good: Item, bad: Item)
    requires Eligible(good) && !Eligible(bad)
    ensures Count([good, good, bad]) == 2 && EligibleSet([good, good, bad]) == {good}
  {
    FilteredCons(bad, [], Eligible);
    FilteredCons(good, [bad], Eligible);
    FilteredCons(good, [good, bad], Eligible);
    assert [good, good, bad] == [good] + [good, bad] && [good, bad] == [good] + [bad] && [bad] == [bad] + [];
  }

  /** A caller that passes an eligible entry twice gets an anomaly that is labelled eligible. */
  lemma RepeatedEntryMislabels() returns (inventory: seq<Item>)
    ensures !LabelsRight(inventory)
  {
    var good := Item("a", ["s"], ["t"], ["t"], []);
    var bad := Item("b", [], [], [], []);
    inventory := [good, good, bad];
    CountOfThree(good, bad);
    assert bad in inventory && Anomalous(bad);
    LabelsRightIff(inventory);
  }
}
