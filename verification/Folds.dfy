/** Folding a collection one element at a time, in an order that does not matter. */
module Folds {

  function Fold<T, R>(items: seq<T>, add: (T, R) -> R, init: R): R {
    if items == [] then init else add(items[0], Fold(items[1..], add, init))
  }

  ghost predicate Commute<T, R(!new)>(add: (T, R) -> R, x: T, y: T) {
    forall r: R :: add(x, add(y, r)) == add(y, add(x, r))
  }

  ghost predicate AllCommute<T(!new), R(!new)>(add: (T, R) -> R, items: seq<T>) {
    forall x, y {:trigger Commute(add, x, y)} :: x in items && y in items ==> Commute(add, x, y)
  }

  function Without<T>(items: seq<T>, k: nat): (r: seq<T>)
    requires k < |items|
    ensures |r| == |items| - 1
    ensures forall i :: 0 <= i < |r| ==> r[i] == items[if i < k then i else i + 1]
  {
    items[..k] + items[k + 1..]
  }

  lemma WithoutCommute<T(!new), R(!new)>(add: (T, R) -> R, items: seq<T>, k: nat)
    requires k < |items| && AllCommute(add, items)
    ensures AllCommute(add, Without(items, k))
  {
  }

  lemma Swap<T(!new), R(!new)>(items: seq<T>, i: nat, j: nat, add: (T, R) -> R, r: R)
    requires i < |items| && j < |items| && AllCommute(add, items)
    ensures add(items[i], add(items[j], r)) == add(items[j], add(items[i], r))
  {
    assert Commute(add, items[i], items[j]);
  }

  lemma FirstOfOthers<T, R>(items: seq<T>, k: nat, add: (T, R) -> R, init: R)
    requires 0 < k < |items|
    ensures Fold(Without(items, k), add, init) == add(items[0], Fold(Without(items[1..], k - 1), add, init))
  {
    assert Without(items, k)[1..] == Without(items[1..], k - 1);
  }

  lemma {:induction false} AnyFirst<T(!new), R(!new)>(items: seq<T>, k: nat, add: (T, R) -> R, init: R)
    requires k < |items| && AllCommute(add, items)
    ensures Fold(items, add, init) == add(items[k], Fold(Without(items, k), add, init))
    decreases k
  {
    assert Without(items, 0) == items[1..];
    if k > 0 {
      WithoutCommute(add, items, 0);
      AnyFirst(items[1..], k - 1, add, init);
      FirstOfOthers(items, k, add, init);
      Swap(items, 0, k, add, Fold(Without(items[1..], k - 1), add, init));
    }
  }

  lemma RemoveOne<T>(items: seq<T>, k: nat)
    requires k < |items|
    ensures multiset(Without(items, k)) == multiset(items) - multiset{items[k]}
  {
    assert items == items[..k] + [items[k]] + items[k + 1..];
  }

  lemma {:induction false} OrderIrrelevant<T(!new), R(!new)>(a: seq<T>, b: seq<T>, add: (T, R) -> R, init: R)
    requires multiset(a) == multiset(b) && AllCommute(add, b)
    ensures Fold(a, add, init) == Fold(b, add, init)
    decreases |a|
  {
    if a == [] {
      assert |multiset(a)| == |a| && |multiset(b)| == |b|;
    } else {
      assert a[0] in multiset(b);
      var k :| 0 <= k < |b| && b[k] == a[0];
      RemoveOne(b, k);
      RemoveOne(a, 0);
      assert Without(a, 0) == a[1..];
      WithoutCommute(add, b, k);
      OrderIrrelevant(a[1..], Without(b, k), add, init);
      AnyFirst(b, k, add, init);
    }
  }
}
