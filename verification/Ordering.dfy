/** Python's ordering of `str` (lexicographic by code point) and `sorted` on sets of strings. */
module Ordering {

  function Min(a: int, b: int): int { if a < b then a else b }

  ghost predicate NoRepeats<T>(s: seq<T>) { forall i, j :: 0 <= i < j < |s| ==> s[i] != s[j] }

  predicate Le(a: string, b: string) {
    a == [] || (b != [] && (a[0] < b[0] || (a[0] == b[0] && Le(a[1..], b[1..]))))
  }

  lemma {:induction false} LeReflexive(a: string)
    ensures Le(a, a)
  {
    if a != [] { LeReflexive(a[1..]); }
  }

  lemma {:induction false} LeAntisymmetric(a: string, b: string)
    requires Le(a, b) && Le(b, a)
    ensures a == b
  {
    if a != [] && b != [] {
      LeAntisymmetric(a[1..], b[1..]);
      assert a == [a[0]] + a[1..] && b == [b[0]] + b[1..];
    }
  }

  lemma {:induction false} LeTransitive(a: string, b: string, c: string)
    requires Le(a, b) && Le(b, c)
    ensures Le(a, c)
  {
    if a != [] && a[0] == b[0] == c[0] { LeTransitive(a[1..], b[1..], c[1..]); }
  }

  lemma {:induction false} LeTotal(a: string, b: string)
    ensures Le(a, b) || Le(b, a)
  {
    if a != [] && b != [] && a[0] == b[0] { LeTotal(a[1..], b[1..]); }
  }

  predicate Lt(a: string, b: string) {
    Le(a, b) && a != b
  }

  ghost predicate Increasing(s: seq<string>) {
    forall i, j :: 0 <= i < j < |s| ==> Lt(s[i], s[j])
  }

  /** The set of elements of a sequence. */
  function Elements<T>(s: seq<T>): set<T> {
    set x | x in s
  }

  lemma NoElements<T>(s: seq<T>)
    ensures Elements(s) == {} ==> s == []
  {
    if |s| > 0 { assert s[0] in Elements(s); }
  }

  lemma IncreasingTail(s: seq<string>)
    requires Increasing(s) && s != []
    ensures Increasing(s[1..])
    ensures Elements(s[1..]) == Elements(s) - {s[0]}
  {
    assert s == [s[0]] + s[1..];
    forall x | x in Elements(s[1..]) ensures x != s[0] {
      var i :| 0 <= i < |s[1..]| && s[1..][i] == x;
      assert Lt(s[0], s[i + 1]);
    }
  }

  lemma HeadIsLeast(s: seq<string>, x: string)
    requires Increasing(s) && x in s
    ensures Le(s[0], x)
  {
    LeReflexive(s[0]);
    var i :| 0 <= i < |s| && s[i] == x;
    if i > 0 { assert Lt(s[0], s[i]); }
  }

  /** A set has only one increasing enumeration. */
  lemma {:induction false} IncreasingUnique(s: seq<string>, t: seq<string>)
    requires Increasing(s) && Increasing(t) && Elements(s) == Elements(t)
    ensures s == t
  {
    if s == [] {
      NoElements(t);
    } else {
      assert s[0] in Elements(t);
      assert t[0] in Elements(s);
      HeadIsLeast(s, t[0]);
      HeadIsLeast(t, s[0]);
      LeAntisymmetric(s[0], t[0]);
      IncreasingTail(s);
      IncreasingTail(t);
      IncreasingUnique(s[1..], t[1..]);
      assert s == [s[0]] + s[1..] && t == [t[0]] + t[1..];
    }
  }

  predicate LowerBound(x: string, keys: set<string>) {
    forall y :: y in keys ==> Le(x, y)
  }

  lemma {:induction false} LeastExists(keys: set<string>) returns (m: string)
    requires keys != {}
    ensures m in keys && LowerBound(m, keys)
  {
    var a :| a in keys;
    LeReflexive(a);
    m := a;
    var rest := keys - {a};
    assert keys == {a} + rest;
    if rest != {} {
      var b := LeastExists(rest);
      LeTotal(a, b);
      m := if Le(b, a) then b else a;
      forall y | y in keys ensures Le(m, y) {
        if y == a {
        } else {
          assert Le(b, y);
          if m == a { LeTransitive(a, b, y); }
        }
      }
    }
  }

  lemma LeastUnique(keys: set<string>)
    requires keys != {}
    ensures exists x :: x in keys && LowerBound(x, keys)
    ensures forall x, y :: x in keys && LowerBound(x, keys) && y in keys && LowerBound(y, keys) ==> x == y
  {
    var m := LeastExists(keys);
    forall x, y | x in keys && LowerBound(x, keys) && y in keys && LowerBound(y, keys) ensures x == y {
      LeAntisymmetric(x, y);
    }
  }

  function Least(keys: set<string>): (x: string)
    requires keys != {}
    ensures x in keys && LowerBound(x, keys)
  {
    LeastUnique(keys);
    var x :| x in keys && LowerBound(x, keys);
    x
  }

  lemma ConsIncreasing(x: string, rest: seq<string>)
    requires Increasing(rest) && LowerBound(x, Elements(rest)) && x !in rest
    ensures Increasing([x] + rest) && Elements([x] + rest) == {x} + Elements(rest)
  {
    var s := [x] + rest;
    forall i, j | 0 <= i < j < |s| ensures Lt(s[i], s[j]) {
      assert s[j] == rest[j - 1] && rest[j - 1] in Elements(rest);
      if i > 0 { assert s[i] == rest[i - 1]; }
    }
  }

  /** Python's `sorted` on a set of strings. */
  function Sorted(keys: set<string>): (r: seq<string>)
    ensures Increasing(r) && Elements(r) == keys
  {
    if keys == {} then []
    else
      var x := Least(keys);
      var rest := Sorted(keys - {x});
      assert x !in rest by { assert forall y :: y in rest ==> y in Elements(rest); }
      ConsIncreasing(x, rest);
      [x] + rest
  }
}
