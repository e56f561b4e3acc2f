/** Ordered sets: enumerating a finite set in ascending order. */
module Ordered {

  /** Lexicographic order by code point. */
  predicate Before(a: string, b: string) {
    if b == "" then false
    else if a == "" then true
    else a[0] < b[0] || (a[0] == b[0] && Before(a[1..], b[1..]))
  }

  ghost predicate TotalOrder<T(!new)>(before: (T, T) -> bool) {
    && (forall x :: !before(x, x))
    && (forall x, y :: x != y ==> before(x, y) || before(y, x))
    && (forall x, y, z :: before(x, y) && before(y, z) ==> before(x, z))
  }

  lemma {:induction false} BeforeIrreflexive(a: string)
    ensures !Before(a, a)
  {
    if a != "" {
      BeforeIrreflexive(a[1..]);
    }
  }

  lemma {:induction false} BeforeConnects(a: string, b: string)
    requires a != b
    ensures Before(a, b) || Before(b, a)
  {
    if a != "" && b != "" && a[0] == b[0] {
      assert a == [a[0]] + a[1..] && b == [b[0]] + b[1..];
      BeforeConnects(a[1..], b[1..]);
    }
  }

  lemma {:induction false} BeforeTransitive(a: string, b: string, c: string)
    requires Before(a, b) && Before(b, c)
    ensures Before(a, c)
  {
    if a != "" && a[0] == b[0] == c[0] {
      BeforeTransitive(a[1..], b[1..], c[1..]);
    }
  }

  lemma BeforeIsTotal()
    ensures TotalOrder(Before)
  {
    forall a, b | a != b ensures Before(a, b) || Before(b, a) { BeforeConnects(a, b); }
    forall a ensures !Before(a, a) { BeforeIrreflexive(a); }
    forall a, b, c | Before(a, b) && Before(b, c) ensures Before(a, c) { BeforeTransitive(a, b, c); }
  }

  predicate IsLeast<T(==)>(x: T, s: set<T>, before: (T, T) -> bool) {
    x in s && forall y | y in s && y != x :: before(x, y)
  }

  lemma {:induction false} LeastExists<T(!new)>(s: set<T>, before: (T, T) -> bool)
    requires s != {} && TotalOrder(before)
    ensures exists x :: IsLeast(x, s, before)
    decreases |s|
  {
    var x :| x in s;
    if s == {x} {
      assert IsLeast(x, s, before);
    } else {
      LeastExists(s - {x}, before);
      var y :| IsLeast(y, s - {x}, before);
      if before(x, y) {
        forall z | z in s && z != x ensures before(x, z) {
          assert z in s - {x};
        }
        assert IsLeast(x, s, before);
      } else {
        assert IsLeast(y, s, before);
      }
    }
  }

  /** Each element is before every later one. */
  predicate Ascends<T>(r: seq<T>, before: (T, T) -> bool) {
    forall i, j | 0 <= i < j < |r| :: before(r[i], r[j])
  }

  /** The elements of the set, each once, in ascending order. */
  function Ascending<T(==, !new)>(s: set<T>, before: (T, T) -> bool): (r: seq<T>)
    requires TotalOrder(before)
    ensures Ascends(r, before) && |r| == |s|
    ensures forall x :: x in r <==> x in s
    decreases |s|
  {
    if s == {} then []
    else
      LeastExists(s, before);
      var x :| IsLeast(x, s, before);
      [x] + Ascending(s - {x}, before)
  }

  predicate AllDifferent<T(==)>(r: seq<T>) {
    forall i, j | 0 <= i < j < |r| :: r[i] != r[j]
  }

  lemma AscendingIsDistinct<T(!new)>(s: set<T>, before: (T, T) -> bool)
    requires TotalOrder(before)
    ensures AllDifferent(Ascending(s, before))
  {
  }

  function Elements<T(==)>(r: seq<T>): set<T> {
    set x | x in r
  }

  lemma AscendingStep<T(!new)>(s: set<T>, before: (T, T) -> bool, x: T)
    requires TotalOrder(before) && IsLeast(x, s, before)
    ensures Ascending(s, before) == [x] + Ascending(s - {x}, before)
  {
    var y := Ascending(s, before)[0];
    assert y == x || before(y, x);
  }

  lemma FirstIsLeast<T(!new)>(r: seq<T>, before: (T, T) -> bool)
    requires TotalOrder(before) && Ascends(r, before) && r != []
    ensures IsLeast(r[0], Elements(r), before) && r[0] !in r[1..]
  {
    assert forall i | 0 < i < |r| :: before(r[0], r[i]);
  }

  lemma ElementsBehind<T(!new)>(r: seq<T>)
    requires r != [] && r[0] !in r[1..]
    ensures Elements(r) - {r[0]} == Elements(r[1..]) && r == [r[0]] + r[1..]
  {
  }

  /** An ascending sequence is the enumeration of its elements. */
  lemma {:induction false} AscendingOf<T(!new)>(r: seq<T>, before: (T, T) -> bool)
    requires TotalOrder(before) && Ascends(r, before)
    ensures Ascending(Elements(r), before) == r
  {
    if r != [] {
      FirstIsLeast(r, before);
      AscendingStep(Elements(r), before, r[0]);
      ElementsBehind(r);
      AscendingOf(r[1..], before);
    }
  }
}
