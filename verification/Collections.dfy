/** Sums over finite maps and sizes of sets, shared by the counting arguments. */
module Collections {

  ghost function Sum<K(!new)>(m: map<K, nat>): nat
    decreases |m|
  {
    if m == map[] then 0 else var k :| k in m; m[k] + Sum(m - {k})
  }

  lemma {:induction false} SumWithout<K(!new)>(m: map<K, nat>, k: K)
    requires k in m
    ensures Sum(m) == m[k] + Sum(m - {k})
    decreases |m|
  {
    var pick :| pick in m && Sum(m) == m[pick] + Sum(m - {pick});
    if pick != k {
      SumWithout(m - {pick}, k);
      SumWithout(m - {k}, pick);
      assert m - {pick} - {k} == m - {k} - {pick};
    }
  }

  lemma SumUpdate<K(!new)>(m: map<K, nat>, k: K, v: nat)
    ensures Sum(m[k := v]) == Sum(m) - (if k in m then m[k] else 0) + v
  {
    SumWithout(m[k := v], k);
    if k in m {
      SumWithout(m, k);
      assert m[k := v] - {k} == m - {k};
    } else {
      assert m[k := v] - {k} == m;
    }
  }

  lemma OneMore(part: int, rest: int, bound: int, n: int, next: int)
    requires part <= bound && rest <= bound * n && next == n + 1
    ensures part + rest <= bound * next
  {
    assert bound * next == bound * n + bound;
  }

  lemma {:induction false} SumAtMost<K(!new)>(m: map<K, nat>, bound: nat)
    requires forall k | k in m :: m[k] <= bound
    ensures Sum(m) <= bound * |m|
    decreases |m|
  {
    if m != map[] {
      var k :| k in m;
      SumWithout(m, k);
      SumAtMost(m - {k}, bound);
      assert (m - {k}).Keys == m.Keys - {k};
      OneMore(m[k], Sum(m - {k}), bound, |m - {k}|, |m|);
    }
  }

  lemma CardinalityOfSubset<T>(small: set<T>, large: set<T>)
    requires small <= large
    ensures |small| <= |large|
  {
    assert large == small + (large - small);
  }

  /** What a loop over a sequence has before it at position `i`. */
  lemma RestOf<T>(items: seq<T>, i: nat)
    requires i < |items|
    ensures items[i..] != [] && items[i..][0] == items[i] && items[i..][1..] == items[i + 1..]
  {
  }

  /** A loop that moves a part of what is left behind what it has kept. */
  lemma MovePart<T>(kept: seq<T>, part: seq<T>, rest: seq<T>)
    ensures kept + (part + rest) == (kept + part) + rest && kept + [] == kept
  {
  }
}
