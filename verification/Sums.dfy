/** Sums over the values of a map, whatever order the entries are visited in.

    A Go `range` over a map visits the keys in an arbitrary order, so every sum
    the schedulers accumulate is specified here by a sum that has no order. */
module Sums {

  ghost function Sum(m: map<string, int>): int
    decreases |m|
  {
    if m == map[] then 0
    else var k :| k in m; Drop(m, k); m[k] + Sum(m - {k})
  }

  ghost function SumReal(m: map<string, real>): real
    decreases |m|
  {
    if m == map[] then 0.0
    else var k :| k in m; Drop(m, k); m[k] + SumReal(m - {k})
  }

  lemma Drop<V>(m: map<string, V>, k: string)
    requires k in m
    ensures |m - {k}| == |m| - 1
  {
    assert (m - {k}).Keys == m.Keys - {k};
  }

  lemma Grow<V>(m: map<string, V>, k: string, v: V)
    requires k !in m
    ensures |m[k := v]| == |m| + 1
    ensures m[k := v] - {k} == m
  {
    assert m[k := v].Keys == m.Keys + {k};
  }

  /** Any key may be taken first. */
  lemma {:induction false} SumTake(m: map<string, int>, k: string)
    requires k in m
    ensures Sum(m) == m[k] + Sum(m - {k})
    decreases |m|
  {
    var j :| j in m && Sum(m) == m[j] + Sum(m - {j});
    if j != k {
      Drop(m, j);
      Drop(m, k);
      SumTake(m - {j}, k);
      SumTake(m - {k}, j);
      assert m - {j} - {k} == m - {k} - {j};
    }
  }

  lemma {:induction false} SumRealTake(m: map<string, real>, k: string)
    requires k in m
    ensures SumReal(m) == m[k] + SumReal(m - {k})
    decreases |m|
  {
    var j :| j in m && SumReal(m) == m[j] + SumReal(m - {j});
    if j != k {
      Drop(m, j);
      Drop(m, k);
      SumRealTake(m - {j}, k);
      SumRealTake(m - {k}, j);
      assert m - {j} - {k} == m - {k} - {j};
    }
  }

  lemma SumAdd(m: map<string, int>, k: string, v: int)
    requires k !in m
    ensures Sum(m[k := v]) == Sum(m) + v
  {
    Grow(m, k, v);
    SumTake(m[k := v], k);
  }

  lemma SumRealAdd(m: map<string, real>, k: string, v: real)
    requires k !in m
    ensures SumReal(m[k := v]) == SumReal(m) + v
  {
    Grow(m, k, v);
    SumRealTake(m[k := v], k);
  }

  lemma OneMore(c: int, n: int)
    ensures c * n == c * (n - 1) + c
  {
  }

  lemma {:induction false} SumBounds(m: map<string, int>, lo: int, hi: int)
    requires forall k :: k in m ==> lo <= m[k] <= hi
    ensures lo * |m| <= Sum(m) <= hi * |m|
    decreases |m|
  {
    if m != map[] {
      var k :| k in m;
      Drop(m, k);
      SumTake(m, k);
      SumBounds(m - {k}, lo, hi);
      OneMore(lo, |m|);
      OneMore(hi, |m|);
    }
  }

  /** A sum of positive numbers is positive. */
  lemma {:induction false} SumRealPositive(m: map<string, real>)
    requires forall k :: k in m ==> m[k] > 0.0
    ensures SumReal(m) >= 0.0
    ensures m != map[] ==> SumReal(m) > 0.0
    decreases |m|
  {
    if m != map[] {
      var k :| k in m;
      Drop(m, k);
      SumRealTake(m, k);
      SumRealPositive(m - {k});
    }
  }

  /** The sum over a submap of non-negative values is no larger. */
  lemma {:induction false} SumSubmap(m: map<string, int>, n: map<string, int>)
    requires m.Keys <= n.Keys
    requires forall k :: k in m ==> m[k] <= n[k]
    requires forall k :: k in n ==> n[k] >= 0
    ensures Sum(m) <= Sum(n)
    decreases |n|
  {
    if n == map[] {
      assert m == map[];
    } else {
      var k :| k in n;
      Drop(n, k);
      SumTake(n, k);
      if k in m {
        SumTake(m, k);
        SumSubmap(m - {k}, n - {k});
      } else {
        SumSubmap(m, n - {k});
      }
    }
  }
}
