/** The histogram (internal/metrics/metrics.go): mutable counters that agree with the
    whole history of observations. */
module Histogram {

  /** The first bucket whose bound is at least `v`; one past the last if none is. */
  function BucketOf(buckets: seq<real>, v: real): (i: nat)
    ensures i <= |buckets|
    ensures i < |buckets| ==> v <= buckets[i]
    ensures forall j :: 0 <= j < i ==> v > buckets[j]
  {
    if buckets == [] || v <= buckets[0] then 0 else 1 + BucketOf(buckets[1..], v)
  }

  /** How many observations fall in bucket `i`, and how many are at most `bound`. */
  function InBucket(buckets: seq<real>, history: seq<real>, i: nat): nat {
    if history == [] then 0
    else
      InBucket(buckets, history[..|history| - 1], i)
      + if BucketOf(buckets, history[|history| - 1]) == i then 1 else 0
  }

  function AtMost(history: seq<real>, bound: real): nat {
    if history == [] then 0
    else AtMost(history[..|history| - 1], bound) + if history[|history| - 1] <= bound then 1 else 0
  }

  function Total(history: seq<real>): real {
    if history == [] then 0.0 else Total(history[..|history| - 1]) + history[|history| - 1]
  }

  function SumTo(counts: seq<int>, n: nat): int
    requires n <= |counts|
  {
    if n == 0 then 0 else SumTo(counts, n - 1) + counts[n - 1]
  }

  /** The counters after a history. */
  function Counts(buckets: seq<real>, history: seq<real>): (counts: seq<int>)
    ensures |counts| == |buckets| + 1
  {
    seq(|buckets| + 1, i requires 0 <= i => InBucket(buckets, history, i))
  }

  const DEFAULT_BUCKETS: seq<real> := [1.0, 5.0, 10.0, 25.0, 50.0, 100.0, 250.0, 500.0, 1000.0]

  class Histogram {
    const buckets: seq<real>
    const counts: array<int>
    var total: real
    var count: int
    /** Everything observed so far. */
    ghost var history: seq<real>

    ghost predicate Valid()
      reads this, counts
    {
      && counts.Length == |buckets| + 1
      && counts[..] == Counts(buckets, history)
      && count == |history|
      && total == Total(history)
    }

    constructor (buckets: seq<real>)
      ensures Valid() && history == [] && fresh(counts)
      ensures this.buckets == if buckets == [] then DEFAULT_BUCKETS else buckets
      ensures buckets == [] ==> this.buckets == [1.0, 5.0, 10.0, 25.0, 50.0, 100.0, 250.0, 500.0, 1000.0]
      ensures forall i :: 0 <= i < counts.Length ==> counts[i] == 0
    {
      var bounds := if |buckets| == 0 then DEFAULT_BUCKETS else buckets;
      this.buckets := bounds;
      counts := new int[|bounds| + 1](_ => 0);
      total, count, history := 0.0, 0, [];
      new;
      assert counts[..] == Counts(this.buckets, history);
    }

    method Observe(v: real)
      requires Valid()
      modifies this, counts
      ensures Valid() && history == old(history) + [v]
      ensures total == old(total) + v && count == old(count) + 1
      ensures forall i :: 0 <= i < counts.Length ==>
        counts[i] == old(counts[i])
          + if (i < |buckets| ==> v <= buckets[i]) && (forall j :: 0 <= j < i ==> v > buckets[j]) then 1 else 0
    {
      ghost var before := history;
      total := total + v;
      count := count + 1;
      history := history + [v];
      assert history[..|history| - 1] == before;
      for i := 0 to |buckets|
        invariant counts[..] == old(counts[..]) && total == old(total) + v && count == old(count) + 1
        invariant history == before + [v]
        invariant forall j :: 0 <= j < i ==> v > buckets[j]
      {
        if v <= buckets[i] {
          assert BucketOf(buckets, v) == i;
          counts[i] := counts[i] + 1;
          assert counts[..] == Counts(buckets, history);
          return;
        }
      }
      assert BucketOf(buckets, v) == |buckets|;
      counts[|buckets|] := counts[|buckets|] + 1;
      assert counts[..] == Counts(buckets, history);
    }

    method Mean() returns (m: real)
      requires Valid()
      ensures m == if history == [] then 0.0 else Total(history) / |history| as real
      ensures m == if count == 0 then 0.0 else total / count as real
    {
      m := if count == 0 then 0.0 else total / count as real;
    }
  }

  // ----- What the counters mean -------------------------------------------------------

  ghost predicate Ascending(buckets: seq<real>) {
    forall i, j :: 0 <= i < j < |buckets| ==> buckets[i] <= buckets[j]
  }

  lemma {:induction false} SumToStep(buckets: seq<real>, history: seq<real>, v: real, n: nat)
    requires n <= |buckets| + 1
    ensures SumTo(Counts(buckets, history + [v]), n)
            == SumTo(Counts(buckets, history), n) + if BucketOf(buckets, v) < n then 1 else 0
    decreases n
  {
    if n > 0 {
      SumToStep(buckets, history, v, n - 1);
      assert (history + [v])[..|history|] == history;
    }
  }

  lemma {:induction false} SumToEmpty(buckets: seq<real>, n: nat)
    requires n <= |buckets| + 1
    ensures SumTo(Counts(buckets, []), n) == 0
    decreases n
  {
    if n > 0 {
      SumToEmpty(buckets, n - 1);
    }
  }

  /** The counts sum to the number of observations, for any bucket bounds. */
  lemma {:induction false} CountsSumToCount(buckets: seq<real>, history: seq<real>)
    ensures SumTo(Counts(buckets, history), |buckets| + 1) == |history|
    decreases |history|
  {
    if history == [] {
      SumToEmpty(buckets, |buckets| + 1);
    } else {
      var front, v := history[..|history| - 1], history[|history| - 1];
      CountsSumToCount(buckets, front);
      SumToStep(buckets, front, v, |buckets| + 1);
      assert history == front + [v];
    }
  }

  /** With ascending bounds the counts up to bucket i number the observations that
      are at most its bound. */
  lemma {:induction false} CumulativeCounts(buckets: seq<real>, history: seq<real>, i: nat)
    requires Ascending(buckets) && i < |buckets|
    ensures SumTo(Counts(buckets, history), i + 1) == AtMost(history, buckets[i])
    decreases |history|
  {
    if history == [] {
      SumToEmpty(buckets, i + 1);
    } else {
      var front, v := history[..|history| - 1], history[|history| - 1];
      CumulativeCounts(buckets, front, i);
      SumToStep(buckets, front, v, i + 1);
      assert history == front + [v];
      var b := BucketOf(buckets, v);
      assert b <= i <==> v <= buckets[i];
    }
  }

  /** The counts are cumulative for every history exactly when the bounds ascend; the
      constructor does not check that they do. */
  lemma CumulativeExactly(buckets: seq<real>)
    ensures Ascending(buckets) <==>
      forall history: seq<real>, i: nat {:trigger AtMost(history, buckets[i])} :: i < |buckets| ==>
        SumTo(Counts(buckets, history), i + 1) == AtMost(history, buckets[i])
  {
    if Ascending(buckets) {
      forall history: seq<real>, i: nat | i < |buckets|
        ensures SumTo(Counts(buckets, history), i + 1) == AtMost(history, buckets[i])
      {
        CumulativeCounts(buckets, history, i);
      }
    } else {
      var i, j :| 0 <= i < j < |buckets| && buckets[i] > buckets[j];
      var history := [buckets[i]];
      SumToStep(buckets, [], buckets[i], j + 1);
      SumToEmpty(buckets, j + 1);
      assert [] + [buckets[i]] == history;
      assert history[..0] == [];
      assert AtMost(history, buckets[j]) == 0;
      assert SumTo(Counts(buckets, history), j + 1) == 1;
    }
  }
}
