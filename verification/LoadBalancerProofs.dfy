/** Fairness of the load balancer's counters and of its IP hash. */
module LoadBalancerProofs {
  import opened Arithmetic
  import opened LoadBalancer
  import opened WeightedPick

  // ----- Weighted round-robin ------------------------------------------------

  /** How often index `i` is selected by `calls` consecutive weighted round-robin
      calls over a fixed pool, the counter starting at `counter`. */
  ghost function WrrCount(ws: seq<nat>, counter: nat, calls: nat, i: nat): nat
    requires |ws| > 0 && Total(ws) > 0
    decreases calls
  {
    if calls == 0 then 0
    else
      var c := WrrNext(Total(ws), counter);
      Hit(ws, c, i) + WrrCount(ws, c, calls - 1, i)
  }

  /** From the first call on the counter walks through consecutive residues. */
  lemma {:induction false} WrrWalks(ws: seq<nat>, counter: nat, calls: nat, i: nat)
    requires i < |ws| && 0 < Total(ws) < TWO64
    ensures WrrCount(ws, counter, calls, i) == Hits(ws, Total(ws), WrrNext(Total(ws), counter), calls, i)
    decreases calls
  {
    var t := Total(ws);
    var c := WrrNext(t, counter);
    if calls > 0 {
      WrrWalks(ws, c, calls - 1, i);
      ModUnique(c, t, 0, c);
      HitsFront(ws, t, c, calls - 1, i);
      ModUnique(c + 1, TWO64, 0, c + 1);
      HitsResidue(ws, t, c + 1, calls - 1, i);
    }
  }

  /** Any W consecutive calls over a pool whose weights sum to W select each
      backend exactly as often as its weight says, whatever the counter was. */
  lemma WrrFair(ws: seq<nat>, counter: nat, i: nat)
    requires i < |ws| && 0 < Total(ws) < TWO64
    ensures WrrCount(ws, counter, Total(ws), i) == ws[i]
  {
    WrrWalks(ws, counter, Total(ws), i);
    HitsWindow(ws, Total(ws), WrrNext(Total(ws), counter), i);
  }

  // ----- Plain round-robin -----------------------------------------------------

  /** How often index `i` is selected by `calls` consecutive round-robin calls
      over a fixed pool of `n` backends. */
  ghost function RrCount(n: nat, current: nat, calls: nat, i: nat): nat
    requires n > 0
    decreases calls
  {
    if calls == 0 then 0
    else (if current % n == i then 1 else 0) + RrCount(n, current + 1, calls - 1, i)
  }

  ghost function Ones(n: nat): seq<nat> {
    seq(n, _ => 1)
  }

  lemma {:induction false} RrWalks(n: nat, current: nat, calls: nat, i: nat)
    requires i < n
    ensures RrCount(n, current, calls, i) == Hits(Ones(n), n, current, calls, i)
    decreases calls
  {
    if calls > 0 {
      RrWalks(n, current + 1, calls - 1, i);
      HitsFront(Ones(n), n, current, calls - 1, i);
      PickOnes(Ones(n), current % n);
    }
  }

  /** Any n consecutive calls over n backends select each exactly once. */
  lemma RrFair(n: nat, current: nat, i: nat)
    requires i < n
    ensures RrCount(n, current, n, i) == 1
  {
    RrWalks(n, current, n, i);
    PickOnes(Ones(n), 0);
    HitsWindow(Ones(n), n, current, i);
  }

  // ----- IP hash ---------------------------------------------------------------

  /** How many of the first `n` hash values select index `i`. */
  ghost function HashCount(ws: seq<nat>, n: nat, i: nat): nat
    requires |ws| > 0
  {
    if n == 0 then 0 else HashCount(ws, n - 1, i) + if HashIndex(ws, n - 1) == i then 1 else 0
  }

  lemma {:induction false} HashWalks(ws: seq<nat>, n: nat, i: nat)
    requires i < |ws|
    ensures Total(ws) > 0 ==> HashCount(ws, n, i) == Hits(ws, Total(ws), 0, n, i)
    ensures Total(ws) == 0 ==> HashCount(ws, n, i) == Hits(Ones(|ws|), |ws|, 0, n, i)
    decreases n
  {
    if n > 0 {
      HashWalks(ws, n - 1, i);
      PickOnes(Ones(|ws|), (n - 1) % |ws|);
    }
  }

  /** Of the 2^64 hash values each backend is selected by between its weight times
      floor(2^64 / W) and its weight times ceil(2^64 / W); when every weight is
      zero, each backend counts as one of |ws| equals. */
  lemma HashShare(ws: seq<nat>, i: nat)
    requires i < |ws|
    ensures Total(ws) > 0 ==>
      TWO64 / Total(ws) * ws[i] <= HashCount(ws, TWO64, i) <= CeilDiv(TWO64, Total(ws)) * ws[i]
    ensures Total(ws) == 0 ==>
      TWO64 / |ws| <= HashCount(ws, TWO64, i) <= CeilDiv(TWO64, |ws|)
  {
    HashWalks(ws, TWO64, i);
    if Total(ws) > 0 {
      HitsRange(ws, TWO64, i);
    } else {
      PickOnes(Ones(|ws|), 0);
      HitsRange(Ones(|ws|), TWO64, i);
    }
  }

  /** A backend of weight zero is never selected while some weight is positive. */
  lemma HashSkipsZeroWeight(ws: seq<nat>, h: nat)
    requires |ws| > 0 && Total(ws) > 0
    ensures ws[HashIndex(ws, h)] > 0
  {
    ZeroWeightNeverPicked(ws, h % Total(ws));
  }

  // ----- The pool ----------------------------------------------------------------

  /** Marking a backend down and up again restores everything but its failure
      record, and touches no other backend. */
  lemma HealUndoesFail(pool: seq<BackendState>, name: string, now: int)
    ensures var i, after := IndexOf(pool, name), Changed(Changed(pool, name, b => Failed(b, now)), name, Healed);
            && |after| == |pool|
            && (forall j :: 0 <= j < |pool| && j != i ==> after[j] == pool[j])
            && (i < |pool| ==> after[i] == pool[i].(healthy := true, failureCount := 0, lastFailure := now))
  {
    var i, mid := IndexOf(pool, name), Changed(pool, name, b => Failed(b, now));
    if i < |pool| {
      var k := IndexOf(mid, name);
      assert mid[i].name == name;
      assert forall j :: 0 <= j < i ==> mid[j] == pool[j];
      assert k == i;
    }
  }
}
