/** From how many active paths on the rescaling can starve one: the families of
    scores that show 21 to be the limit, and what equal scores come to. */
module Starvation {
  import opened Arithmetic
  import opened Sums
  import opened WeightMath

  function Key(i: nat): (k: string)
    ensures |k| == i
  {
    seq(i, _ => 'p')
  }

  /** `m` with `n` more entries of score `v`, under keys of length from, from+1, ... */
  ghost function Fill(m: map<string, real>, from: nat, n: nat, v: real): map<string, real> {
    if n == 0 then m else Fill(m, from, n - 1, v)[Key(from + n - 1) := v]
  }

  lemma {:induction false} FillKeys(m: map<string, real>, from: nat, n: nat, v: real)
    requires v > 0.0 && forall k :: k in m ==> |k| < from && m[k] > 0.0
    ensures forall k :: k in Fill(m, from, n, v) ==> |k| < from + n && Fill(m, from, n, v)[k] > 0.0
    ensures |Fill(m, from, n, v)| == |m| + n
    decreases n
  {
    hide Key;
    if n > 0 {
      FillKeys(m, from, n - 1, v);
      Grow(Fill(m, from, n - 1, v), Key(from + n - 1), v);
    }
  }

  lemma FreshKey(m: map<string, real>, from: nat, n: nat, v: real)
    requires v > 0.0 && forall k :: k in m ==> |k| < from && m[k] > 0.0
    ensures Key(from + n) !in Fill(m, from, n, v)
  {
    hide Key, Fill;
    FillKeys(m, from, n, v);
  }

  ghost function Repeat(n: nat, v: real): real {
    if n == 0 then 0.0 else Repeat(n - 1, v) + v
  }

  lemma {:induction false} FillScores(m: map<string, real>, from: nat, n: nat, v: real)
    requires v > 0.0 && forall k :: k in m ==> |k| < from && m[k] > 0.0
    ensures SumReal(Fill(m, from, n, v)) == SumReal(m) + Repeat(n, v)
    decreases n
  {
    if n > 0 {
      hide Key;
      FillScores(m, from, n - 1, v);
      FreshKey(m, from, n - 1, v);
      SumRealAdd(Fill(m, from, n - 1, v), Key(from + n - 1), v);
    }
  }

  lemma {:induction false} RepeatTimes(n: nat, v: real)
    ensures Repeat(n, v) == n as real * v
  {
    if n > 0 {
      RepeatTimes(n - 1, v);
    }
  }

  ghost function RawSum(m: map<string, real>, avg: real): int
    requires avg > 0.0
  {
    Sum(RawWeights(m, avg))
  }

  lemma {:induction false} FillWeights(m: map<string, real>, from: nat, n: nat, v: real, avg: real)
    requires avg > 0.0 && v > 0.0 && forall k :: k in m ==> |k| < from && m[k] > 0.0
    ensures RawSum(Fill(m, from, n, v), avg) == RawSum(m, avg) + n * RawWeight(v, avg)
    decreases n
  {
    hide Key, RawWeight, RawSum;
    var w := RawWeight(v, avg);
    if n > 0 {
      FillWeights(m, from, n - 1, v, avg);
      FreshKey(m, from, n - 1, v);
      FillOne(Fill(m, from, n - 1, v), Key(from + n - 1), v, avg);
      OneMore(w, n);
    }
  }

  lemma FillOne(m: map<string, real>, k: string, v: real, avg: real)
    requires avg > 0.0 && k !in m
    ensures RawSum(m[k := v], avg) == RawSum(m, avg) + RawWeight(v, avg)
  {
    SumAdd(RawWeights(m, avg), k, RawWeight(v, avg));
    assert RawWeights(m[k := v], avg) == RawWeights(m, avg)[k := RawWeight(v, avg)];
  }

  /** `a` scores of 6000 and `b` of 2000. */
  ghost function Leaders(a: nat, b: nat): map<string, real> {
    Fill(Fill(map[], 0, a, 6000.0), a, b, 2000.0)
  }

  /** The leaders and `c` scores of 1. */
  ghost function Crowd(a: nat, b: nat, c: nat): map<string, real> {
    Fill(Leaders(a, b), a + b, c, 1.0)
  }

  lemma LeadersKeys(a: nat, b: nat)
    ensures |Leaders(a, b)| == a + b
    ensures forall k :: k in Leaders(a, b) ==> |k| < a + b && Leaders(a, b)[k] > 0.0
  {
    hide Key, Fill;
    var many := Fill(map[], 0, a, 6000.0);
    FillKeys(map[], 0, a, 6000.0);
    FillKeys(many, a, b, 2000.0);
  }

  lemma LeadersScores(a: nat, b: nat)
    ensures SumReal(Leaders(a, b)) == Repeat(a, 6000.0) + Repeat(b, 2000.0)
  {
    hide Key, Fill, Repeat;
    var many := Fill(map[], 0, a, 6000.0);
    FillKeys(map[], 0, a, 6000.0);
    FillScores(map[], 0, a, 6000.0);
    FillScores(many, a, b, 2000.0);
  }

  lemma LeadersWeigh(a: nat, b: nat, avg: real)
    requires a == 7 && b == 1 && 0.0 < avg <= 22007.0 / 11.0
    ensures RawSum(Leaders(a, b), avg) >= 440
  {
    hide Key, Fill, RawSum, RawWeight;
    var many := Fill(map[], 0, a, 6000.0);
    FillKeys(map[], 0, a, 6000.0);
    FillWeights(map[], 0, a, 6000.0, avg);
    FillWeights(many, a, b, 2000.0, avg);
    EmptyRaw(avg);
    LeaderWeights(avg);
  }

  lemma EmptyRaw(avg: real)
    requires avg > 0.0
    ensures RawSum(map[], avg) == 0
  {
    assert RawWeights(map[], avg) == map[];
  }

  lemma AtLeastRatio(x: real, avg: real, ratio: real)
    requires avg > 0.0 && ratio * avg <= x
    ensures x / avg >= ratio
  {
  }

  lemma AtMostRatio(x: real, avg: real, ratio: real)
    requires avg > 0.0 && x <= ratio * avg
    ensures x / avg <= ratio
  {
  }

  lemma LeaderWeights(avg: real)
    requires 0.0 < avg <= 22007.0 / 11.0
    ensures RawWeight(6000.0, avg) == 60 && RawWeight(2000.0, avg) >= 20
  {
    AtLeastRatio(6000.0, avg, 2.98);
    AtLeastRatio(2000.0, avg, 0.98);
  }

  lemma TailWeight(avg: real)
    requires avg >= 100.0
    ensures RawWeight(1.0, avg) == 5
  {
    AtMostRatio(1.0, avg, 0.01);
    DivMonotone(0.0, 1.0, avg);
  }

  lemma CrowdKeys(a: nat, b: nat, c: nat)
    ensures |Crowd(a, b, c)| == a + b + c
    ensures forall k :: k in Crowd(a, b, c) ==> Crowd(a, b, c)[k] > 0.0
  {
    hide Leaders, Fill, Key;
    LeadersKeys(a, b);
    FillKeys(Leaders(a, b), a + b, c, 1.0);
  }

  lemma CrowdScores(a: nat, b: nat, c: nat)
    ensures SumReal(Crowd(a, b, c)) == Repeat(a, 6000.0) + Repeat(b, 2000.0) + Repeat(c, 1.0)
  {
    hide Leaders, Fill, Key, Repeat;
    LeadersKeys(a, b);
    LeadersScores(a, b);
    FillScores(Leaders(a, b), a + b, c, 1.0);
  }

  lemma CrowdTotal(a: nat, b: nat, c: nat)
    requires a == 7 && b == 1
    ensures Repeat(a, 6000.0) + Repeat(b, 2000.0) + Repeat(c, 1.0) == 44000.0 + c as real
  {
    hide Repeat;
    RepeatTimes(a, 6000.0);
    RepeatTimes(b, 2000.0);
    RepeatTimes(c, 1.0);
  }

  lemma CrowdLast(a: nat, b: nat, c: nat)
    requires c > 0
    ensures var last := Key(a + b + c - 1); last in Crowd(a, b, c) && Crowd(a, b, c)[last] == 1.0
  {
    hide Leaders, Key;
  }

  lemma CrowdAverage(scores: map<string, real>, n: nat)
    requires 22 <= n <= 100 && Positive(scores) == scores != map[]
    requires |scores| == n && SumReal(scores) == 43992.0 + n as real
    ensures 100.0 <= Average(scores) <= 22007.0 / 11.0
  {
    AtLeastRatio(SumReal(scores), n as real, 100.0);
    AtMostRatio(SumReal(scores), n as real, 22007.0 / 11.0);
  }

  lemma CrowdRawSum(a: nat, b: nat, c: nat, avg: real)
    requires a == 7 && b == 1 && 100.0 <= avg <= 22007.0 / 11.0
    ensures RawSum(Crowd(a, b, c), avg) >= 440 + 5 * c
  {
    hide Leaders, Fill, Key, RawWeight, RawSum;
    LeadersKeys(a, b);
    LeadersWeigh(a, b, avg);
    TailWeight(avg);
    FillWeights(Leaders(a, b), a + b, c, 1.0, avg);
  }

  /** From 22 to 100 active paths: seven scores of 6000, one of 2000, and all the
      scores of 1 end at a weight of 0. */
  lemma CrowdStarves(n: nat) returns (scores: map<string, real>, k: string)
    requires 22 <= n <= 100
    ensures |scores| == n && k in scores && Positive(scores) == scores != map[]
    ensures FinalWeights(scores)[k] == 0
  {
    hide Crowd, Key;
    var a, b :| a == 7 && b == 1;
    var c := n - 8;
    CrowdKeys(a, b, c);
    CrowdScores(a, b, c);
    CrowdTotal(a, b, c);
    CrowdLast(a, b, c);
    scores, k := Crowd(a, b, c), Key(a + b + c - 1);
    assert Positive(scores) == scores;
    CrowdAverage(scores, n);
    CrowdRawSum(a, b, c, Average(scores));
    RoundedToNothing(scores, k);
  }

  lemma RoundedToNothing(scores: map<string, real>, k: string)
    requires Positive(scores) != map[] && k in scores && scores[k] == 1.0 && Average(scores) >= 100.0
    requires RawSum(scores, Average(scores)) > 500
    ensures FinalWeights(scores)[k] == 0
  {
    var avg := Average(scores);
    hide Average;
    TailWeight(avg);
    RawSumPositive(scores, avg);
    ModUnique(500, RawSum(scores, avg), 0, 500);
  }

  lemma {:induction false} EqualSum(scores: map<string, real>, v: real)
    requires forall k :: k in scores ==> scores[k] == v
    ensures SumReal(scores) == Repeat(|scores|, v)
    decreases |scores|
  {
    if scores != map[] {
      var k :| k in scores;
      Drop(scores, k);
      SumRealTake(scores, k);
      EqualSum(scores - {k}, v);
    }
  }

  lemma EqualAverage(scores: map<string, real>, v: real)
    requires v > 0.0 && scores != map[] && forall k :: k in scores ==> scores[k] == v
    ensures Positive(scores) == scores && Average(scores) == v
  {
    assert Positive(scores) == scores;
    EqualSum(scores, v);
    RepeatTimes(|scores|, v);
    NotZero(scores);
    TimesOver(v, |scores| as real);
  }

  lemma TwentyEach(v: real)
    requires v > 0.0
    ensures RawWeight(v, v) == 20
  {
    assert v / v == 1.0;
  }

  lemma EqualRaw(scores: map<string, real>, v: real)
    requires v > 0.0 && forall k :: k in scores ==> scores[k] == v
    ensures forall k :: k in scores ==> RawWeights(scores, v)[k] == 20
    ensures Sum(RawWeights(scores, v)) == 20 * |scores|
  {
    var raw := RawWeights(scores, v);
    TwentyEach(v);
    hide RawWeight;
    assert raw.Keys == scores.Keys;
    assert |raw| == |scores|;
    SumBounds(raw, 20, 20);
  }

  /** Equal scores share alike, and with more than a hundred of them every share is
      rounded down to nothing: then no weight is left, and selecting divides by zero. */
  lemma EqualScores(scores: map<string, real>, v: real)
    requires v > 0.0 && scores != map[] && forall k :: k in scores ==> scores[k] == v
    ensures Positive(scores) == scores
    ensures forall k :: k in scores ==> FinalWeights(scores)[k] == TARGET / |scores|
    ensures Sum(FinalWeights(scores)) == 0 <==> |scores| > TARGET
  {
    EqualAverage(scores, v);
    EqualRaw(scores, v);
    NotZero(scores);
    CancelTwenty(|scores|);
    hide RawWeights, Average, Positive;
    var final, q := FinalWeights(scores), TARGET / |scores|;
    assert final == Scaled(RawWeights(scores, v), 20 * |scores|);
    assert final.Keys == scores.Keys && forall k :: k in final ==> final[k] == q;
    SameSum(final, scores, q);
    Share(|scores|);
  }

  lemma SameSum(final: map<string, int>, scores: map<string, real>, q: int)
    requires final.Keys == scores.Keys && forall k :: k in final ==> final[k] == q
    ensures Sum(final) == q * |scores|
  {
    assert |final| == |final.Keys| && |scores| == |scores.Keys|;
    SumBounds(final, q, q);
  }

  lemma TimesOver(v: real, n: real)
    requires n > 0.0
    ensures n * v / n == v
  {
  }

  lemma CancelTwenty(n: nat)
    requires n > 0
    ensures 20 * TARGET / (20 * n) == TARGET / n
  {
    var q, r := TARGET / n, TARGET % n;
    DivMod(TARGET, n);
    assert 20 * TARGET == q * (20 * n) + 20 * r;
    ModUnique(20 * TARGET, 20 * n, q, 20 * r);
  }

  lemma Share(n: nat)
    requires n > 0
    ensures (TARGET / n) * n == 0 <==> n > TARGET
  {
    DivMod(TARGET, n);
    if n > TARGET {
      ModUnique(TARGET, n, 0, TARGET);
    }
  }

  ghost predicate Starves(scores: map<string, real>, n: nat) {
    |scores| == n && Positive(scores) != map[] && exists k :: k in FinalWeights(scores) && FinalWeights(scores)[k] == 0
  }

  /** Some path can be starved exactly from 22 active paths on. */
  lemma StarvesExactlyFrom22(n: nat)
    ensures (exists scores :: Starves(scores, n)) <==> n >= 22
  {
    if n <= 21 {
      forall scores ensures !Starves(scores, n) {
        if Positive(scores) != map[] && |scores| == n {
          FullReweighting(scores);
          NobodyStarved(scores);
        }
      }
    } else if n <= 100 {
      var scores, k := CrowdStarves(n);
      FullReweighting(scores);
      assert Starves(scores, n);
    } else {
      var scores, k := ManyStarve(n);
      FullReweighting(scores);
      assert Starves(scores, n);
    }
  }

  lemma ManyStarve(n: nat) returns (scores: map<string, real>, k: string)
    requires n > 100
    ensures |scores| == n && k in scores && Positive(scores) != map[]
    ensures FinalWeights(scores)[k] == 0
  {
    scores := Fill(map[], 0, n, 1.0);
    FillKeys(map[], 0, n, 1.0);
    AllOnes(n);
    hide Fill;
    NonEmptyKeys(scores);
    EqualScores(scores, 1.0);
    k :| k in scores;
    ModUnique(TARGET, n, 0, TARGET);
  }

  lemma {:induction false} AllOnes(n: nat)
    ensures forall k :: k in Fill(map[], 0, n, 1.0) ==> Fill(map[], 0, n, 1.0)[k] == 1.0
  {
    hide Key;
    if n > 0 {
      AllOnes(n - 1);
    }
  }

  lemma NonEmptyKeys(scores: map<string, real>)
    requires |scores| > 0
    ensures scores != map[]
  {
  }
}
