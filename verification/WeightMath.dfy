/** The arithmetic of weight assignment: scores are turned into integer weights
    by mean, round and clamp, and weights are rescaled to a percentage by an
    integer division that rounds toward zero. */
module WeightMath {
  import opened Arithmetic
  import opened Sums

  const TARGET := 100
  const MIN_WEIGHT := 5
  const MAX_WEIGHT := 60

  // ----- Rescaling ---------------------------------------------------------

  /** Go's integer quotient, which truncates toward zero. */
  function Quotient(a: int, b: int): int
    requires b != 0
  {
    if a >= 0 then a / b else -((-a) / b)
  }

  /** Truncation: the remainder is smaller than the divisor and has the dividend's sign. */
  lemma QuotientTruncates(a: int, b: int)
    requires b != 0
    ensures var r := a - Quotient(a, b) * b;
            && (if b > 0 then -b < r < b else b < r < -b)
            && (a >= 0 ==> r >= 0) && (a <= 0 ==> r <= 0)
  {
    var n := if a >= 0 then a else -a;
    if b > 0 {
      DivMod(n, b);
    } else {
      DivMod(n, -b);
    }
  }

  function Scaled(m: map<string, int>, total: int): map<string, int>
    requires total != 0
  {
    map k | k in m :: Quotient(m[k] * TARGET, total)
  }

  /** What the division throws away. */
  function Lost(m: map<string, int>, total: int): map<string, int>
    requires total > 0
  {
    map k | k in m :: (m[k] * TARGET) % total
  }

  ghost predicate NonNegativeValues(m: map<string, int>) {
    forall k :: k in m ==> m[k] >= 0
  }

  /** Nothing is created or destroyed: the rescaled weights and the discarded
      remainders account for the whole. */
  lemma {:induction false} ScalingConserves(m: map<string, int>, total: int)
    requires total > 0 && NonNegativeValues(m)
    ensures Sum(Scaled(m, total)) * total + Sum(Lost(m, total)) == Sum(m) * TARGET
    decreases |m|
  {
    if m == map[] {
      assert Scaled(m, total) == map[] && Lost(m, total) == map[];
    } else {
      var k :| k in m;
      Drop(m, k);
      ScalingConserves(m - {k}, total);
      ScaledEntry(m, k, total);
      ScaledRest(m, k, total);
      hide Scaled, Lost;
      SumTake(m, k);
      SumTake(Scaled(m, total), k);
      SumTake(Lost(m, total), k);
      Distribute(Scaled(m, total)[k], Sum(Scaled(m - {k}, total)), total);
    }
  }

  lemma ScaledRest(m: map<string, int>, k: string, total: int)
    requires total > 0 && k in m
    ensures Scaled(m, total) - {k} == Scaled(m - {k}, total)
    ensures Lost(m, total) - {k} == Lost(m - {k}, total)
  {
  }

  lemma ScaledEntry(m: map<string, int>, k: string, total: int)
    requires total > 0 && k in m && m[k] >= 0
    ensures k in Scaled(m, total) && k in Lost(m, total)
    ensures Scaled(m, total)[k] * total + Lost(m, total)[k] == m[k] * TARGET
    ensures 0 <= Lost(m, total)[k] < total
  {
    DivMod(m[k] * TARGET, total);
  }

  lemma {:induction false} ZeroSum(m: map<string, int>)
    requires NonNegativeValues(m)
    ensures Sum(m) >= 0
    ensures Sum(m) == 0 <==> forall k :: k in m ==> m[k] == 0
    decreases |m|
  {
    if m != map[] {
      var k :| k in m;
      Drop(m, k);
      SumTake(m, k);
      ZeroSum(m - {k});
      assert forall j :: j in m ==> j == k || j in m - {k};
    }
  }

  /** The rescaled weights of `n` entries sum to between 101-n and 100, and to
      exactly 100 just when no division leaves a remainder. */
  lemma RescaledSum(m: map<string, int>)
    requires NonNegativeValues(m) && Sum(m) > 0
    ensures TARGET + 1 - |m| <= Sum(Scaled(m, Sum(m))) <= TARGET
    ensures Sum(Scaled(m, Sum(m))) == TARGET <==> forall k :: k in m ==> (m[k] * TARGET) % Sum(m) == 0
  {
    var total := Sum(m);
    var scaled, lost := Sum(Scaled(m, total)), Lost(m, total);
    ScalingConserves(m, total);
    SumBounds(lost, 0, total - 1);
    assert lost.Keys == m.Keys;
    assert |lost| == |m|;
    ZeroSum(lost);
    Distribute(TARGET, scaled, total);
    assert (TARGET - scaled) * total == Sum(lost);
    if scaled > TARGET {
      AtLeastOnce(scaled - TARGET, total);
      Distribute(scaled, TARGET, total);
      assert false;
    }
    if TARGET - scaled >= |m| {
      MulMonotone(|m|, TARGET - scaled, total);
      NonEmpty(m);
      LessTimes(total, |m|);
      assert false;
    }
    if Sum(lost) == 0 && scaled < TARGET {
      AtLeastOnce(TARGET - scaled, total);
      assert false;
    }
  }

  lemma NonEmpty(m: map<string, int>)
    requires Sum(m) > 0
    ensures |m| > 0
  {
  }

  lemma LessTimes(t: int, n: int)
    requires n > 0
    ensures (t - 1) * n < n * t
  {
  }

  lemma ScalingMonotone(a: int, b: int, total: int)
    requires 0 <= a <= b && total > 0
    ensures 0 <= Quotient(a * TARGET, total) <= Quotient(b * TARGET, total)
  {
    DivMod(a * TARGET, total);
    DivMod(b * TARGET, total);
    var qa, qb := a * TARGET / total, b * TARGET / total;
    if qa > qb {
      Distribute(qa, qb, total);
      AtLeastOnce(qa - qb, total);
      assert false;
    }
    if qa < 0 {
      AtLeastOnce(-qa, total);
      Distribute(0, qa, total);
      assert false;
    }
  }

  // ----- From scores to weights --------------------------------------------

  /** Go's math.Round: halves go away from zero. */
  function Round(x: real): int {
    if x >= 0.0 then (x + 0.5).Floor else -((0.5 - x).Floor)
  }

  function Clamp(w: int): int {
    if w < MIN_WEIGHT then MIN_WEIGHT else if w > MAX_WEIGHT then MAX_WEIGHT else w
  }

  function RawWeight(score: real, avg: real): int
    requires avg != 0.0
  {
    Clamp(Round(score / avg * 20.0))
  }

  function RawWeights(scores: map<string, real>, avg: real): map<string, int>
    requires avg != 0.0
  {
    map k | k in scores :: RawWeight(scores[k], avg)
  }

  /** The scores that enter the mean. */
  function Positive(scores: map<string, real>): map<string, real> {
    map k | k in scores && scores[k] > 0.0 :: scores[k]
  }

  ghost function Average(scores: map<string, real>): (avg: real)
    requires Positive(scores) != map[]
    ensures avg > 0.0
  {
    SumRealPositive(Positive(scores));
    NotZero(Positive(scores));
    SumReal(Positive(scores)) / (|Positive(scores)| as real)
  }

  lemma NotZero<V>(m: map<string, V>)
    requires m != map[]
    ensures |m| > 0
  {
  }

  /** The weights `adjustWeights` gives the active paths. */
  ghost function FinalWeights(scores: map<string, real>): map<string, int>
    requires Positive(scores) != map[]
  {
    var raw := RawWeights(scores, Average(scores));
    RawSumPositive(scores, Average(scores));
    Scaled(raw, Sum(raw))
  }

  lemma RawSumPositive(scores: map<string, real>, avg: real)
    requires avg > 0.0 && scores != map[]
    ensures Sum(RawWeights(scores, avg)) >= MIN_WEIGHT
  {
    var raw := RawWeights(scores, avg);
    assert raw.Keys == scores.Keys;
    assert |raw| == |scores|;
    NotZero(scores);
    SumBounds(raw, MIN_WEIGHT, MAX_WEIGHT);
  }

  lemma DivMonotone(x: real, y: real, avg: real)
    requires x <= y && avg > 0.0
    ensures x / avg <= y / avg
  {
  }

  lemma RoundMonotone(x: real, y: real)
    requires x <= y
    ensures Round(x) <= Round(y)
  {
  }

  lemma RawMonotone(x: real, y: real, avg: real)
    requires x <= y && avg > 0.0
    ensures RawWeight(x, avg) <= RawWeight(y, avg)
  {
    DivMonotone(x, y, avg);
    RoundMonotone(x / avg * 20.0, y / avg * 20.0);
  }

  /** Where the raw weight of a positive score sits before rounding, damped so
      that the line through (0, 5) and (59.5, 60) lies above every weight. */
  function Damped(score: real, avg: real): real
    requires avg > 0.0
  {
    score / avg * 55.0 / 3.0
  }

  lemma RawBelowLine(score: real, avg: real)
    requires avg > 0.0
    ensures score <= 0.0 ==> RawWeight(score, avg) == MIN_WEIGHT
    ensures score > 0.0 ==> RawWeight(score, avg) as real <= 131.0 / 24.0 + Damped(score, avg)
  {
    var x := score / avg * 20.0;
    if score > 0.0 {
      DivMonotone(0.0, score, avg);
      assert Round(x) as real <= x + 0.5;
    } else {
      DivMonotone(score, 0.0, avg);
    }
  }

  function DampedScores(scores: map<string, real>, avg: real): map<string, real>
    requires avg > 0.0
  {
    map k | k in scores :: Damped(scores[k], avg)
  }

  /** Entry-wise bounds add up. */
  lemma {:induction false} SumBelow(w: map<string, int>, d: map<string, real>)
    requires d.Keys <= w.Keys
    requires forall k :: k in w ==> w[k] as real <= 131.0 / 24.0 + if k in d then d[k] else 0.0
    ensures Sum(w) as real <= 131.0 / 24.0 * (|w| as real) + SumReal(d)
    decreases |w|
  {
    if w == map[] {
      assert d == map[];
    } else {
      var k :| k in w;
      Drop(w, k);
      SumTake(w, k);
      if k in d {
        SumRealTake(d, k);
        SumBelow(w - {k}, d - {k});
      } else {
        SumBelow(w - {k}, d);
      }
      assert |w| as real == |w - {k}| as real + 1.0;
    }
  }

  lemma {:induction false} DampedSum(scores: map<string, real>, avg: real)
    requires avg > 0.0
    ensures SumReal(DampedScores(scores, avg)) == Damped(SumReal(scores), avg)
    decreases |scores|
  {
    var d := DampedScores(scores, avg);
    if scores == map[] {
      assert d == map[];
    } else {
      var k :| k in scores;
      Drop(scores, k);
      SumRealTake(scores, k);
      SumRealTake(d, k);
      assert d - {k} == DampedScores(scores - {k}, avg);
      DampedSum(scores - {k}, avg);
      DampedAdd(scores[k], SumReal(scores - {k}), avg);
    }
  }

  /** The raw weights lie below the line through their damped scores. */
  lemma RawSumBelowLine(scores: map<string, real>, avg: real)
    requires avg > 0.0
    ensures Sum(RawWeights(scores, avg)) as real
            <= 131.0 / 24.0 * (|scores| as real) + Damped(SumReal(Positive(scores)), avg)
  {
    var raw, d := RawWeights(scores, avg), DampedScores(Positive(scores), avg);
    forall k | k in raw ensures raw[k] as real <= 131.0 / 24.0 + if k in d then d[k] else 0.0 {
      RawBelowLine(scores[k], avg);
    }
    SumBelow(raw, d);
    DampedSum(Positive(scores), avg);
    assert raw.Keys == scores.Keys;
    assert |raw| == |scores|;
  }

  lemma DampedAdd(x: real, y: real, avg: real)
    requires avg > 0.0
    ensures Damped(x + y, avg) == Damped(x, avg) + Damped(y, avg)
  {
    DivAdd(x, y, avg);
  }

  lemma DivAdd(x: real, y: real, avg: real)
    requires avg > 0.0
    ensures (x + y) / avg == x / avg + y / avg
  {
  }

  /** Dividing the sum of the positive scores by their mean gives their number. */
  lemma SumOverAverage(scores: map<string, real>)
    requires Positive(scores) != map[]
    ensures SumReal(Positive(scores)) / Average(scores) == |Positive(scores)| as real
    ensures 0 < |Positive(scores)| <= |scores|
  {
    SumRealPositive(Positive(scores));
    NotZero(Positive(scores));
    assert Positive(scores).Keys <= scores.Keys;
    Fewer(Positive(scores).Keys, scores.Keys);
    DivTwice(SumReal(Positive(scores)), |Positive(scores)| as real);
  }

  lemma Fewer(a: set<string>, b: set<string>)
    requires a <= b
    ensures |a| <= |b|
  {
    assert b == a + (b - a);
  }

  lemma DivTwice(s: real, n: real)
    requires s > 0.0 && n > 0.0
    ensures s / n > 0.0 && s / (s / n) == n
  {
  }

  /** Before rescaling, `n` weights sum to at most 131/24 n plus 55/3 for each
      positive score: less than 24 n in all. */
  lemma RawSumPerScore(scores: map<string, real>)
    requires Positive(scores) != map[]
    ensures Sum(RawWeights(scores, Average(scores))) as real
            <= 131.0 / 24.0 * (|scores| as real) + 55.0 / 3.0 * (|Positive(scores)| as real)
    ensures 0 < |Positive(scores)| <= |scores|
    ensures Sum(RawWeights(scores, Average(scores))) < 24 * |scores|
  {
    RawSumBelowLine(scores, Average(scores));
    SumOverAverage(scores);
  }

  /** The outcome of a full reweighting over `n` active paths: the weights sum to
      between 101-n and 100, and a better score never gets a smaller weight. */
  lemma FullReweighting(scores: map<string, real>)
    requires Positive(scores) != map[]
    ensures FinalWeights(scores).Keys == scores.Keys
    ensures TARGET + 1 - |scores| <= Sum(FinalWeights(scores)) <= TARGET
    ensures forall j, k :: j in scores && k in scores && scores[j] <= scores[k]
              ==> 0 <= FinalWeights(scores)[j] <= FinalWeights(scores)[k]
  {
    var avg := Average(scores);
    var raw := RawWeights(scores, avg);
    RawSumPositive(scores, avg);
    assert raw.Keys == scores.Keys;
    assert |raw| == |scores|;
    RescaledSum(raw);
    forall j, k | j in scores && k in scores && scores[j] <= scores[k]
      ensures 0 <= FinalWeights(scores)[j] <= FinalWeights(scores)[k]
    {
      RawMonotone(scores[j], scores[k], avg);
      ScalingMonotone(raw[j], raw[k], Sum(raw));
    }
  }

  /** With at most 21 active paths nobody is starved. */
  lemma NobodyStarved(scores: map<string, real>)
    requires Positive(scores) != map[] && |scores| <= 21
    ensures forall k :: k in scores ==> FinalWeights(scores)[k] >= 1
  {
    var avg := Average(scores);
    var raw := RawWeights(scores, avg);
    RawSumPositive(scores, avg);
    RawSumPerScore(scores);
    assert Sum(raw) <= 500;
    forall k | k in scores ensures FinalWeights(scores)[k] >= 1 {
      DivMod(raw[k] * TARGET, Sum(raw));
      if raw[k] * TARGET / Sum(raw) <= 0 {
        MulMonotone(0, 1, Sum(raw));
        NonPositive(raw[k] * TARGET / Sum(raw), Sum(raw));
        assert false;
      }
    }
  }

  lemma NonPositive(q: int, t: int)
    requires q <= 0 && t > 0
    ensures q * t <= 0
  {
  }
}
