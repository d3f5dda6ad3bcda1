/** How close the rescaled weights come to the proportions of the scores. */
module Proportion {
  import opened Arithmetic
  import opened Sums
  import opened WeightMath

  /** Where the weight of a score sits before rounding and clamping. */
  function Point(score: real, mean: real): real
    requires mean > 0.0
  {
    20.0 * score / mean
  }

  /** `w` is 5 below 5.5, 60 from 59.5 on, and otherwise the integer nearest to `x`, halves
      going up. */
  predicate Nearest(x: real, w: int) {
    if x < 5.5 then w == 5
    else if x >= 59.5 then w == 60
    else w as real - 0.5 <= x < w as real + 0.5
  }

  lemma RawNearest(score: real, mean: real)
    requires mean > 0.0
    ensures Nearest(Point(score, mean), RawWeight(score, mean))
  {
    assert 20.0 * score / mean == score / mean * 20.0;
  }

  /** That leaves one weight only. */
  lemma NearestUnique(x: real, v: int, w: int)
    requires Nearest(x, v) && Nearest(x, w)
    ensures v == w
  {
  }

  /** The points cut off at 5 and 60. */
  function Cut(x: real): real {
    if x < 5.0 then 5.0 else if x > 60.0 then 60.0 else x
  }

  function CutPoints(scores: map<string, real>, mean: real): map<string, real>
    requires mean > 0.0
  {
    map k | k in scores :: Cut(Point(scores[k], mean))
  }

  lemma RawNearCut(score: real, mean: real)
    requires mean > 0.0
    ensures var c, w := Cut(Point(score, mean)), RawWeight(score, mean) as real;
            c - 0.5 <= w <= c + 0.5 && 5.0 <= c <= 60.0 && 5.0 <= w <= 60.0
  {
    RawNearest(score, mean);
  }

  /** Entries within a half of each other have sums within a half per entry. */
  lemma {:induction false} SumsNear(w: map<string, int>, c: map<string, real>)
    requires w.Keys == c.Keys && forall k :: k in w ==> c[k] - 0.5 <= w[k] as real <= c[k] + 0.5
    ensures SumReal(c) - 0.5 * |w| as real <= Sum(w) as real <= SumReal(c) + 0.5 * |w| as real
    decreases |w|
  {
    if w == map[] {
      assert c == map[];
    } else {
      var k :| k in w;
      Drop(w, k);
      SumTake(w, k);
      SumRealTake(c, k);
      SumsNear(w - {k}, c - {k});
      assert |w| as real == |w - {k}| as real + 1.0;
    }
  }

  lemma {:induction false} SumAtLeast(c: map<string, real>, least: real)
    requires forall k :: k in c ==> c[k] >= least
    ensures SumReal(c) >= Times(|c|, least)
    decreases |c|
  {
    if c != map[] {
      var k :| k in c;
      Drop(c, k);
      SumRealTake(c, k);
      SumAtLeast(c - {k}, least);
    }
  }

  function Times(n: nat, x: real): real {
    if n == 0 then 0.0 else Times(n - 1, x) + x
  }

  // ----- One weight against its share ------------------------------------------------------

  /** `f` is `r` as a percentage of `s`, rounded down. */
  predicate Percent(f: int, r: int, s: int) {
    f * s <= 100 * r < (f + 1) * s
  }

  predicate PercentReal(f: real, r: real, s: real) {
    f * s <= 100.0 * r < (f + 1.0) * s
  }

  predicate ShareOf(q: real, c: real, total: real) {
    q * total == c
  }

  /** `f` percent of `s` is off the share `q` by half a weight for each of one entry and
      `q` of all `n`. */
  predicate Nearly(f: real, q: real, s: real, n: real) {
    100.0 * q * s - 50.0 - 50.0 * q * n - s < f * s <= 100.0 * q * s + 50.0 + 50.0 * q * n
  }

  /** `f` percent is off the share `q` by less than a point and `factor` times the average
      share and `q`. */
  predicate Within(f: real, q: real, n: real, factor: real)
    requires n > 0.0
  {
    -1.0 - factor * (1.0 / n + q) < f - 100.0 * q <= factor * (1.0 / n + q)
  }

  /** Sums of at least `m` per entry, where `factor` is what 50 divided by `m` allows. */
  predicate Allows(s: real, n: real, m: real, factor: real) {
    m > 0.0 && factor > 0.0 && s >= n * m && m * factor >= 50.0
  }

  lemma InReals(f: int, r: int, s: int)
    requires Percent(f, r, s)
    ensures PercentReal(f as real, r as real, s as real)
  {
    assert (f * s) as real == f as real * s as real;
    assert ((f + 1) * s) as real == (f + 1) as real * s as real;
  }

  /** `r` is the rounded and `c` the exact numerator, `s` and `total` their sums over `n`
      entries. */
  lemma NearShare(f: real, r: real, c: real, s: real, total: real, n: real, q: real)
    requires c - 0.5 <= r <= c + 0.5 && total - 0.5 * n <= s <= total + 0.5 * n
    requires q >= 0.0 && ShareOf(q, c, total) && PercentReal(f, r, s)
    ensures Nearly(f, q, s, n)
  {
    Scale(q, total - 0.5 * n, s);
    Scale(q, s, total + 0.5 * n);
    assert q * (total - 0.5 * n) == c - 0.5 * (q * n);
    assert q * (total + 0.5 * n) == c + 0.5 * (q * n);
  }

  lemma Scale(q: real, a: real, b: real)
    requires q >= 0.0 && a <= b
    ensures q * a <= q * b
  {
  }

  lemma ShareBound(f: real, q: real, s: real, n: real, m: real, factor: real)
    requires s > 0.0 && n >= 1.0 && q >= 0.0 && Allows(s, n, m, factor) && Nearly(f, q, s, n)
    ensures Within(f, q, n, factor)
  {
    var e, slack := factor * (1.0 / n + q), 50.0 + 50.0 * q * n;
    Error(s, n, m, q, factor);
    Expand(f, q, s);
    OnceMore(f - 100.0 * q, s);
    Between(f - 100.0 * q, s, e, slack);
  }

  lemma Expand(f: real, q: real, s: real)
    ensures s * (f - 100.0 * q) == f * s - 100.0 * q * s
  {
  }

  lemma OnceMore(d: real, s: real)
    ensures s * (d + 1.0) == s * d + s
  {
  }

  lemma Between(d: real, s: real, e: real, slack: real)
    requires s > 0.0 && s * d <= slack <= s * e && s * (d + 1.0) > -slack
    ensures -1.0 - e < d <= e
  {
    if d + 1.0 <= -e {
      Scale(s, d + 1.0, -e);
      Negate(s, e);
      assert false;
    }
  }

  lemma Negate(s: real, e: real)
    ensures s * -e == -(s * e)
  {
  }

  lemma Error(s: real, n: real, m: real, q: real, factor: real)
    requires n >= 1.0 && q >= 0.0 && Allows(s, n, m, factor)
    ensures s * (factor * (1.0 / n + q)) >= 50.0 + 50.0 * q * n
  {
    var v := 1.0 / n + q;
    assert v > 0.0;
    assert n * (1.0 / n) == 1.0;
    assert n * v == 1.0 + n * q;
    Positives(factor, v);
    Scale(factor * v, n * m, s);
    assert (n * m) * (factor * v) == (n * v) * (m * factor);
    Positives(n, v);
    Scale(n * v, 50.0, m * factor);
  }

  lemma NearBound(f: int, r: int, c: real, s: int, total: real, n: real, q: real, m: real, factor: real)
    requires c - 0.5 <= r as real <= c + 0.5 && total - 0.5 * n <= s as real <= total + 0.5 * n
    requires s > 0 && n >= 1.0 && q >= 0.0 && ShareOf(q, c, total)
    requires Percent(f, r, s) && Allows(s as real, n, m, factor)
    ensures Within(f as real, q, n, factor)
  {
    hide Percent, PercentReal, ShareOf, Allows, Nearly, Within;
    InReals(f, r, s);
    NearShare(f as real, r as real, c, s as real, total, n, q);
    ShareBound(f as real, q, s as real, n, m, factor);
  }

  lemma Positives(u: real, v: real)
    requires u > 0.0 && v > 0.0
    ensures u * v > 0.0
  {
  }

  // ----- The final weights -----------------------------------------------------------------

  lemma Percentage(raw: map<string, int>, k: string, total: int)
    requires total > 0 && k in raw && raw[k] >= 0
    ensures k in Scaled(raw, total) && Percent(Scaled(raw, total)[k], raw[k], total)
  {
    var f := Scaled(raw, total)[k];
    DivMod(raw[k] * 100, total);
    Distribute(f, 1, total);
  }

  /** What the parts of a reweighting come to: raw weights near the cut points, and sums
      near each other. */
  lemma Parts(scores: map<string, real>)
    requires Positive(scores) != map[]
    ensures var mean := Average(scores);
            var raw, c := RawWeights(scores, mean), CutPoints(scores, mean);
            && raw.Keys == scores.Keys == c.Keys && |raw| == |scores| > 0
            && (forall k :: k in scores ==> c[k] - 0.5 <= raw[k] as real <= c[k] + 0.5 && c[k] >= 5.0)
            && SumReal(c) - 0.5 * |scores| as real <= Sum(raw) as real <= SumReal(c) + 0.5 * |scores| as real
            && Sum(raw) as real >= 5.0 * |scores| as real && SumReal(c) >= 5.0 * |scores| as real
  {
    PositiveSize(scores);
    var mean := Average(scores);
    hide Average, Positive;
    PartsNear(scores, mean);
    PartsSums(RawWeights(scores, mean), CutPoints(scores, mean), |scores|);
  }

  lemma PartsNear(scores: map<string, real>, mean: real)
    requires mean > 0.0
    ensures var raw, c := RawWeights(scores, mean), CutPoints(scores, mean);
            && raw.Keys == scores.Keys == c.Keys && |raw| == |scores| == |c|
            && forall k :: k in raw ==> c[k] - 0.5 <= raw[k] as real <= c[k] + 0.5 && c[k] >= 5.0 && 5 <= raw[k] <= 60
  {
    var raw, c := RawWeights(scores, mean), CutPoints(scores, mean);
    assert raw.Keys == scores.Keys == c.Keys;
    assert |raw| == |raw.Keys| && |c| == |c.Keys| && |scores| == |scores.Keys|;
    forall k | k in raw
      ensures c[k] - 0.5 <= raw[k] as real <= c[k] + 0.5 && c[k] >= 5.0 && 5 <= raw[k] <= 60
    {
      RawNearCut(scores[k], mean);
    }
  }

  lemma PartsSums(raw: map<string, int>, c: map<string, real>, n: nat)
    requires raw.Keys == c.Keys && |raw| == |c| == n
    requires forall k :: k in raw ==>
      c[k] - 0.5 <= raw[k] as real <= c[k] + 0.5 && c[k] >= 5.0 && 5 <= raw[k] <= 60
    ensures SumReal(c) - 0.5 * n as real <= Sum(raw) as real <= SumReal(c) + 0.5 * n as real
    ensures Sum(raw) as real >= 5.0 * n as real && SumReal(c) >= 5.0 * n as real
  {
    hide SumReal, Sum;
    SumsNear(raw, c);
    FiveEach(raw);
    SumAtLeast(c, 5.0);
    FiveTimes(n);
  }

  lemma FiveEach(raw: map<string, int>)
    requires forall k :: k in raw ==> 5 <= raw[k] <= 60
    ensures Sum(raw) >= 5 * |raw|
  {
    SumBounds(raw, 5, 60);
  }

  lemma {:induction false} FiveTimes(n: nat)
    ensures Times(n, 5.0) == 5.0 * n as real
  {
    if n > 0 {
      FiveTimes(n - 1);
    }
  }

  lemma PositiveSize(scores: map<string, real>)
    requires Positive(scores) != map[]
    ensures |scores| > 0
  {
    var k :| k in Positive(scores);
    assert k in scores;
  }

  lemma FinalPercentage(scores: map<string, real>, k: string)
    requires Positive(scores) != map[] && k in scores
    ensures k in FinalWeights(scores)
    ensures var raw := RawWeights(scores, Average(scores)); Percent(FinalWeights(scores)[k], raw[k], Sum(raw))
  {
    var raw := RawWeights(scores, Average(scores));
    RawSumPositive(scores, Average(scores));
    RawNearCut(scores[k], Average(scores));
    assert raw[k] >= 0;
    hide Average, RawWeight, Scaled, Percent;
    Percentage(raw, k, Sum(raw));
  }

  lemma Dividing(c: real, total: real)
    requires total > 0.0 && c >= 0.0
    ensures c / total >= 0.0 && ShareOf(c / total, c, total)
  {
  }

  lemma FivePerEntry(n: real, s: real)
    requires s >= 5.0 * n
    ensures Allows(s, n, 5.0, 10.0)
  {
  }

  /** Every final weight is within a point, and ten times the average share and its own,
      of its share of the cut points. */
  lemma NearCutShares(scores: map<string, real>, k: string)
    requires Positive(scores) != map[] && k in scores
    ensures var c := CutPoints(scores, Average(scores));
            |scores| > 0 && SumReal(c) > 0.0 && k in FinalWeights(scores)
            && Within(FinalWeights(scores)[k] as real, c[k] / SumReal(c), |scores| as real, 10.0)
  {
    Parts(scores);
    FinalPercentage(scores, k);
    var mean, n := Average(scores), |scores| as real;
    var raw, c := RawWeights(scores, mean), CutPoints(scores, mean);
    hide Average, RawWeights, CutPoints, FinalWeights, Positive, Percent, Within, ShareOf, Allows;
    Dividing(c[k], SumReal(c));
    FivePerEntry(n, Sum(raw) as real);
    NearBound(FinalWeights(scores)[k], raw[k], c[k], Sum(raw), SumReal(c), n, c[k] / SumReal(c), 5.0, 10.0);
  }

  function Points(scores: map<string, real>, mean: real): map<string, real>
    requires mean > 0.0
  {
    map k | k in scores :: Point(scores[k], mean)
  }

  lemma {:induction false} PointsSum(scores: map<string, real>, mean: real)
    requires mean > 0.0
    ensures SumReal(Points(scores, mean)) == Point(SumReal(scores), mean)
    decreases |scores|
  {
    hide Point;
    var points := Points(scores, mean);
    if scores == map[] {
      assert points == map[];
      PointOfZero(mean);
    } else {
      var k :| k in scores;
      Drop(scores, k);
      SumRealTake(scores, k);
      SumRealTake(points, k);
      assert points - {k} == Points(scores - {k}, mean);
      PointsSum(scores - {k}, mean);
      PointAdd(scores[k], SumReal(scores - {k}), mean);
    }
  }

  lemma PointOfZero(mean: real)
    requires mean > 0.0
    ensures Point(0.0, mean) == 0.0
  {
  }

  lemma PointAdd(x: real, y: real, mean: real)
    requires mean > 0.0
    ensures Point(x + y, mean) == Point(x, mean) + Point(y, mean)
  {
    DivAdd(20.0 * x, 20.0 * y, mean);
  }

  /** No score is clamped: all lie between 5.5 and 59.5 twentieths of the mean. */
  ghost predicate Unclamped(scores: map<string, real>, mean: real)
    requires mean > 0.0
  {
    forall k :: k in scores ==> 5.5 <= Point(scores[k], mean) < 59.5
  }

  lemma UnclampedSums(scores: map<string, real>)
    requires Positive(scores) != map[] && Unclamped(scores, Average(scores))
    ensures Positive(scores) == scores && SumReal(scores) > 0.0
    ensures IsMean(Average(scores), SumReal(scores), |scores| as real)
    ensures CutPoints(scores, Average(scores)) == Points(scores, Average(scores))
    ensures SumReal(CutPoints(scores, Average(scores))) == 20.0 * |scores| as real
  {
    var mean := Average(scores);
    UnclampedPoints(scores, mean);
    PositiveSize(scores);
    AverageIsMean(scores);
    SumRealPositive(scores);
    PointsSum(scores, mean);
    hide Average, Point, Points, CutPoints, Unclamped, Positive, IsMean;
    WholePoint(SumReal(scores), |scores| as real, mean);
  }

  lemma UnclampedPoints(scores: map<string, real>, mean: real)
    requires mean > 0.0 && Unclamped(scores, mean)
    ensures Positive(scores) == scores && forall k :: k in scores ==> scores[k] > 0.0
    ensures CutPoints(scores, mean) == Points(scores, mean)
  {
    forall k | k in scores ensures scores[k] > 0.0 && Cut(Point(scores[k], mean)) == Point(scores[k], mean) {
      PositivePoint(scores[k], mean);
    }
  }

  lemma AverageIsMean(scores: map<string, real>)
    requires Positive(scores) == scores != map[]
    ensures IsMean(Average(scores), SumReal(scores), |scores| as real)
  {
    hide Positive, SumReal, IsMean;
    NotZero(scores);
    QuotientIsMean(SumReal(scores), |scores| as real);
    assert Average(scores) == SumReal(scores) / |scores| as real;
  }

  lemma QuotientIsMean(sum: real, n: real)
    requires n > 0.0
    ensures IsMean(sum / n, sum, n)
  {
  }

  predicate IsMean(mean: real, sum: real, n: real) {
    mean * n == sum
  }

  lemma PositivePoint(score: real, mean: real)
    requires mean > 0.0 && Point(score, mean) > 0.0
    ensures score > 0.0
  {
    if score <= 0.0 {
      DivMonotone(20.0 * score, 0.0, mean);
      assert false;
    }
  }

  lemma WholePoint(sum: real, n: real, mean: real)
    requires mean > 0.0 && IsMean(mean, sum, n)
    ensures Point(sum, mean) == 20.0 * n
  {
    assert 20.0 * n * mean == 20.0 * sum;
    DividesTo(20.0 * sum, mean, 20.0 * n);
  }

  lemma ShareOfPoints(score: real, sum: real, n: real, mean: real, c: real, total: real)
    requires sum > 0.0 && score >= 0.0 && mean > 0.0 && IsMean(mean, sum, n)
    requires c == Point(score, mean) && total == 20.0 * n
    ensures score / sum >= 0.0 && ShareOf(score / sum, c, total)
  {
    var q := score / sum;
    assert q * sum == score;
    assert q * (20.0 * n) * mean == 20.0 * (q * (mean * n));
    DividesTo(20.0 * score, mean, q * (20.0 * n));
  }

  lemma DividesTo(a: real, b: real, r: real)
    requires b > 0.0 && r * b == a
    ensures a / b == r
  {
  }

  lemma NineteenPerEntry(n: real, s: real)
    requires n >= 1.0 && s >= 20.0 * n - 0.5 * n
    ensures Allows(s, n, 19.5, 2.6)
  {
  }

  /** With no score clamped, every final weight is within a point, and 2.6 times the
      average share and its own, of its score's share of all scores in percent. */
  lemma NearScoreShares(scores: map<string, real>, k: string)
    requires Positive(scores) != map[] && k in scores && Unclamped(scores, Average(scores))
    ensures |scores| > 0 && SumReal(scores) > 0.0 && k in FinalWeights(scores)
    ensures Within(FinalWeights(scores)[k] as real, scores[k] / SumReal(scores), |scores| as real, 2.6)
  {
    Parts(scores);
    FinalPercentage(scores, k);
    UnclampedShare(scores, k);
    var mean, n := Average(scores), |scores| as real;
    var raw, c := RawWeights(scores, mean), CutPoints(scores, mean);
    hide Average, RawWeights, CutPoints, FinalWeights, Positive, Percent, Within, ShareOf, Allows, Unclamped;
    NineteenPerEntry(n, Sum(raw) as real);
    NearBound(
      FinalWeights(scores)[k], raw[k], c[k], Sum(raw), SumReal(c), n, scores[k] / SumReal(scores), 19.5, 2.6);
  }

  lemma UnclampedShare(scores: map<string, real>, k: string)
    requires Positive(scores) != map[] && k in scores && Unclamped(scores, Average(scores))
    ensures SumReal(scores) > 0.0 && scores[k] / SumReal(scores) >= 0.0
    ensures var c := CutPoints(scores, Average(scores));
            SumReal(c) == 20.0 * |scores| as real && ShareOf(scores[k] / SumReal(scores), c[k], SumReal(c))
  {
    UnclampedSums(scores);
    UnclampedEntry(scores, k);
    hide Average, CutPoints, Positive, ShareOf, Point, Points, Unclamped, IsMean, SumReal;
    var c := CutPoints(scores, Average(scores));
    ShareOfPoints(scores[k], SumReal(scores), |scores| as real, Average(scores), c[k], SumReal(c));
  }

  lemma UnclampedEntry(scores: map<string, real>, k: string)
    requires Positive(scores) == scores && scores != map[] && k in scores && Unclamped(scores, Average(scores))
    ensures scores[k] > 0.0 && CutPoints(scores, Average(scores))[k] == Point(scores[k], Average(scores))
  {
    assert k in Positive(scores);
    hide Average, Point;
  }
}
