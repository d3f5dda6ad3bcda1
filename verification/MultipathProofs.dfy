/** What the multipath scheduler keeps over whole runs, and how traffic is shared. */
module MultipathProofs {
  import opened Multipath
  import opened Proportion
  import opened Slices
  import Starvation
  import opened Sums
  import opened WeightMath
  import opened WeightedPick
  import opened Wrappers

  // ----- One reweighting ---------------------------------------------------

  /** A weighted-mode update that leaves the path active reweights everything:
      inactive paths get nothing, the active ones share 101-n to 100 points in
      the order of their scores, and the cached total is exactly their sum. */
  lemma UpdateReweights(s: State, name: string, score: real, latency: real, loss: real, bandwidth: int)
    requires s.mode == Weighted && name in s.paths && score > 0.0 && loss < 50.0
    ensures var t := Apply(s, Op.UpdatePath(name, score, latency, loss, bandwidth));
            && t.paths.Keys == s.paths.Keys && t.paths[name].active && t.paths[name].score == score
            && WellShared(t)
  {
    var t := s.(paths := s.paths[name := Updated(s.paths[name], score, latency, loss, bandwidth)]);
    assert name in t.paths && t.paths[name].active && t.paths[name].score > 0.0;
    ReweightedShares(t);
  }

  ghost predicate WellShared(t: State) {
    var n := |ActiveWeights(t.paths)|;
    && (forall k :: k in t.paths && !t.paths[k].active ==> t.paths[k].weight == 0)
    && TARGET + 1 - n <= ActiveSum(t.paths) <= TARGET
    && t.totalWeight == ActiveSum(t.paths)
    && (forall j, k :: BothActive(t.paths, j, k) && t.paths[j].score <= t.paths[k].score
          ==> t.paths[j].weight <= t.paths[k].weight)
    && (n <= 21 ==> forall k :: k in t.paths && t.paths[k].active ==> t.paths[k].weight >= 1)
  }

  ghost predicate BothActive(paths: Paths, j: string, k: string) {
    j in paths && k in paths && paths[j].active && paths[k].active
  }

  /** The reweighted paths carry the final weights and their old scores. */
  lemma ReweightedEntries(paths: Paths)
    requires Scored(paths)
    ensures Positive(ActiveScores(paths)) != map[]
    ensures ActiveWeights(Reweighted(paths)) == FinalWeights(ActiveScores(paths))
    ensures ActiveScores(Reweighted(paths)) == ActiveScores(paths)
    ensures |ActiveWeights(Reweighted(paths))| == |ActiveScores(paths)|
  {
    ScoredPositive(paths);
    FullReweighting(ActiveScores(paths));
    hide FinalWeights, Positive;
    var final := FinalWeights(ActiveScores(paths));
    EntriesReplaced(paths, Reweighted(paths), final);
    SameSize(final, ActiveScores(paths));
  }

  lemma EntriesReplaced(paths: Paths, after: Paths, final: map<string, int>)
    requires after.Keys == paths.Keys && final.Keys == ActiveScores(paths).Keys
    requires forall k :: k in paths ==> after[k] == paths[k].(weight := after[k].weight)
    requires forall k :: k in paths && paths[k].active ==> k in final && after[k].weight == final[k]
    ensures ActiveWeights(after) == final && ActiveScores(after) == ActiveScores(paths)
  {
  }

  lemma SameSize(a: map<string, int>, b: map<string, real>)
    requires a.Keys == b.Keys
    ensures |a| == |b|
  {
    assert |a| == |a.Keys| && |b| == |b.Keys|;
  }

  lemma ReweightedShares(s: State)
    requires Scored(s.paths)
    ensures WellShared(Adjusted(s))
  {
    var scores, after := ActiveScores(s.paths), Reweighted(s.paths);
    ReweightedEntries(s.paths);
    FullReweighting(scores);
    if |scores| <= 21 {
      NobodyStarved(scores);
    }
    forall k | k in after && after[k].active
      ensures k in scores && after[k].score == scores[k] && after[k].weight == FinalWeights(scores)[k]
    {
      assert ActiveScores(after)[k] == scores[k];
      assert ActiveWeights(after)[k] == after[k].weight;
    }
    forall j, k | BothActive(after, j, k) && after[j].score <= after[k].score
      ensures after[j].weight <= after[k].weight
    {
      assert scores[j] <= scores[k];
    }
  }

  // ----- Weights in proportion to scores --------------------------------------

  /** The mean the scores are measured by: that of the active paths with a positive one. */
  ghost function MeanScore(paths: Paths): (mean: real)
    requires Scored(paths)
    ensures mean > 0.0
  {
    ScoredPositive(paths);
    Average(ActiveScores(paths))
  }

  lemma MeanScoreIs(paths: Paths)
    requires Scored(paths)
    ensures var scores := map k | k in paths && paths[k].active && paths[k].score > 0.0 :: paths[k].score;
            |scores| > 0 && MeanScore(paths) == SumReal(scores) / |scores| as real
  {
    ScoredPositive(paths);
    var scores := map k | k in paths && paths[k].active && paths[k].score > 0.0 :: paths[k].score;
    assert scores == Positive(ActiveScores(paths));
    NotZero(scores);
  }

  /** The paths whose weights an update is about to compute. */
  ghost function Resampled(s: State, name: string, score: real, latency: real, loss: real, bandwidth: int): Paths
    requires name in s.paths
  {
    s.paths[name := Updated(s.paths[name], score, latency, loss, bandwidth)]
  }

  /** `raw` are the weights before rescaling, and `t` carries them in percent. */
  ghost predicate NearestWeights(t: Paths, mean: real, raw: map<string, int>)
    requires mean > 0.0
  {
    && (forall k :: k in raw <==> k in t && t[k].active)
    && (forall k :: k in raw ==> Nearest(20.0 * t[k].score / mean, raw[k]))
    && (forall k :: k in raw ==> t[k].weight * Sum(raw) <= 100 * raw[k] < (t[k].weight + 1) * Sum(raw))
  }

  lemma ReweightedNearest(before: Paths)
    requires Scored(before)
    ensures Scored(Reweighted(before)) && MeanScore(Reweighted(before)) == MeanScore(before)
    ensures NearestWeights(Reweighted(before), MeanScore(before), RawWeights(ActiveScores(before), MeanScore(before)))
  {
    ReweightedEntries(before);
    var t, scores := Reweighted(before), ActiveScores(before);
    var raw := RawWeights(scores, Average(scores));
    ScoredPositive(t);
    hide Reweighted, Average, RawWeight, FinalWeights, Nearest, Positive, Percent;
    forall k ensures k in raw <==> k in t && t[k].active {
      assert k in raw <==> k in ActiveScores(t);
    }
    forall k | k in raw
      ensures Nearest(Point(t[k].score, Average(scores)), raw[k]) && Percent(t[k].weight, raw[k], Sum(raw))
    {
      NearestEntry(t, scores, k);
    }
    NearestByEntry(t, Average(scores), raw);
  }

  lemma NearestByEntry(t: Paths, mean: real, raw: map<string, int>)
    requires mean > 0.0 && forall k :: k in raw <==> k in t && t[k].active
    requires forall k :: k in raw ==> Nearest(Point(t[k].score, mean), raw[k]) && Percent(t[k].weight, raw[k], Sum(raw))
    ensures NearestWeights(t, mean, raw)
  {
    hide Nearest;
  }

  lemma NearestEntry(t: Paths, scores: map<string, real>, k: string)
    requires Positive(scores) != map[] && ActiveScores(t) == scores && ActiveWeights(t) == FinalWeights(scores)
    requires k in scores
    ensures k in t && t[k].active && t[k].score == scores[k]
    ensures Nearest(Point(t[k].score, Average(scores)), RawWeights(scores, Average(scores))[k])
    ensures var raw := RawWeights(scores, Average(scores)); Percent(t[k].weight, raw[k], Sum(raw))
  {
    assert k in ActiveScores(t) && k in ActiveWeights(t);
    assert ActiveWeights(t)[k] == t[k].weight;
    hide Average, RawWeight, FinalWeights, Nearest, Point, Percent;
    RawNearest(scores[k], Average(scores));
    FinalPercentage(scores, k);
  }

  /** After a weighted update with a good sample: with x twenty times a path's score over
      the mean, its raw weight is 5 when x is below 5.5, 60 when x is at least 59.5, and
      the nearest integer between; its weight is the raw weight as a percentage of all raw
      weights, rounded down. */
  lemma UpdateNearest(s: State, name: string, score: real, latency: real, loss: real, bandwidth: int)
    returns (raw: map<string, int>)
    requires s.mode == Weighted && name in s.paths && score > 0.0 && loss < 50.0
    ensures var t := Apply(s, Op.UpdatePath(name, score, latency, loss, bandwidth)).paths;
            Scored(t) && NearestWeights(t, MeanScore(t), raw)
  {
    var before := Resampled(s, name, score, latency, loss, bandwidth);
    assert name in before && before[name].active && before[name].score > 0.0;
    ReweightedNearest(before);
    raw := RawWeights(ActiveScores(before), MeanScore(before));
    assert Apply(s, Op.UpdatePath(name, score, latency, loss, bandwidth)).paths == Reweighted(before);
    hide Apply, Reweighted, NearestWeights, MeanScore;
  }

  /** No active score lies below 5.5 or from 59.5 twentieths of the mean. */
  ghost predicate NoneClamped(t: Paths, mean: real)
    requires mean > 0.0
  {
    forall k :: k in t && t[k].active ==> 5.5 <= 20.0 * t[k].score / mean < 59.5
  }

  lemma ReweightedProportional(before: Paths, k: string)
    requires Scored(before) && NoneClamped(Reweighted(before), MeanScore(before))
    requires k in before && before[k].active
    ensures var t, scores := Reweighted(before), ActiveScores(Reweighted(before));
            && |scores| > 0 && SumReal(scores) > 0.0
            && Within(t[k].weight as real, t[k].score / SumReal(scores), |scores| as real, 2.6)
  {
    ReweightedEntries(before);
    var t, scores := Reweighted(before), ActiveScores(before);
    assert k in scores;
    hide Reweighted, Average, FinalWeights, Within, Positive, NoneClamped, Unclamped;
    UnclampedScores(t, scores, Average(scores));
    ProportionalEntry(t, scores, k);
  }

  lemma UnclampedScores(t: Paths, scores: map<string, real>, mean: real)
    requires mean > 0.0 && ActiveScores(t) == scores && NoneClamped(t, mean)
    ensures Unclamped(scores, mean)
  {
    forall j | j in scores ensures 5.5 <= 20.0 * scores[j] / mean < 59.5 {
      assert j in ActiveScores(t);
    }
  }

  /** After such an update with no score clamped, each of the `n` active paths has a weight
      within a point, and 2.6 times the average share and its own, of its score's share of
      the active scores in percent. */
  lemma UpdateProportional(
    s: State, name: string, score: real, latency: real, loss: real, bandwidth: int, k: string)
    requires s.mode == Weighted && name in s.paths && score > 0.0 && loss < 50.0
    requires var t := Apply(s, Op.UpdatePath(name, score, latency, loss, bandwidth)).paths;
             Scored(t) && NoneClamped(t, MeanScore(t)) && k in t && t[k].active
    ensures var t := Apply(s, Op.UpdatePath(name, score, latency, loss, bandwidth)).paths;
            var n, sum := |ActiveScores(t)|, SumReal(ActiveScores(t));
            n > 0 && sum > 0.0 && Within(t[k].weight as real, t[k].score / sum, n as real, 2.6)
  {
    var before := Resampled(s, name, score, latency, loss, bandwidth);
    assert name in before && before[name].active && before[name].score > 0.0;
    assert Apply(s, Op.UpdatePath(name, score, latency, loss, bandwidth)).paths == Reweighted(before);
    ReweightedNearest(before);
    assert k in before && before[k].active;
    hide Apply, Reweighted, MeanScore, Within, NoneClamped;
    ReweightedProportional(before, k);
  }

  lemma ProportionalEntry(t: Paths, scores: map<string, real>, k: string)
    requires Positive(scores) != map[] && ActiveScores(t) == scores && ActiveWeights(t) == FinalWeights(scores)
    requires k in scores && Unclamped(scores, Average(scores))
    ensures k in t && t[k].active && t[k].score == scores[k] && |scores| > 0 && SumReal(scores) > 0.0
    ensures Within(t[k].weight as real, t[k].score / SumReal(scores), |scores| as real, 2.6)
  {
    assert k in ActiveScores(t) && k in ActiveWeights(t);
    assert ActiveWeights(t)[k] == t[k].weight;
    hide Average, FinalWeights, Within, Unclamped;
    NearScoreShares(scores, k);
  }

  // ----- The cached total over runs ----------------------------------------

  /** In weighted mode the cached total never falls below the active weights, and
      it is exact while some active path has a positive score. */
  ghost predicate CacheSound(s: State) {
    s.mode == Weighted ==>
      && ActiveSum(s.paths) <= s.totalWeight
      && (Scored(s.paths) ==> s.totalWeight == ActiveSum(s.paths))
  }

  lemma ApplyKeepsCache(s: State, op: Op)
    requires CacheSound(s)
    ensures CacheSound(Apply(s, op))
  {
    match op
    case UpdatePath(name, score, latency, loss, bandwidth) =>
      if name in s.paths && s.mode == Weighted {
        var p := Updated(s.paths[name], score, latency, loss, bandwidth);
        var t := s.(paths := s.paths[name := p]);
        if !Scored(t.paths) {
          assert name in t.paths && !p.active;
          SumSubmap(ActiveWeights(t.paths), ActiveWeights(s.paths));
        }
      }
    case AddPath(_, _, _) =>
    case RemovePath(_) =>
    case SetActive(_, _) =>
    case SetMode(_) =>
  }

  lemma {:induction false} RunKeepsCache(s: State, ops: seq<Op>)
    requires CacheSound(s)
    ensures CacheSound(Run(s, ops))
    decreases |ops|
  {
    if ops != [] {
      ApplyKeepsCache(s, ops[0]);
      RunKeepsCache(Apply(s, ops[0]), ops[1..]);
    }
  }

  /** Every state a sequence of calls can reach from a new scheduler, whatever
      modes it passed through. */
  lemma ReachableCacheSound(ops: seq<Op>)
    ensures CacheSound(Run(INITIAL, ops))
  {
    assert ActiveWeights(INITIAL.paths) == map[];
    RunKeepsCache(INITIAL, ops);
  }

  /** The cached total can really be stale: after the only scored path drops out,
      the early return keeps its weight in the total. */
  lemma StaleTotalReachable() returns (ops: seq<Op>)
    ensures var s := Run(INITIAL, ops);
            s.mode == Weighted && ActiveSum(s.paths) == 0 && s.totalWeight == 10
  {
    ops := [Op.AddPath("a", "a", 10), Op.SetActive("a", true), Op.UpdatePath("a", 0.0, 0.0, 0.0, 0)];
    var s1 := Apply(INITIAL, ops[0]);
    var s2 := Apply(s1, ops[1]);
    var s3 := Apply(s2, ops[2]);
    SumAdd(map[], "a", 10);
    assert ActiveWeights(s2.paths) == map["a" := 10];
    assert !Scored(s3.paths);
    assert ActiveWeights(s3.paths) == map[];
    assert ops[1..][1..] == [ops[2]] && [ops[2]][1..] == [];
    assert Run(s1, ops[1..]) == Run(s2, [ops[2]]) == Run(s3, []);
  }

  // ----- When the total is stale -------------------------------------------

  ghost predicate Stale(s: State) {
    s.totalWeight != ActiveSum(s.paths)
  }

  /** The sample keeps its path active. */
  predicate GoodSample(score: real, loss: real) {
    score > 0.0 && loss < 50.0
  }

  /** Some active path other than `name` has a positive score. */
  ghost predicate OtherScored(paths: Paths, name: string) {
    exists k :: k in paths && k != name && paths[k].active && paths[k].score > 0.0
  }

  /** The update that makes the total stale: it takes an active path with some weight
      out of use while no other active path has a positive score. */
  ghost predicate DropsLastScored(s: State, op: Op) {
    match op
    case UpdatePath(name, score, _, loss, _) =>
      && s.mode == Weighted && name in s.paths && s.paths[name].active && s.paths[name].weight > 0
      && !GoodSample(score, loss) && !OtherScored(s.paths, name)
    case _ => false
  }

  /** The calls that recompute the total. */
  ghost predicate Recomputes(s: State, op: Op) {
    match op
    case AddPath(_, _, _) => true
    case RemovePath(_) => true
    case SetMode(_) => true
    case SetActive(name, _) => name in s.paths
    case UpdatePath(name, score, _, loss, _) =>
      s.mode == Weighted && name in s.paths && (GoodSample(score, loss) || OtherScored(s.paths, name))
  }

  /** What an update takes from or adds to the active weights before reweighting. */
  lemma UpdatedSum(paths: Paths, name: string, p: PathState)
    requires name in paths && p.weight == paths[name].weight
    ensures ActiveSum(paths[name := p]) + (if paths[name].active then p.weight else 0)
            == ActiveSum(paths) + (if p.active then p.weight else 0)
  {
    var before, after := ActiveWeights(paths), ActiveWeights(paths[name := p]);
    assert before - {name} == after - {name};
    if paths[name].active {
      SumTake(before, name);
    } else {
      assert before - {name} == before;
    }
    if p.active {
      SumTake(after, name);
    } else {
      assert after - {name} == after;
    }
  }

  /** In weighted mode a call leaves the total stale exactly if it drops the last
      scored path's weight, or the total was stale and the call does not recompute it. */
  lemma StaleAfterCall(s: State, op: Op)
    requires s.mode == Weighted && ActiveSum(s.paths) <= s.totalWeight
    ensures Stale(Apply(s, op)) <==> DropsLastScored(s, op) || (Stale(s) && !Recomputes(s, op))
  {
    match op
    case UpdatePath(name, score, latency, loss, bandwidth) =>
      if name in s.paths {
        var p := Updated(s.paths[name], score, latency, loss, bandwidth);
        var t := s.(paths := s.paths[name := p]);
        StillScored(s.paths, name, p);
        UpdatedSum(s.paths, name, p);
        assert p.active <==> GoodSample(score, loss);
      }
    case AddPath(_, _, _) =>
    case RemovePath(_) =>
    case SetActive(_, _) =>
    case SetMode(_) =>
  }

  lemma StillScored(paths: Paths, name: string, p: PathState)
    requires name in paths && (p.active ==> p.score > 0.0)
    ensures Scored(paths[name := p]) <==> p.active || OtherScored(paths, name)
  {
    var after := paths[name := p];
    if p.active {
      assert after[name].active && after[name].score > 0.0;
    }
    if OtherScored(paths, name) {
      var k :| k in paths && k != name && paths[k].active && paths[k].score > 0.0;
      assert after[k].active && after[k].score > 0.0;
    }
    if Scored(after) && !p.active {
      var k :| k in after && after[k].active && after[k].score > 0.0;
      assert k != name && paths[k].active;
    }
  }

  /** An exact total goes stale exactly by the one update that takes the last scored
      path, with some weight, out of use. */
  lemma GoesStaleExactly(s: State, name: string, score: real, latency: real, loss: real, bandwidth: int)
    requires s.mode == Weighted && !Stale(s)
    ensures Stale(Apply(s, Op.UpdatePath(name, score, latency, loss, bandwidth))) <==>
      && name in s.paths && s.paths[name].active && s.paths[name].weight > 0
      && !GoodSample(score, loss) && !OtherScored(s.paths, name)
  {
    StaleAfterCall(s, Op.UpdatePath(name, score, latency, loss, bandwidth));
  }

  /** Some call of the run dropped the last scored path, and none since recomputed. */
  ghost predicate StaleSince(ops: seq<Op>) {
    exists i :: 0 <= i < |ops| && DropsLastScored(Run(INITIAL, ops[..i]), ops[i])
      && forall j :: i < j < |ops| ==> !Recomputes(Run(INITIAL, ops[..j]), ops[j])
  }

  lemma {:induction false} RunSnoc(s: State, ops: seq<Op>, op: Op)
    ensures Run(s, ops + [op]) == Apply(Run(s, ops), op)
    decreases |ops|
  {
    if ops == [] {
      assert [op][1..] == [];
      assert ops + [op] == [op];
      assert Run(Apply(s, op), []) == Apply(s, op);
    } else {
      assert (ops + [op])[1..] == ops[1..] + [op];
      RunSnoc(Apply(s, ops[0]), ops[1..], op);
    }
  }

  lemma StaleSinceSnoc(ops: seq<Op>, op: Op)
    ensures var s := Run(INITIAL, ops);
            StaleSince(ops + [op]) <==> DropsLastScored(s, op) || (StaleSince(ops) && !Recomputes(s, op))
  {
    hide DropsLastScored, Recomputes, Run;
    if DropsLastScored(Run(INITIAL, ops), op) || (StaleSince(ops) && !Recomputes(Run(INITIAL, ops), op)) {
      StaleStays(ops, op);
    }
    if StaleSince(ops + [op]) && !DropsLastScored(Run(INITIAL, ops), op) {
      StaleBefore(ops, op);
    }
  }

  lemma Longer(ops: seq<Op>, op: Op)
    ensures (ops + [op])[|ops|] == op && (ops + [op])[..|ops|] == ops
    ensures forall i :: 0 <= i < |ops| ==> (ops + [op])[i] == ops[i] && (ops + [op])[..i] == ops[..i]
  {
  }

  lemma StaleStays(ops: seq<Op>, op: Op)
    requires var s := Run(INITIAL, ops); DropsLastScored(s, op) || (StaleSince(ops) && !Recomputes(s, op))
    ensures StaleSince(ops + [op])
  {
    hide DropsLastScored, Recomputes, Run;
    var more, n, s := ops + [op], |ops|, Run(INITIAL, ops);
    Longer(ops, op);
    if DropsLastScored(s, op) {
      assert DropsLastScored(Run(INITIAL, more[..n]), more[n]);
    } else {
      var i :| 0 <= i < n && DropsLastScored(Run(INITIAL, ops[..i]), ops[i])
        && forall j :: i < j < n ==> !Recomputes(Run(INITIAL, ops[..j]), ops[j]);
      assert DropsLastScored(Run(INITIAL, more[..i]), more[i]);
      assert forall j :: i < j < |more| ==> !Recomputes(Run(INITIAL, more[..j]), more[j]);
    }
  }

  lemma StaleBefore(ops: seq<Op>, op: Op)
    requires StaleSince(ops + [op]) && !DropsLastScored(Run(INITIAL, ops), op)
    ensures StaleSince(ops) && !Recomputes(Run(INITIAL, ops), op)
  {
    hide DropsLastScored, Recomputes, Run;
    var more, n := ops + [op], |ops|;
    Longer(ops, op);
    var i :| 0 <= i < |more| && DropsLastScored(Run(INITIAL, more[..i]), more[i])
      && forall j :: i < j < |more| ==> !Recomputes(Run(INITIAL, more[..j]), more[j]);
    assert DropsLastScored(Run(INITIAL, ops[..i]), ops[i]);
    assert !Recomputes(Run(INITIAL, more[..n]), more[n]);
    assert forall j :: i < j < n ==> !Recomputes(Run(INITIAL, ops[..j]), ops[j]);
  }

  /** In a reachable weighted state the total is stale exactly if some update took the
      last scored path's weight out of use, and no call since then recomputed: the
      staleness lasts until the next AddPath, RemovePath, SetMode, SetActive of a known
      path, or weighted update after which some active path has a positive score. */
  lemma {:induction false} StaleExactlySince(ops: seq<Op>)
    requires Run(INITIAL, ops).mode == Weighted
    ensures Stale(Run(INITIAL, ops)) <==> StaleSince(ops)
    decreases |ops|
  {
    if ops == [] {
      assert ActiveWeights(INITIAL.paths) == map[];
    } else {
      var front, op := ops[..|ops| - 1], ops[|ops| - 1];
      var s := Run(INITIAL, front);
      assert ops == front + [op];
      RunSnoc(INITIAL, front, op);
      StaleSinceSnoc(front, op);
      if s.mode == Weighted {
        ReachableCacheSound(front);
        StaleExactlySince(front);
        StaleAfterCall(s, op);
      } else {
        assert op.SetMode?;
      }
    }
  }

  // ----- When selection divides by zero ---------------------------------------

  /** Two calls reach a weighted state with an active path and a total of zero, where
      SelectPath divides by zero. */
  lemma DivideByZeroReachable() returns (ops: seq<Op>)
    ensures ops == [Op.AddPath("a", "a", 0), Op.SetActive("a", true)]
    ensures var s := Run(INITIAL, ops);
            s.mode == Weighted && "a" in ActiveScores(s.paths) && s.totalWeight == 0
  {
    ops := [Op.AddPath("a", "a", 0), Op.SetActive("a", true)];
    var s1 := Apply(INITIAL, ops[0]);
    var s2 := Apply(s1, ops[1]);
    assert ops[1..] == [ops[1]] && [ops[1]][1..] == [];
    assert Run(INITIAL, ops) == Run(s1, [ops[1]]) == Run(s2, []) == s2;
    SumAdd(map[], "a", 0);
    assert ActiveWeights(s2.paths) == map["a" := 0];
  }

  lemma {:induction false} NoWeightLeft(weights: map<string, nat>)
    ensures Sum(weights) >= 0
    ensures Sum(weights) == 0 <==> forall k :: k in weights ==> weights[k] == 0
  {
    ZeroSum(weights);
  }

  /** In a reachable weighted state SelectPath's divisor is zero exactly if every active
      path has a weight of zero and the total is not stale. */
  lemma ZeroTotalExactly(ops: seq<Op>)
    requires Run(INITIAL, ops).mode == Weighted
    ensures var s := Run(INITIAL, ops);
            s.totalWeight == 0 <==>
              !StaleSince(ops) && forall k :: k in s.paths && s.paths[k].active ==> s.paths[k].weight == 0
  {
    var s := Run(INITIAL, ops);
    hide Run, Apply, StaleSince;
    ReachableCacheSound(ops);
    StaleExactlySince(ops);
    NoWeightLeft(ActiveWeights(s.paths));
    assert forall k :: k in s.paths && s.paths[k].active ==> ActiveWeights(s.paths)[k] == s.paths[k].weight;
  }

  /** After a weighted update with a good sample the total is positive as long as at
      most a hundred paths are active, so SelectPath does not divide by zero. */
  lemma GoodUpdateSelectable(s: State, name: string, score: real, latency: real, loss: real, bandwidth: int)
    requires s.mode == Weighted && name in s.paths && GoodSample(score, loss)
    ensures var t := Apply(s, Op.UpdatePath(name, score, latency, loss, bandwidth));
            |ActiveWeights(t.paths)| <= 100 ==> t.totalWeight > 0
  {
    UpdateReweights(s, name, score, latency, loss, bandwidth);
  }

  /** With equal scores a hundred is the limit: a good update leaves a total of zero,
      and SelectPath dividing by it, exactly if more than a hundred paths are active. */
  lemma EqualScoresSelectable(s: State, name: string, v: real, latency: real, loss: real, bandwidth: int)
    requires s.mode == Weighted && name in s.paths && GoodSample(v, loss)
    requires forall k :: k in s.paths && k != name && s.paths[k].active ==> s.paths[k].score == v
    ensures var t := Apply(s, Op.UpdatePath(name, v, latency, loss, bandwidth));
            t.totalWeight == 0 <==> |ActiveWeights(t.paths)| > 100
  {
    var paths := s.paths[name := Updated(s.paths[name], v, latency, loss, bandwidth)];
    assert name in paths && paths[name].active && paths[name].score > 0.0;
    ReweightedEntries(paths);
    assert name in ActiveScores(paths);
    Starvation.EqualScores(ActiveScores(paths), v);
  }

  // ----- What is known of a path -------------------------------------------------

  datatype Known = Known(kind: string, score: real, latency: real, loss: real, bandwidth: int, active: bool)

  /** What a run of calls leaves known of one path: its own calls alone decide. */
  function LastKnown(ops: seq<Op>, name: string): Option<Known> {
    if ops == [] then None
    else
      var before := LastKnown(ops[..|ops| - 1], name);
      match ops[|ops| - 1]
      case AddPath(n, kind, _) => if n == name then Some(Known(kind, 0.0, 0.0, 0.0, 0, false)) else before
      case RemovePath(n) => if n == name then None else before
      case UpdatePath(n, score, latency, loss, bandwidth) =>
        if n == name && before.Some?
        then Some(Known(before.value.kind, score, latency, loss, bandwidth, score > 0.0 && loss < 50.0))
        else before
      case SetActive(n, active) =>
        if n == name && before.Some? then Some(before.value.(active := active)) else before
      case SetMode(_) => before
  }

  ghost predicate Carries(paths: Paths, name: string, known: Option<Known>) {
    match known
    case None => name !in paths
    case Some(v) =>
      && name in paths && paths[name].kind == v.kind && paths[name].score == v.score
      && paths[name].latency == v.latency && paths[name].loss == v.loss
      && paths[name].bandwidth == v.bandwidth && paths[name].active == v.active
  }

  lemma AdjustingKeepsKnown(s: State, name: string, known: Option<Known>)
    requires Carries(s.paths, name, known)
    ensures Carries(Adjusted(s).paths, name, known)
  {
    if Scored(s.paths) {
      ScoredPositive(s.paths);
      FullReweighting(ActiveScores(s.paths));
    }
  }

  /** After any run, a path is there and has the kind, score, latency, loss, bandwidth and
      activity that its own last calls gave it, whatever became of the others. */
  lemma {:induction false} RunCarries(ops: seq<Op>, name: string)
    ensures Carries(Run(INITIAL, ops).paths, name, LastKnown(ops, name))
    decreases |ops|
  {
    if ops != [] {
      var front, op := ops[..|ops| - 1], ops[|ops| - 1];
      RunCarries(front, name);
      assert ops == front + [op];
      RunSnoc(INITIAL, front, op);
      var s := Run(INITIAL, front);
      match op
      case UpdatePath(n, score, latency, loss, bandwidth) =>
        if n in s.paths {
          var t := s.(paths := s.paths[n := Updated(s.paths[n], score, latency, loss, bandwidth)]);
          AdjustingKeepsKnown(t, name, LastKnown(ops, name));
        }
      case AddPath(_, _, _) =>
      case RemovePath(_) =>
      case SetActive(_, _) =>
      case SetMode(_) =>
    }
  }

  /** So the path lowest-latency or lowest-loss selection returns after a run is one whose
      last sample has the least latency or loss among the active ones. */
  lemma SelectionAfterRun(ops: seq<Op>, best: string, other: string)
    requires var paths := Run(INITIAL, ops).paths;
             best in paths && paths[best].active && other in paths && paths[other].active
    ensures var paths, b, o := Run(INITIAL, ops).paths, LastKnown(ops, best), LastKnown(ops, other);
            && b.Some? && o.Some? && b.value.active && o.value.active
            && (paths[best].latency <= paths[other].latency <==> b.value.latency <= o.value.latency)
            && (paths[best].loss <= paths[other].loss <==> b.value.loss <= o.value.loss)
  {
    RunCarries(ops, best);
    RunCarries(ops, other);
  }

  // ----- Weighted selection --------------------------------------------------

  lemma TotalAlong(paths: Paths, order: seq<string>)
    requires Enumerates(order, ActiveScores(paths).Keys)
    ensures forall k :: k in order ==> k in paths
    ensures Total(WeightsAlong(paths, order)) == ActiveSum(paths)
  {
    var m := ActiveWeights(paths);
    assert m.Keys == ActiveScores(paths).Keys;
    assert forall i :: 0 <= i < |order| ==> order[i] in order;
    EnumerationTotal(m, order);
    assert WeightsAlong(paths, order) == seq(|order|, i requires 0 <= i < |order| => m[order[i]]);
  }

  /** With an exact positive total, whatever order the map yields: exactly Weight
      of the totalWeight residues select each path, no path of weight zero is ever
      selected, and no residue reaches the trailing fallback. */
  lemma ExactShares(paths: Paths, order: seq<string>, total: nat)
    requires Enumerates(order, ActiveScores(paths).Keys) && total == ActiveSum(paths) > 0
    ensures order != [] && forall k :: k in order ==> k in paths
    ensures var ws := WeightsAlong(paths, order);
            && (forall i :: 0 <= i < |order| ==> Hits(ws, total, 0, total, i) == paths[order[i]].weight)
            && (forall r :: 0 <= r < total ==> paths[order[Pick(ws, r)]].weight > 0)
            && (forall r :: 0 <= r < total ==> r < Total(ws[..Pick(ws, r) + 1]))
  {
    TotalAlong(paths, order);
    var ws := WeightsAlong(paths, order);
    assert ws[..|ws|] == ws;
    forall i | 0 <= i < |order| ensures Hits(ws, total, 0, total, i) == paths[order[i]].weight {
      HitsFullCycle(ws, total, i);
    }
    forall r: nat | r < total
      ensures paths[order[Pick(ws, r)]].weight > 0 && r < Total(ws[..Pick(ws, r) + 1])
    {
      ZeroWeightNeverPicked(ws, r);
      PickInterval(ws, r, Pick(ws, r));
    }
  }

  /** With a stale total the surplus goes to whichever path the map yields last;
      every other path still has exactly its weight. */
  lemma StaleShares(paths: Paths, order: seq<string>, total: nat, i: nat)
    requires Enumerates(order, ActiveScores(paths).Keys) && total >= ActiveSum(paths) && total > 0
    requires i < |order|
    ensures forall k :: k in order ==> k in paths
    ensures Hits(WeightsAlong(paths, order), total, 0, total, i)
            == paths[order[i]].weight + if i == |order| - 1 then total - ActiveSum(paths) else 0
  {
    TotalAlong(paths, order);
    HitsFullCycle(WeightsAlong(paths, order), total, i);
  }

  /** Any totalWeight consecutive clock ticks share out a reachable scheduler's
      traffic exactly by weight while some active path has a positive score. */
  lemma ReachableShares(ops: seq<Op>, order: seq<string>, start: nat, i: nat)
    requires var s := Run(INITIAL, ops);
             && s.mode == Weighted && Scored(s.paths) && s.totalWeight > 0
             && Enumerates(order, ActiveScores(s.paths).Keys) && i < |order|
    ensures var s := Run(INITIAL, ops);
            && (forall k :: k in order ==> k in s.paths)
            && Hits(WeightsAlong(s.paths, order), s.totalWeight, start, s.totalWeight, i)
               == s.paths[order[i]].weight
  {
    var s := Run(INITIAL, ops);
    ReachableCacheSound(ops);
    TotalAlong(s.paths, order);
    HitsWindow(WeightsAlong(s.paths, order), s.totalWeight, start, i);
  }
}
