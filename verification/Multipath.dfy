/** The multipath scheduler (internal/multipath/multipath.go): per-path weights
    derived from scores, and the cached total that weighted selection divides by. */
module Multipath {
  import Proportion
  import opened Slices
  import opened Sums
  import opened WeightMath
  import opened WeightedPick

  datatype PathState = PathState(
    name: string, kind: string, score: real, latency: real, loss: real,
    weight: nat, active: bool, bandwidth: int)

  datatype Mode = Weighted | LowestLatency | LowestLoss | Even | All

  /** SelectPath returns a path, or nil, or divides by a zero total. */
  datatype Selection = NoPath | Chosen(name: string) | DivideByZero

  type Paths = map<string, PathState>

  /** How often and when the route was last switched. */
  datatype Stats = Stats(failoverCount: nat, lastSwitch: int)

  // ----- What the methods compute ------------------------------------------

  datatype State = State(paths: Paths, totalWeight: int, mode: Mode)

  datatype Op =
    | AddPath(name: string, kind: string, weight: nat)
    | RemovePath(name: string)
    | UpdatePath(name: string, score: real, latency: real, loss: real, bandwidth: int)
    | SetActive(name: string, active: bool)
    | SetMode(mode: Mode)

  ghost function ActiveWeightsIn(paths: Paths, seen: set<string>): map<string, nat> {
    map k | k in seen && k in paths && paths[k].active :: paths[k].weight
  }

  ghost function ActiveWeights(paths: Paths): map<string, nat> {
    ActiveWeightsIn(paths, paths.Keys)
  }

  ghost function ActiveSum(paths: Paths): int {
    Sum(ActiveWeights(paths))
  }

  ghost function ActiveScores(paths: Paths): map<string, real> {
    map k | k in paths && paths[k].active :: paths[k].score
  }

  ghost function PositiveIn(paths: Paths, seen: set<string>): map<string, real> {
    map k | k in seen && k in paths && paths[k].active && paths[k].score > 0.0 :: paths[k].score
  }

  ghost predicate NamedByKey(paths: Paths) {
    forall k :: k in paths ==> paths[k].name == k
  }

  /** Some active path has a positive score. */
  ghost predicate Scored(paths: Paths) {
    exists k :: k in paths && paths[k].active && paths[k].score > 0.0
  }

  lemma ScoredPositive(paths: Paths)
    ensures Scored(paths) <==> Positive(ActiveScores(paths)) != map[]
    ensures PositiveIn(paths, paths.Keys) == Positive(ActiveScores(paths))
  {
    if Scored(paths) {
      var k :| k in paths && paths[k].active && paths[k].score > 0.0;
      assert k in Positive(ActiveScores(paths));
    }
  }

  ghost function Reweighted(paths: Paths): Paths
    requires Scored(paths)
  {
    ScoredPositive(paths);
    FullReweighting(ActiveScores(paths));
    assert forall k :: k in paths && paths[k].active ==> ActiveScores(paths)[k] <= ActiveScores(paths)[k];
    map k | k in paths ::
      paths[k].(weight := if paths[k].active then FinalWeights(ActiveScores(paths))[k] else 0)
  }

  ghost function Recalculated(s: State): State {
    s.(totalWeight := ActiveSum(s.paths))
  }

  ghost function Adjusted(s: State): State {
    if Scored(s.paths) then Recalculated(s.(paths := Reweighted(s.paths))) else s
  }

  function Updated(p: PathState, score: real, latency: real, loss: real, bandwidth: int): PathState {
    p.(score := score, latency := latency, loss := loss, bandwidth := bandwidth,
       active := score > 0.0 && loss < 50.0)
  }

  ghost function Apply(s: State, op: Op): State {
    match op
    case AddPath(name, kind, weight) =>
      Recalculated(s.(paths := s.paths[name := PathState(name, kind, 0.0, 0.0, 0.0, weight, false, 0)]))
    case RemovePath(name) =>
      Recalculated(s.(paths := s.paths - {name}))
    case UpdatePath(name, score, latency, loss, bandwidth) =>
      if name !in s.paths then s
      else
        var t := s.(paths := s.paths[name := Updated(s.paths[name], score, latency, loss, bandwidth)]);
        if s.mode == Weighted then Adjusted(t) else t
    case SetActive(name, active) =>
      if name !in s.paths then s
      else Recalculated(s.(paths := s.paths[name := s.paths[name].(active := active)]))
    case SetMode(mode) =>
      Recalculated(s.(mode := mode))
  }

  ghost function Run(s: State, ops: seq<Op>): State
    decreases |ops|
  {
    if ops == [] then s else Run(Apply(s, ops[0]), ops[1..])
  }

  const INITIAL := State(map[], 0, Weighted)

  /** No call gives a path another name than its key. */
  lemma ApplyKeepsNames(s: State, op: Op)
    requires NamedByKey(s.paths)
    ensures NamedByKey(Apply(s, op).paths)
    ensures op.UpdatePath? ==> Apply(s, op).paths.Keys == s.paths.Keys
  {
  }

  // ----- The scheduler object ----------------------------------------------

  class Scheduler {
    var paths: Paths
    var totalWeight: int
    var mode: Mode
    var stats: Stats

    ghost function View(): State
      reads this
    {
      State(paths, totalWeight, mode)
    }

    constructor ()
      ensures View() == INITIAL && stats == Stats(0, 0)
    {
      paths, totalWeight, mode, stats := map[], 0, Weighted, Stats(0, 0);
    }

    method SetMode(mode: Mode)
      modifies this
      ensures View() == Apply(old(View()), Op.SetMode(mode)) && stats == old(stats)
      ensures this.mode == mode && paths == old(paths)
    {
      this.mode := mode;
      Recalculate();
    }

    method AddPath(name: string, kind: string, weight: nat)
      modifies this
      ensures View() == Apply(old(View()), Op.AddPath(name, kind, weight)) && stats == old(stats)
      ensures name in paths && paths - {name} == old(paths) - {name}
      ensures paths[name].name == name && paths[name].kind == kind && paths[name].weight == weight
      ensures !paths[name].active && paths[name].score == paths[name].latency == paths[name].loss == 0.0
    {
      paths := paths[name := PathState(name, kind, 0.0, 0.0, 0.0, weight, false, 0)];
      Recalculate();
    }

    method RemovePath(name: string)
      modifies this
      ensures View() == Apply(old(View()), Op.RemovePath(name)) && stats == old(stats)
      ensures paths == old(paths) - {name}
    {
      paths := paths - {name};
      Recalculate();
    }

    method UpdatePath(name: string, score: real, latency: real, loss: real, bandwidth: int)
      modifies this
      ensures View() == Apply(old(View()), Op.UpdatePath(name, score, latency, loss, bandwidth))
      ensures stats == old(stats) && paths.Keys == old(paths.Keys)
      ensures name in paths ==>
        && paths[name].active == (score > 0.0 && loss < 50.0)
        && paths[name].score == score && paths[name].latency == latency && paths[name].loss == loss
        && paths[name].bandwidth == bandwidth && paths[name].kind == old(paths)[name].kind
      ensures forall k :: k in paths && k != name ==> paths[k] == old(paths)[k].(weight := paths[k].weight)
      ensures mode != Weighted ==> forall k :: k in paths ==> paths[k].weight == old(paths)[k].weight
    {
      if name !in paths {
        return;
      }
      paths := paths[name := Updated(paths[name], score, latency, loss, bandwidth)];
      if mode == Weighted {
        AdjustWeights();
      }
    }

    method SetActive(name: string, active: bool)
      modifies this
      ensures View() == Apply(old(View()), Op.SetActive(name, active)) && stats == old(stats)
      ensures paths.Keys == old(paths.Keys) && (name in paths ==> paths[name].active == active)
      ensures forall k :: k in paths && k != name ==> paths[k] == old(paths)[k]
    {
      if name in paths {
        paths := paths[name := paths[name].(active := active)];
        Recalculate();
      }
    }

    method RecordFailover(now: int)
      modifies this
      ensures View() == old(View()) && stats == Stats(old(stats.failoverCount) + 1, now)
    {
      stats := stats.(failoverCount := stats.failoverCount + 1);
      stats := stats.(lastSwitch := now);
    }

    method ActiveTotal() returns (total: int)
      ensures total == ActiveSum(paths)
    {
      total := 0;
      var todo := paths.Keys;
      ghost var seen: set<string> := {};
      while todo != {}
        invariant seen !! todo && seen + todo == paths.Keys
        invariant total == Sum(ActiveWeightsIn(paths, seen))
        decreases |todo|
      {
        var k :| k in todo;
        ActiveStep(paths, seen, k);
        if paths[k].active {
          total := total + paths[k].weight;
        }
        todo, seen := todo - {k}, seen + {k};
      }
      assert seen == paths.Keys;
    }

    method Recalculate()
      modifies this
      ensures View() == Recalculated(old(View())) && stats == old(stats)
    {
      var total := ActiveTotal();
      totalWeight := total;
    }

    method AdjustWeights()
      modifies this
      ensures View() == Adjusted(old(View())) && stats == old(stats)
    {
      ghost var before := paths;
      var activeCount, totalScore := MeanInputs();
      ScoredPositive(paths);
      if activeCount == 0 || totalScore == 0.0 {
        ScoreTotalZero(paths);
        return;
      }
      var avgScore := totalScore / activeCount as real;
      SumRealPositive(Positive(ActiveScores(paths)));
      assert avgScore == Average(ActiveScores(paths));
      AssignRaw(avgScore);
      RawAssigned(before, paths, avgScore);
      Recalculate();
      if totalWeight > 0 {
        Rescale();
      }
      assert paths == Reweighted(before);
      Recalculate();
    }

    /** The first loop: how many active paths have a positive score, and their total. */
    method MeanInputs() returns (activeCount: nat, totalScore: real)
      ensures activeCount == |PositiveIn(paths, paths.Keys)|
      ensures totalScore == SumReal(PositiveIn(paths, paths.Keys))
    {
      hide PositiveIn;
      activeCount, totalScore := 0, 0.0;
      var all, todo := paths, paths.Keys;
      ghost var seen: set<string> := {};
      PositiveNone(all, seen);
      while todo != {}
        invariant seen !! todo && seen + todo == all.Keys
        invariant activeCount == |PositiveIn(all, seen)|
        invariant totalScore == SumReal(PositiveIn(all, seen))
        decreases |todo|
      {
        var k :| k in todo;
        PositiveStep(all, seen, k);
        if all[k].active && all[k].score > 0.0 {
          activeCount, totalScore := activeCount + 1, totalScore + all[k].score;
        }
        todo, seen := todo - {k}, seen + {k};
      }
      assert seen == all.Keys;
    }

    /** The second loop: ratio, round and clamp in place. */
    method AssignRaw(avgScore: real)
      requires avgScore > 0.0
      modifies this
      ensures paths == WithRaw(old(paths), avgScore)
      ensures forall k :: k in paths ==>
        if paths[k].active then Proportion.Nearest(Proportion.Point(paths[k].score, avgScore), paths[k].weight)
        else paths[k].weight == 0
      ensures totalWeight == old(totalWeight) && mode == old(mode) && stats == old(stats)
    {
      ghost var before := paths;
      var todo := paths.Keys;
      while todo != {}
        invariant paths.Keys == before.Keys && todo <= paths.Keys
        invariant forall j :: j in paths ==> paths[j] == if j in todo then before[j] else RawEntry(before[j], avgScore)
        invariant forall j :: j in paths && j !in todo ==> RawIsNearest(paths[j], avgScore)
        invariant totalWeight == old(totalWeight) && mode == old(mode) && stats == old(stats)
        decreases |todo|
      {
        var k :| k in todo;
        todo := todo - {k};
        var p := paths[k];
        if !p.active {
          paths := paths[k := p.(weight := 0)];
          continue;
        }
        var w := RawFor(p.score, avgScore);
        paths := paths[k := p.(weight := w)];
      }
    }

    static method RawFor(score: real, avgScore: real) returns (w: int)
      requires avgScore > 0.0
      ensures w == RawWeight(score, avgScore) >= MIN_WEIGHT
      ensures Proportion.Nearest(Proportion.Point(score, avgScore), w)
    {
      var ratio := score / avgScore;
      w := Round(ratio * 20.0);
      if w < MIN_WEIGHT {
        w := MIN_WEIGHT;
      }
      if w > MAX_WEIGHT {
        w := MAX_WEIGHT;
      }
      Proportion.RawNearest(score, avgScore);
    }

    /** The third loop: rescale every weight by the total of the active ones. */
    method Rescale()
      requires totalWeight > 0
      modifies this
      ensures paths == WithRescaled(old(paths), old(totalWeight))
      ensures totalWeight == old(totalWeight) && mode == old(mode) && stats == old(stats)
    {
      ghost var before, total := paths, totalWeight;
      var todo := paths.Keys;
      while todo != {}
        invariant paths.Keys == before.Keys && todo <= paths.Keys
        invariant forall j :: j in paths ==>
          paths[j] == if j in todo then before[j] else RescaledEntry(before[j], total)
        invariant totalWeight == total && mode == old(mode) && stats == old(stats)
        decreases |todo|
      {
        var k :| k in todo;
        todo := todo - {k};
        ScalingMonotone(paths[k].weight, paths[k].weight, totalWeight);
        paths := paths[k := paths[k].(weight := Quotient(paths[k].weight * TARGET, totalWeight))];
      }
    }

    /** The active paths, in whatever order the map yields them. */
    method CollectActive() returns (active: seq<string>)
      ensures Enumerates(active, ActiveScores(paths).Keys)
      ensures forall k :: k in active <==> k in paths && paths[k].active
    {
      active := [];
      var todo := paths.Keys;
      while todo != {}
        invariant todo <= paths.Keys && Distinct(active)
        invariant forall k :: k in active <==> k in paths && paths[k].active && k !in todo
        decreases |todo|
      {
        var k :| k in todo;
        todo := todo - {k};
        if paths[k].active {
          assert forall i :: 0 <= i < |active| ==> active[i] in active;
          active := active + [k];
        }
      }
    }

    /** `millis` and `nanos` are the clock readings the source takes. */
    method SelectPath(millis: nat, nanos: nat) returns (r: Selection, active: seq<string>)
      ensures Enumerates(active, ActiveScores(paths).Keys)
      ensures forall k :: k in active <==> k in paths && paths[k].active
      ensures r == NoPath <==> active == []
      ensures r.Chosen? ==> r.name in paths && paths[r.name].active
      ensures active != [] && mode == LowestLatency ==>
        r.Chosen? && forall k :: k in active ==> paths[r.name].latency <= paths[k].latency
      ensures active != [] && mode == LowestLoss ==>
        r.Chosen? && forall k :: k in active ==> paths[r.name].loss <= paths[k].loss
      ensures active != [] && mode == Even ==> r == Chosen(active[millis % |active|])
      ensures active != [] && mode == All ==> r == Chosen(active[0])
      ensures active != [] && mode == Weighted ==>
        r == if totalWeight == 0 then DivideByZero
             else Chosen(active[Pick(WeightsAlong(paths, active), nanos % totalWeight)])
    {
      active := CollectActive();
      if |active| == 0 {
        return NoPath, active;
      }
      assert forall i :: 0 <= i < |active| ==> active[i] in active;
      match mode {
        case LowestLatency =>
          var entries := ByLatency(paths, active);
          var first := FirstByKey(entries);
          forall k | k in active ensures first.key <= paths[k].latency {
            var i :| 0 <= i < |active| && active[i] == k;
            assert entries[i] in entries;
          }
          r := Chosen(first.name);
        case LowestLoss =>
          var entries := ByLoss(paths, active);
          var first := FirstByKey(entries);
          forall k | k in active ensures first.key <= paths[k].loss {
            var i :| 0 <= i < |active| && active[i] == k;
            assert entries[i] in entries;
          }
          r := Chosen(first.name);
        case Even =>
          r := Chosen(active[millis % |active|]);
        case All =>
          r := Chosen(active[0]);
        case Weighted =>
          if totalWeight == 0 {
            return DivideByZero, active;
          }
          var i := SearchWeight(active, nanos % totalWeight);
          r := Chosen(active[i]);
      }
    }

    /** The cumulative search of the default mode, with its trailing fallback. */
    method SearchWeight(active: seq<string>, r: nat) returns (i: nat)
      requires |active| > 0 && forall k :: k in active ==> k in paths
      ensures i == Pick(WeightsAlong(paths, active), r)
    {
      ghost var ws := WeightsAlong(paths, active);
      var cumulative := 0;
      for j := 0 to |active|
        invariant cumulative == Total(ws[..j]) && cumulative <= r
      {
        assert active[j] in active;
        PickInterval(ws, r, j);
        TotalAppend(ws, j);
        cumulative := cumulative + paths[active[j]].weight;
        if r < cumulative {
          return j;
        }
      }
      assert ws[..|ws| - 1 + 1] == ws;
      TotalAppend(ws, |ws| - 1);
      PickInterval(ws, r, |ws| - 1);
      return |active| - 1;
    }

    /** The weights of the active paths, by name. */
    method Distribution() returns (result: map<string, nat>)
      requires NamedByKey(paths)
      ensures result == ActiveWeights(paths)
      ensures forall k :: k in result <==> k in paths && paths[k].active
      ensures forall k :: k in result ==> result[k] == paths[k].weight
    {
      result := map[];
      var todo := paths.Keys;
      while todo != {}
        invariant todo <= paths.Keys
        invariant forall k :: k in result <==> k in paths && paths[k].active && k !in todo
        invariant forall k :: k in result ==> result[k] == paths[k].weight
        decreases |todo|
      {
        var k :| k in todo;
        todo := todo - {k};
        if paths[k].active {
          result := result[paths[k].name := paths[k].weight];
        }
      }
    }

    method BestPath() returns (best: Selection)
      ensures best == NoPath || best.Chosen?
      ensures best == NoPath <==> forall k :: k in paths ==> !paths[k].active
      ensures best.Chosen? ==> best.name in paths && paths[best.name].active
      ensures best.Chosen? ==>
        forall k :: k in paths && paths[k].active ==> paths[k].score <= paths[best.name].score
    {
      best := NoPath;
      var todo := paths.Keys;
      while todo != {}
        invariant todo <= paths.Keys
        invariant best.Chosen? ==> best.name in paths && paths[best.name].active
        invariant best == NoPath || best.Chosen?
        invariant forall k :: k in paths && k !in todo && paths[k].active ==>
          best.Chosen? && paths[k].score <= paths[best.name].score
        decreases |todo|
      {
        var k :| k in todo;
        todo := todo - {k};
        if !paths[k].active {
          continue;
        }
        if best == NoPath || paths[k].score > paths[best.name].score {
          best := Chosen(k);
        }
      }
    }

    /** All active paths, best score first. */
    method RankActive() returns (sorted: seq<Keyed>)
      ensures Ascending(sorted) && Enumerates(Names(sorted), ActiveScores(paths).Keys)
      ensures forall k :: k in Names(sorted) <==> k in paths && paths[k].active
      ensures forall x :: x in sorted ==> x.name in ActiveScores(paths) && x.key == -paths[x.name].score
    {
      var active := CollectActive();
      assert forall k :: k in active ==> k in ActiveScores(paths);
      hide *;
      sorted := SortByKey(ByScoreDescending(paths, active));
      RankedFacts(paths, active, sorted);
      RankedNames(paths, sorted);
    }

    /** The `count` active paths with the best scores, best first, and the others. With
        a negative count, for which the source slices out of range, `ok` is false. */
    method SelectPaths(count: int) returns (ok: bool, top: seq<Keyed>, rest: seq<Keyed>)
      ensures ok <==> count >= 0
      ensures ok ==> |top| == if count < |top| + |rest| then count else |top| + |rest|
      ensures Ascending(top + rest)
      ensures Enumerates(Names(top + rest), ActiveScores(paths).Keys)
      ensures forall k :: k in Names(top + rest) <==> k in paths && paths[k].active
      ensures forall x :: x in top + rest ==> x.name in ActiveScores(paths) && x.key == -paths[x.name].score
    {
      hide *;
      var sorted := RankActive();
      var n := if count > |sorted| then |sorted| else count;
      ok := n >= 0;
      if !ok {
        top, rest := [], sorted;
        assert top + rest == sorted;
        return;
      }
      top, rest := sorted[..n], sorted[n..];
      assert top + rest == sorted;
    }
  }

  function ByLatency(paths: Paths, order: seq<string>): seq<Keyed>
    requires forall k :: k in order ==> k in paths
  {
    seq(|order|, i requires 0 <= i < |order| => Keyed(order[i], paths[order[i]].latency))
  }

  function ByLoss(paths: Paths, order: seq<string>): seq<Keyed>
    requires forall k :: k in order ==> k in paths
  {
    seq(|order|, i requires 0 <= i < |order| => Keyed(order[i], paths[order[i]].loss))
  }

  function ByScoreDescending(paths: Paths, order: seq<string>): seq<Keyed>
    requires forall k :: k in order ==> k in paths
  {
    seq(|order|, i requires 0 <= i < |order| => Keyed(order[i], -paths[order[i]].score))
  }

  method FirstByKey(s: seq<Keyed>) returns (first: Keyed)
    requires |s| > 0
    ensures first in s && forall x :: x in s ==> first.key <= x.key
  {
    var sorted := SortByKey(s);
    SortKeeps(s, s[0]);
    first := sorted[0];
    SortKeeps(s, first);
    forall x | x in s ensures first.key <= x.key {
      SortKeeps(s, x);
    }
  }

  ghost function Names(s: seq<Keyed>): seq<string> {
    seq(|s|, i requires 0 <= i < |s| => s[i].name)
  }

  predicate RawIsNearest(p: PathState, avg: real)
    requires avg > 0.0
  {
    if p.active then Proportion.Nearest(Proportion.Point(p.score, avg), p.weight) else p.weight == 0
  }

  function RawEntry(p: PathState, avg: real): PathState
    requires avg > 0.0
  {
    p.(weight := if p.active then RawWeight(p.score, avg) else 0)
  }

  ghost function WithRaw(paths: Paths, avg: real): Paths
    requires avg > 0.0
  {
    map k | k in paths :: RawEntry(paths[k], avg)
  }

  function RescaledEntry(p: PathState, total: int): PathState
    requires total > 0
  {
    ScalingMonotone(p.weight, p.weight, total);
    p.(weight := Quotient(p.weight * TARGET, total))
  }

  ghost function WithRescaled(paths: Paths, total: int): Paths
    requires total > 0
  {
    map k | k in paths :: RescaledEntry(paths[k], total)
  }

  ghost function WeightsAlong(paths: Paths, order: seq<string>): seq<nat>
    requires forall k :: k in order ==> k in paths
  {
    seq(|order|, i requires 0 <= i < |order| => paths[order[i]].weight)
  }

  // ----- Loop steps ---------------------------------------------------------

  lemma ActiveStep(paths: Paths, seen: set<string>, k: string)
    requires k in paths && k !in seen
    ensures Sum(ActiveWeightsIn(paths, seen + {k}))
            == Sum(ActiveWeightsIn(paths, seen)) + if paths[k].active then paths[k].weight else 0
  {
    var m := ActiveWeightsIn(paths, seen);
    if paths[k].active {
      SumAdd(m, k, paths[k].weight);
      assert ActiveWeightsIn(paths, seen + {k}) == m[k := paths[k].weight];
    } else {
      assert ActiveWeightsIn(paths, seen + {k}) == m;
    }
  }

  lemma PositiveNone(paths: Paths, seen: set<string>)
    requires seen == {}
    ensures PositiveIn(paths, seen) == map[] && SumReal(PositiveIn(paths, seen)) == 0.0
  {
  }

  lemma PositiveStep(paths: Paths, seen: set<string>, k: string)
    requires k in paths && k !in seen
    ensures var counts := paths[k].active && paths[k].score > 0.0;
            && |PositiveIn(paths, seen + {k})| == |PositiveIn(paths, seen)| + (if counts then 1 else 0)
            && SumReal(PositiveIn(paths, seen + {k}))
               == SumReal(PositiveIn(paths, seen)) + (if counts then paths[k].score else 0.0)
  {
    var m := PositiveIn(paths, seen);
    if paths[k].active && paths[k].score > 0.0 {
      Grow(m, k, paths[k].score);
      SumRealAdd(m, k, paths[k].score);
      assert PositiveIn(paths, seen + {k}) == m[k := paths[k].score];
    } else {
      assert PositiveIn(paths, seen + {k}) == m;
    }
  }

  /** The two conditions of the early return amount to one. */
  lemma ScoreTotalZero(paths: Paths)
    requires |Positive(ActiveScores(paths))| == 0 || SumReal(Positive(ActiveScores(paths))) == 0.0
    ensures !Scored(paths)
  {
    SumRealPositive(Positive(ActiveScores(paths)));
    ScoredPositive(paths);
  }

  /** After the second loop the active total is positive, and rescaling by it
      gives the final weights. */
  lemma RawAssigned(before: Paths, after: Paths, avg: real)
    requires Scored(before) && avg > 0.0 && after == WithRaw(before, avg)
    requires Positive(ActiveScores(before)) != map[] && avg == Average(ActiveScores(before))
    ensures ActiveSum(after) > 0
    ensures WithRescaled(after, ActiveSum(after)) == Reweighted(before)
  {
    var scores := ActiveScores(before);
    var raw := RawWeights(scores, avg);
    assert ActiveWeights(after) == raw;
    assert scores != map[] by {
      var k :| k in Positive(scores);
      assert k in scores;
    }
    RawSumPositive(scores, avg);
    assert FinalWeights(scores) == Scaled(raw, Sum(raw));
  }

  lemma RankedNames(paths: Paths, sorted: seq<Keyed>)
    requires Enumerates(Names(sorted), ActiveScores(paths).Keys)
    ensures forall k :: k in Names(sorted) <==> k in paths && paths[k].active
  {
    hide Names;
  }

  lemma RankedFacts(paths: Paths, active: seq<string>, sorted: seq<Keyed>)
    requires Enumerates(active, ActiveScores(paths).Keys)
    requires sorted == SortByKey(ByScoreDescending(paths, active))
    ensures Ascending(sorted) && Enumerates(Names(sorted), ActiveScores(paths).Keys)
    ensures forall x :: x in sorted ==> x.name in ActiveScores(paths) && x.key == -paths[x.name].score
  {
    assert forall i :: 0 <= i < |active| ==> active[i] in active;
    var keyed := ByScoreDescending(paths, active);
    SortedNames(keyed, active, ActiveScores(paths).Keys);
    forall x | x in sorted ensures x in keyed {
      SortKeeps(keyed, x);
    }
  }

  lemma SortedNames(keyed: seq<Keyed>, order: seq<string>, keys: set<string>)
    requires Enumerates(order, keys) && Names(keyed) == order
    ensures Enumerates(Names(SortByKey(keyed)), keys)
  {
    var sorted := SortByKey(keyed);
    forall x: Keyed ensures x in sorted <==> x in keyed {
      SortKeeps(keyed, x);
    }
    SortedDistinct(keyed, order, sorted);
    hide SortByKey;
    forall k ensures k in keys <==> k in Names(sorted) {
      NamedEntry(keyed, k);
      NamedEntry(sorted, k);
    }
  }

  lemma NamedEntry(keyed: seq<Keyed>, k: string)
    ensures k in Names(keyed) <==> exists x :: x in keyed && x.name == k
  {
    if k in Names(keyed) {
      var i :| 0 <= i < |keyed| && keyed[i].name == k;
      assert keyed[i] in keyed;
    }
    if x :| x in keyed && x.name == k {
      var i :| 0 <= i < |keyed| && keyed[i] == x;
      assert Names(keyed)[i] == k;
    }
  }

  lemma SortedDistinct(keyed: seq<Keyed>, order: seq<string>, sorted: seq<Keyed>)
    requires Distinct(order) && Names(keyed) == order && sorted == SortByKey(keyed)
    requires forall x :: x in sorted <==> x in keyed
    ensures Distinct(Names(sorted))
  {
    forall i, j | 0 <= i < j < |sorted| ensures sorted[i].name != sorted[j].name {
      if sorted[i].name == sorted[j].name {
        SameNameSameEntry(keyed, order, sorted[i], sorted[j]);
        OccursTwice(sorted, i, j);
        OccursOnce(keyed, order, sorted[i]);
      }
    }
  }

  lemma SameNameSameEntry(keyed: seq<Keyed>, order: seq<string>, x: Keyed, y: Keyed)
    requires Distinct(order) && Names(keyed) == order
    requires x in keyed && y in keyed && x.name == y.name
    ensures x == y
  {
    var i :| 0 <= i < |keyed| && keyed[i] == x;
    var j :| 0 <= j < |keyed| && keyed[j] == y;
    assert order[i] == order[j];
  }

  lemma OccursOnce(keyed: seq<Keyed>, order: seq<string>, x: Keyed)
    requires Distinct(order) && Names(keyed) == order
    ensures multiset(keyed)[x] <= 1
  {
    if x in keyed {
      var i :| 0 <= i < |keyed| && keyed[i] == x;
      assert keyed == keyed[..i] + [x] + keyed[i + 1..];
      forall y | y in keyed[..i] ensures y != x {
        var j :| 0 <= j < i && keyed[j] == y;
        assert order[j] != order[i];
      }
      var tail := keyed[i + 1..];
      forall y | y in tail ensures y != x {
        var j :| i < j < |keyed| && keyed[j] == y;
        assert order[j] != order[i];
      }
      assert x !in keyed[..i] && x !in tail;
      assert multiset(keyed)[x] == multiset(keyed[..i])[x] + 1 + multiset(tail)[x];
    }
  }
}
