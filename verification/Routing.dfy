/** The route engine (internal/routing/engine.go): recorded path scores and the
    current route. The scoring formula is an arbitrary function. */
module Routing {
  import opened Wrappers

  datatype PathScore = PathScore(
    name: string, kind: string, score: real, latency: real, jitter: real, loss: real,
    stability: real, bandwidth: int)

  type Routes = map<string, PathScore>

  /** latency, jitter, loss, stability and bandwidth to a score. */
  type Scorer = (real, real, real, real, int) -> real

  /** No recorded path scores higher than `name`. */
  ghost predicate Best(routes: Routes, name: string) {
    name in routes && forall k :: k in routes ==> routes[k].score <= routes[name].score
  }

  /** The score a route is compared by: an unrecorded one counts as zero. */
  function ScoreOf(routes: Routes, name: string): real {
    if name in routes then routes[name].score else 0.0
  }

  ghost predicate NamedByKey(routes: Routes) {
    forall k :: k in routes ==> routes[k].name == k
  }

  class Engine {
    var paths: Routes
    var current: string
    const scorer: Scorer

    ghost predicate Valid()
      reads this
    {
      NamedByKey(paths)
    }

    constructor (scorer: Scorer)
      ensures Valid() && paths == map[] && current == "" && this.scorer == scorer
    {
      paths, current := map[], "";
      this.scorer := scorer;
    }

    method Update(name: string, kind: string, latency: real, jitter: real, loss: real, stability: real, bandwidth: int)
      requires Valid()
      modifies this`paths
      ensures Valid()
      ensures paths == old(paths)[name :=
        PathScore(name, kind, scorer(latency, jitter, loss, stability, bandwidth),
                  latency, jitter, loss, stability, bandwidth)]
    {
      var score := scorer(latency, jitter, loss, stability, bandwidth);
      paths := paths[name := PathScore(name, kind, score, latency, jitter, loss, stability, bandwidth)];
    }

    method SetCurrent(name: string)
      modifies this`current
      ensures current == name
    {
      current := name;
    }

    method BestPath() returns (best: Option<PathScore>)
      requires Valid()
      ensures best == None <==> paths == map[]
      ensures best.Some? ==> Best(paths, best.value.name) && paths[best.value.name] == best.value
      ensures best.Some? ==> forall k :: k in paths ==> paths[k].score <= best.value.score
    {
      best := None;
      var todo := paths.Keys;
      while todo != {}
        invariant todo <= paths.Keys
        invariant best.Some? ==> best.value.name in paths && paths[best.value.name] == best.value
        invariant forall k :: k in paths && k !in todo ==> best.Some? && paths[k].score <= best.value.score
        decreases |todo|
      {
        var k :| k in todo;
        todo := todo - {k};
        if best == None || paths[k].score > best.value.score {
          best := Some(paths[k]);
        }
      }
      if paths != map[] {
        var k :| k in paths.Keys;
        assert best.Some?;
      }
    }

    /** getCurrentScore: a search through all paths by name. */
    method CurrentScore(name: string) returns (score: real)
      requires Valid()
      ensures score == ScoreOf(paths, name)
      ensures score == if name in paths then paths[name].score else 0.0
    {
      var todo := paths.Keys;
      while todo != {}
        invariant todo <= paths.Keys && (name in paths ==> name in todo)
        decreases |todo|
      {
        var k :| k in todo;
        if paths[k].name == name {
          return paths[k].score;
        }
        todo := todo - {k};
      }
      return 0.0;
    }
  }
}
