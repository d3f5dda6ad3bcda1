/** The orchestrator's monitor pass (internal/orchestrator/lifecycle.go) and the
    callback that Init installs (internal/orchestrator/orchestrator.go). */
module Orchestrator {
  import opened Routing
  import opened Sums
  import opened Wrappers
  import Failover
  import Multipath
  import TransportManager

  const MARGIN := 15.0

  /** What the transport manager lists about one transport. */
  datatype Info = Info(name: string, kind: string, score: real, jitter: real, stability: real, bandwidth: int)

  /** One ping of the remote host. */
  datatype Ping = Ping(latency: real, loss: real, at: int)

  function Route(scorer: Scorer, i: Info, p: Ping): PathScore {
    PathScore(i.name, i.kind, scorer(p.latency, i.jitter, p.loss, i.stability, i.bandwidth),
              p.latency, i.jitter, p.loss, i.stability, i.bandwidth)
  }

  function Recorded(scorer: Scorer, routes: Routes, infos: seq<Info>, p: Ping): Routes {
    if infos == [] then routes
    else
      var last := infos[|infos| - 1];
      Recorded(scorer, routes, infos[..|infos| - 1], p)[last.name := Route(scorer, last, p)]
  }

  function Sampled(states: Failover.States, infos: seq<Info>, p: Ping): Failover.States {
    if infos == [] then states
    else
      Failover.Updated(Sampled(states, infos[..|infos| - 1], p),
                       Failover.Sample(infos[|infos| - 1].name, p.latency, p.loss, p.at))
  }

  ghost function Scheduled(s: Multipath.State, infos: seq<Info>, p: Ping): Multipath.State {
    if infos == [] then s
    else
      var last := infos[|infos| - 1];
      Multipath.Apply(Scheduled(s, infos[..|infos| - 1], p),
                      Multipath.Op.UpdatePath(last.name, last.score, p.latency, p.loss, last.bandwidth))
  }

  /** Some recorded path beats the current route by more than the margin. */
  ghost predicate WorthSwitching(routes: Routes, current: string) {
    current != "" && exists k :: k in routes && routes[k].score - ScoreOf(routes, current) > MARGIN
  }

  /** The route after a pass: changed only to a path of maximal score that beats the
      old route by more than the margin, and changed whenever there is one. */
  ghost predicate Decides(routes: Routes, current: string, next: string) {
    if WorthSwitching(routes, current)
    then Best(routes, next) && routes[next].score - ScoreOf(routes, current) > MARGIN
    else next == current
  }

  const WIREGUARD := "wireguard"

  /** The scheduler once Init has added every path of the registry. */
  ghost function Planned(registry: seq<TransportManager.Meta>): Multipath.State {
    if registry == [] then Multipath.INITIAL
    else
      var m := registry[|registry| - 1];
      Multipath.Apply(Planned(registry[..|registry| - 1]), Multipath.Op.AddPath(m.name, m.kind, m.weight))
  }

  /** The names of the registry that are enabled. */
  ghost function EnabledNames(registry: seq<TransportManager.Meta>, enabled: set<string>): set<string> {
    set i | 0 <= i < |registry| && registry[i].name in enabled :: registry[i].name
  }

  function DirectlyConnected(open: set<string>, outcome: TransportManager.Outcome): set<string> {
    if TransportManager.LeavesOpen(outcome) then open + {WIREGUARD} else open - {WIREGUARD}
  }

  class Orchestrator {
    const allTunnelsActive: bool
    const transportM: TransportManager.Manager
    const route: Engine
    const fail: Failover.Detector
    const scheduler: Multipath.Scheduler

    ghost predicate Valid()
      reads this, transportM, route, scheduler
    {
      transportM.Valid() && route.Valid() && Multipath.NamedByKey(scheduler.paths)
    }

    /** New and Init. The transports Init makes are those of the registry. */
    constructor (scorer: Scorer, registry: seq<TransportManager.Meta>, enabled: set<string>, allTunnelsActive: bool)
      ensures fresh(transportM) && fresh(route) && fresh(fail) && fresh(scheduler)
      ensures Valid() && this.allTunnelsActive == allTunnelsActive == transportM.allActive
      ensures transportM.transports.Keys == EnabledNames(registry, enabled)
      ensures forall n :: n in transportM.transports ==> fresh(transportM.transports[n])
      ensures transportM.Open() == {} && transportM.active == map[]
      ensures route.paths == map[] && route.current == "" && route.scorer == scorer
      ensures fail.states == map[] && fail.failoverSet && fail.recoverSet
      ensures scheduler.View() == Planned(registry) && scheduler.stats == Multipath.Stats(0, 0)
    {
      this.allTunnelsActive := allTunnelsActive;
      transportM := new TransportManager.Manager(allTunnelsActive, registry);
      route := new Engine(scorer);
      fail := new Failover.Detector();
      scheduler := new Multipath.Scheduler();
      new;
      RegisterAll(registry, enabled);
      PlanAll(registry);
      fail.OnFailover();
      fail.OnRecover();
    }

    method RegisterAll(registry: seq<TransportManager.Meta>, enabled: set<string>)
      requires transportM.Valid() && transportM.transports == map[] && transportM.registry == registry
      modifies transportM`transports, transportM`weights
      ensures transportM.Valid() && transportM.transports.Keys == EnabledNames(registry, enabled)
      ensures forall n :: n in transportM.transports ==> fresh(transportM.transports[n])
      ensures transportM.Open() == {}
    {
      for i := 0 to |registry|
        invariant transportM.Valid() && transportM.transports.Keys == EnabledNames(registry[..i], enabled)
        invariant forall n :: n in transportM.transports ==>
          fresh(transportM.transports[n]) && !transportM.transports[n].connected
      {
        OneMoreName(registry, enabled, i);
        if registry[i].name in enabled {
          var t := new TransportManager.Transport(registry[i].name);
          transportM.Register(t);
        }
      }
      assert registry[..|registry|] == registry;
    }

    method PlanAll(registry: seq<TransportManager.Meta>)
      requires scheduler.View() == Multipath.INITIAL && scheduler.stats == Multipath.Stats(0, 0)
      modifies scheduler
      ensures scheduler.View() == Planned(registry) && Multipath.NamedByKey(scheduler.paths)
      ensures scheduler.stats == Multipath.Stats(0, 0)
    {
      for i := 0 to |registry|
        invariant scheduler.View() == Planned(registry[..i]) && Multipath.NamedByKey(scheduler.paths)
        invariant scheduler.stats == Multipath.Stats(0, 0)
      {
        var m := registry[i];
        assert registry[..i + 1][..i] == registry[..i];
        Multipath.ApplyKeepsNames(scheduler.View(), Multipath.Op.AddPath(m.name, m.kind, m.weight));
        scheduler.AddPath(m.name, m.kind, m.weight);
      }
      assert registry[..|registry|] == registry;
    }

    /** The callback Init installs. */
    method OnFailoverCallback(from: string, to: string, now: int)
      modifies route`current, scheduler
      ensures route.current == to
      ensures scheduler.stats == Multipath.Stats(old(scheduler.stats.failoverCount) + 1, now)
      ensures scheduler.View() == old(scheduler.View())
    {
      route.SetCurrent(to);
      scheduler.RecordFailover(now);
    }

    /** One pass of the monitoring loop; the clock is read for each recorded failover. */
    method MonitorPass(infos: seq<Info>, ping: Ping, callbackAt: int, switchAt: int)
      requires Valid()
      modifies transportM`weights, route, fail`states, fail`recovered, scheduler
      ensures Valid()
      ensures route.paths == Recorded(route.scorer, old(route.paths), infos, ping)
      ensures fail.states == Sampled(old(fail.states), infos, ping)
      ensures scheduler.View() == Scheduled(old(scheduler.View()), infos, ping)
      ensures transportM.weights == if allTunnelsActive
        then old(transportM.weights) + Multipath.ActiveWeights(scheduler.paths) else old(transportM.weights)
      ensures allTunnelsActive ==> forall n :: n in scheduler.paths && scheduler.paths[n].active ==>
        n in transportM.weights && transportM.weights[n] == scheduler.paths[n].weight
      ensures fail.failoverSet ==> Decides(route.paths, old(route.current), route.current)
      ensures !fail.failoverSet ==> route.current == old(route.current)
      ensures route.current != old(route.current) ==>
        && route.current in route.paths
        && (forall k :: k in route.paths ==> route.paths[k].score <= route.paths[route.current].score)
        && route.paths[route.current].score
           - (if old(route.current) in route.paths then route.paths[old(route.current)].score else 0.0) > 15.0
      ensures fail.failoverSet && route.current == old(route.current) != "" ==>
        forall k :: k in route.paths ==>
          route.paths[k].score
          - (if route.current in route.paths then route.paths[route.current].score else 0.0) <= 15.0
      ensures scheduler.stats == if !WorthSwitching(route.paths, old(route.current)) then old(scheduler.stats)
        else Multipath.Stats(old(scheduler.stats.failoverCount) + (if fail.failoverSet then 2 else 1), switchAt)
    {
      for i := 0 to |infos|
        invariant Valid() && route.current == old(route.current)
        invariant scheduler.stats == old(scheduler.stats)
        invariant transportM.weights == old(transportM.weights)
        invariant route.paths == Recorded(route.scorer, old(route.paths), infos[..i], ping)
        invariant fail.states == Sampled(old(fail.states), infos[..i], ping)
        invariant scheduler.View() == Scheduled(old(scheduler.View()), infos[..i], ping)
      {
        var info := infos[i];
        assert infos[..i + 1][..i] == infos[..i];
        route.Update(info.name, info.kind, ping.latency, info.jitter, ping.loss, info.stability, info.bandwidth);
        fail.Update(Failover.Sample(info.name, ping.latency, ping.loss, ping.at));
        Multipath.ApplyKeepsNames(scheduler.View(),
          Multipath.Op.UpdatePath(info.name, info.score, ping.latency, ping.loss, info.bandwidth));
        scheduler.UpdatePath(info.name, info.score, ping.latency, ping.loss, info.bandwidth);
      }
      assert infos[..|infos|] == infos;
      if allTunnelsActive {
        var weights := scheduler.Distribution();
        CopyWeights(weights);
      }
      Switch(callbackAt, switchAt);
    }

    /** All-active mode: the scheduler's distribution becomes the transport weights. */
    method CopyWeights(weights: map<string, int>)
      modifies transportM`weights
      ensures transportM.weights == old(transportM.weights) + weights
    {
      var rest := weights;
      while rest != map[]
        invariant transportM.weights + rest == old(transportM.weights) + weights
        decreases |rest|
      {
        var n :| n in rest;
        MoveOne(transportM.weights, rest, n);
        transportM.SetWeight(n, rest[n]);
        rest := rest - {n};
      }
      assert transportM.weights + map[] == transportM.weights;
    }

    /** The part of ConnectToRemote that touches the tunnels: WireGuard is connected
        past the manager, then all-active mode connects everything. `outcome` is what
        the direct call comes to, `events` the interleaving of ConnectAll's workers,
        `r` what ConnectAll returns if it is called. */
    method ConnectTunnels(outcome: TransportManager.Outcome, events: seq<TransportManager.Event>)
      returns (ok: bool, r: Option<Result<string, seq<string>>>)
      requires Valid()
      requires outcome.Connected? && allTunnelsActive ==>
        TransportManager.CompleteRun(
          TransportManager.StartPool(transportM.transports.Keys + {WIREGUARD}, transportM.Open() + {WIREGUARD}), events)
      modifies transportM, transportM.transports.Values, route`current
      ensures ok <==> outcome.Connected?
      ensures route.current == if ok then "wireguard" else old(route.current)
      ensures transportM.transports.Keys == old(transportM.transports.Keys) + {WIREGUARD}
      ensures r.Some? <==> ok && allTunnelsActive
      ensures r == None ==>
        && transportM.active == old(transportM.active)
        && transportM.Open() == DirectlyConnected(old(transportM.Open()), outcome)
        && transportM.Open() - {"wireguard"} == old(transportM.Open()) - {"wireguard"}
        && ("wireguard" in transportM.Open() <==> outcome.Connected? || outcome.leftOpen)
      ensures r.Some? ==> TransportManager.ConnectsAll(
        true, old(transportM.transports.Keys) + {WIREGUARD}, old(transportM.Open()) + {WIREGUARD},
        old(transportM.active), events, transportM.Open(), transportM.active, r.value)
    {
      hide TransportManager.CompleteRun, TransportManager.ConnectsAll, DirectlyConnected;
      hide TransportManager.StartPool, TransportManager.LeavesOpen, Multipath.NamedByKey;
      r := None;
      ConnectWireGuard(outcome);
      DirectlyOpen(old(transportM.Open()), outcome);
      if outcome.Refused? {
        return false, None;
      }
      if allTunnelsActive {
        ghost var connected := transportM.Open();
        transportM.SetAllActive(true);
        assert transportM.Open() == connected == old(transportM.Open()) + {WIREGUARD};
        var result := transportM.ConnectAll(events);
        r := Some(result);
      }
      ghost var open := transportM.Open();
      route.SetCurrent(WIREGUARD);
      assert transportM.Open() == open;
      ok := true;
    }

    /** Get, or Register if it is missing, and Connect. */
    method ConnectWireGuard(outcome: TransportManager.Outcome)
      requires transportM.Valid()
      modifies transportM`transports, transportM`weights, transportM.transports.Values
      ensures transportM.Valid() && transportM.transports.Keys == old(transportM.transports.Keys) + {WIREGUARD}
      ensures forall n :: n in transportM.transports ==>
        fresh(transportM.transports[n]) || transportM.transports[n] in old(transportM.transports.Values)
      ensures transportM.Open() == DirectlyConnected(old(transportM.Open()), outcome)
    {
      if WIREGUARD !in transportM.transports {
        var t := new TransportManager.Transport(WIREGUARD);
        transportM.Register(t);
      }
      assert transportM.Open() == old(transportM.Open());
      transportM.ConnectOne(WIREGUARD, outcome);
    }

    /** The part of Stop that touches the tunnels. */
    method Stop()
      requires Valid()
      modifies transportM`active, transportM.transports.Values
      ensures transportM.active == map[]
      ensures transportM.Open() == old(transportM.Open()) - TransportManager.ActiveNames(old(transportM.active))
    {
      transportM.DisconnectAll();
    }

    /** The end of the pass: compare the best path with the current one. */
    method Switch(callbackAt: int, switchAt: int)
      requires route.Valid()
      modifies route`current, scheduler
      ensures scheduler.View() == old(scheduler.View())
      ensures fail.failoverSet ==> Decides(route.paths, old(route.current), route.current)
      ensures !fail.failoverSet ==> route.current == old(route.current)
      ensures route.current != old(route.current) ==>
        && route.current in route.paths
        && (forall k :: k in route.paths ==> route.paths[k].score <= route.paths[route.current].score)
        && route.paths[route.current].score
           - (if old(route.current) in route.paths then route.paths[old(route.current)].score else 0.0) > 15.0
      ensures fail.failoverSet && route.current == old(route.current) != "" ==>
        forall k :: k in route.paths ==>
          route.paths[k].score
          - (if route.current in route.paths then route.paths[route.current].score else 0.0) <= 15.0
      ensures scheduler.stats == if !WorthSwitching(route.paths, old(route.current)) then old(scheduler.stats)
        else Multipath.Stats(old(scheduler.stats.failoverCount) + (if fail.failoverSet then 2 else 1), switchAt)
    {
      var best := route.BestPath();
      var current := route.current;
      if best.Some? && best.value.name != current && current != "" {
        var score := route.CurrentScore(current);
        var diff := best.value.score - score;
        if diff > MARGIN {
          assert WorthSwitching(route.paths, current);
          if fail.failoverSet {
            OnFailoverCallback(current, best.value.name, callbackAt);
          }
          scheduler.RecordFailover(switchAt);
        }
      }
    }
  }

  lemma DirectlyOpen(open: set<string>, outcome: TransportManager.Outcome)
    ensures var now := DirectlyConnected(open, outcome);
            && now - {"wireguard"} == open - {"wireguard"}
            && ("wireguard" in now <==> outcome.Connected? || outcome.leftOpen)
            && (outcome.Connected? ==> now == open + {WIREGUARD})
  {
  }

  lemma MoveOne(done: map<string, int>, rest: map<string, int>, n: string)
    requires n in rest
    ensures done[n := rest[n]] + (rest - {n}) == done + rest && |rest - {n}| < |rest|
  {
    MovedOne(done, rest, n);
    Drop(rest, n);
  }

  lemma MovedOne(done: map<string, int>, rest: map<string, int>, n: string)
    requires n in rest
    ensures done[n := rest[n]] + (rest - {n}) == done + rest
  {
    var a, b := done[n := rest[n]] + (rest - {n}), done + rest;
    assert a.Keys == b.Keys;
    forall k | k in a ensures a[k] == b[k] {
      if k in rest && k != n {
        assert k in rest - {n};
      }
    }
  }

  lemma OneMoreName(registry: seq<TransportManager.Meta>, enabled: set<string>, i: nat)
    requires i < |registry|
    ensures EnabledNames(registry[..i + 1], enabled)
            == EnabledNames(registry[..i], enabled) + if registry[i].name in enabled then {registry[i].name} else {}
  {
    var more, m := registry[..i + 1], registry[i];
    assert more[i] == m;
    assert forall j :: 0 <= j < i ==> more[j] == registry[..i][j];
    forall n | n in EnabledNames(registry[..i], enabled) ensures n in EnabledNames(more, enabled) {
      var j :| 0 <= j < i && registry[..i][j].name == n;
      assert more[j].name == n;
    }
  }

  // ----- Hysteresis ---------------------------------------------------------------------

  /** Once a pass has switched, no later pass over the same scores switches again. */
  lemma SwitchSettles(routes: Routes, current: string, next: string)
    requires Decides(routes, current, next)
    ensures !WorthSwitching(routes, next)
  {
  }

  /** Over any number of passes with unchanged scores the route changes at most once:
      `trail` lists the route before each pass. */
  lemma {:induction false} AtMostOneSwitch(routes: Routes, trail: seq<string>)
    requires |trail| > 1
    requires forall i :: 0 <= i < |trail| - 1 ==> Decides(routes, trail[i], trail[i + 1])
    ensures forall i :: 1 <= i < |trail| ==> trail[i] == trail[1]
    decreases |trail|
  {
    if |trail| > 2 {
      var n := |trail| - 1;
      AtMostOneSwitch(routes, trail[..n]);
      assert Decides(routes, trail[n - 2], trail[n - 1]) && Decides(routes, trail[n - 1], trail[n]);
      SwitchSettles(routes, trail[n - 2], trail[n - 1]);
    }
  }

  /** Switching from one recorded route to another and back takes a swing of more
      than twice the margin between their scores. */
  lemma FlapNeedsSwing(before: Routes, after: Routes, a: string, b: string)
    requires a in before && b in before && a in after && b in after && a != b
    requires Decides(before, a, b) && Decides(after, b, a)
    ensures (before[b].score - before[a].score) + (after[a].score - after[b].score) > 30.0
  {
  }
}
