/** How the monitor's passes keep the scheduler's traffic shared. */
module OrchestratorProofs {
  import opened Multipath
  import opened MultipathProofs
  import opened Orchestrator
  import opened Routing
  import opened Slices
  import opened TransportManager
  import Failover

  datatype Pass = Pass(infos: seq<Info>, ping: Ping)

  /** The scheduler after any sequence of passes. */
  ghost function AfterPasses(s: Multipath.State, passes: seq<Pass>): Multipath.State {
    if passes == [] then s
    else
      var last := passes[|passes| - 1];
      Scheduled(AfterPasses(s, passes[..|passes| - 1]), last.infos, last.ping)
  }

  /** A pass lists each transport once. */
  ghost predicate ListsOnce(infos: seq<Info>) {
    forall i, j :: 0 <= i < j < |infos| ==> infos[i].name != infos[j].name
  }

  /** The pass gives some path of the scheduler a good sample. */
  ghost predicate HasGoodSample(paths: Paths, pass: Pass) {
    exists i :: 0 <= i < |pass.infos| && pass.infos[i].name in paths && GoodSample(pass.infos[i].score, pass.ping.loss)
  }

  lemma {:induction false} PlannedPaths(registry: seq<Meta>)
    ensures Planned(registry).mode == Weighted && |Planned(registry).paths| <= |registry|
    ensures forall m :: m in registry ==> m.name in Planned(registry).paths
  {
    if registry != [] {
      var front, m := registry[..|registry| - 1], registry[|registry| - 1];
      PlannedPaths(front);
      assert registry == front + [m];
      assert Planned(registry).paths.Keys == Planned(front).paths.Keys + {m.name};
      KeySize(Planned(front).paths, Planned(registry).paths, m.name);
    }
  }

  lemma KeySize(before: Paths, after: Paths, name: string)
    requires after.Keys == before.Keys + {name}
    ensures |after| <= |before| + 1
  {
    assert |after| == |after.Keys| && |before| == |before.Keys|;
  }

  lemma {:induction false} PassKeepsPaths(s: Multipath.State, infos: seq<Info>, p: Ping)
    ensures Scheduled(s, infos, p).paths.Keys == s.paths.Keys && Scheduled(s, infos, p).mode == s.mode
  {
    if infos != [] {
      PassKeepsPaths(s, infos[..|infos| - 1], p);
    }
  }

  lemma {:induction false} PassesKeepPaths(s: Multipath.State, passes: seq<Pass>)
    ensures AfterPasses(s, passes).paths.Keys == s.paths.Keys && AfterPasses(s, passes).mode == s.mode
  {
    if passes != [] {
      var n := |passes| - 1;
      PassesKeepPaths(s, passes[..n]);
      PassKeepsPaths(AfterPasses(s, passes[..n]), passes[n].infos, passes[n].ping);
    }
  }

  /** The path sampled well stays active and scored to the end of the pass, and every
      later update of the pass shares the traffic anew. */
  lemma {:induction false} PassShares(s: Multipath.State, infos: seq<Info>, p: Ping, i: nat)
    requires s.mode == Weighted && ListsOnce(infos) && i < |infos|
    requires infos[i].name in s.paths && GoodSample(infos[i].score, p.loss)
    ensures var q, name := Scheduled(s, infos, p), infos[i].name;
            WellShared(q) && name in q.paths && q.paths[name].active && q.paths[name].score > 0.0
    decreases |infos|
  {
    var n := |infos| - 1;
    var front, last, name := infos[..n], infos[n], infos[i].name;
    var before := Scheduled(s, front, p);
    PassKeepsPaths(s, front, p);
    hide Apply, WellShared;
    if i == n {
      UpdateReweights(before, name, last.score, p.latency, p.loss, last.bandwidth);
    } else {
      PassShares(s, front, p, i);
      if last.name in before.paths {
        LaterUpdate(before, name, last, p);
      } else {
        UnknownUpdate(before, last, p);
      }
    }
  }

  lemma UnknownUpdate(s: Multipath.State, last: Info, p: Ping)
    requires last.name !in s.paths
    ensures Apply(s, Op.UpdatePath(last.name, last.score, p.latency, p.loss, last.bandwidth)) == s
  {
  }

  lemma LaterUpdate(s: Multipath.State, name: string, last: Info, p: Ping)
    requires s.mode == Weighted && name in s.paths && s.paths[name].active && s.paths[name].score > 0.0
    requires last.name in s.paths && last.name != name
    ensures var q := Apply(s, Op.UpdatePath(last.name, last.score, p.latency, p.loss, last.bandwidth));
            WellShared(q) && name in q.paths && q.paths[name].active && q.paths[name].score > 0.0
  {
    var path := Updated(s.paths[last.name], last.score, p.latency, p.loss, last.bandwidth);
    var t := s.(paths := s.paths[last.name := path]);
    assert t.paths[name] == s.paths[name];
    ReweightedShares(t);
  }

  /** What every pass with a good sample ends with, from Init on and whatever passes
      came before: an exact total of at least 101 less the number of registered
      tunnels, and nobody starved if there are at most 21. */
  lemma {:induction false} GoodPassShares(registry: seq<Meta>, passes: seq<Pass>)
    requires passes != []
    requires var last := passes[|passes| - 1];
             ListsOnce(last.infos) && HasGoodSample(Planned(registry).paths, last)
    ensures var q := AfterPasses(Planned(registry), passes);
            && q.mode == Weighted && WellShared(q)
            && 101 - |registry| <= q.totalWeight <= 100
            && (|registry| <= 21 ==> forall k :: k in q.paths && q.paths[k].active ==> q.paths[k].weight >= 1)
  {
    var s, n := Planned(registry), |passes| - 1;
    var last := passes[n];
    PlannedPaths(registry);
    PassesKeepPaths(s, passes[..n]);
    PassesKeepPaths(s, passes);
    var i :| 0 <= i < |last.infos| && last.infos[i].name in s.paths && GoodSample(last.infos[i].score, last.ping.loss);
    PassShares(AfterPasses(s, passes[..n]), last.infos, last.ping, i);
    var q := AfterPasses(s, passes);
    FewActive(q.paths, s.paths);
  }

  /** With the twelve tunnels of the registry a pass with a good sample always leaves
      every active path a share, and a total of 89 to 100 for selection to divide by. */
  lemma {:induction false} RegistryShares(registry: seq<Meta>, passes: seq<Pass>)
    requires registry == REGISTRY && passes != []
    requires var last := passes[|passes| - 1];
             ListsOnce(last.infos) && HasGoodSample(Planned(registry).paths, last)
    ensures var q := AfterPasses(Planned(registry), passes);
            && 89 <= q.totalWeight == ActiveSum(q.paths) <= 100
            && forall k :: k in q.paths && q.paths[k].active ==> q.paths[k].weight >= 1
  {
    GoodPassShares(registry, passes);
  }

  lemma FewActive(paths: Paths, planned: Paths)
    requires paths.Keys == planned.Keys
    ensures |ActiveWeights(paths)| <= |planned|
  {
    var m := ActiveWeights(paths);
    assert |m| == |m.Keys| && |planned| == |planned.Keys|;
    assert planned.Keys == m.Keys + (planned.Keys - m.Keys);
  }

  // ----- What Init and a pass record ---------------------------------------------------------

  ghost predicate NamedOnce(registry: seq<Meta>) {
    forall i, j :: 0 <= i < j < |registry| ==> registry[i].name != registry[j].name
  }

  /** Init gives every path of the registry its type and default weight, unused so far. */
  lemma {:induction false} InitPlans(registry: seq<Meta>, i: nat)
    requires NamedOnce(registry) && i < |registry|
    ensures var m, paths := registry[i], Planned(registry).paths;
            && m.name in paths && paths[m.name].name == m.name && paths[m.name].kind == m.kind
            && paths[m.name].weight == m.weight && !paths[m.name].active && paths[m.name].score == 0.0
    decreases |registry|
  {
    var n := |registry| - 1;
    if i < n {
      InitPlans(registry[..n], i);
      assert registry[i].name != registry[n].name;
    }
  }

  /** A pass records for each listed transport its route, scored from the ping and its own
      jitter, stability and bandwidth. */
  lemma {:induction false} PassRecordsRoute(scorer: Scorer, routes: Routes, infos: seq<Info>, p: Ping, i: nat)
    requires ListsOnce(infos) && i < |infos|
    ensures var q, x := Recorded(scorer, routes, infos, p), infos[i];
            && x.name in q && q[x.name].name == x.name && q[x.name].kind == x.kind
            && q[x.name].score == scorer(p.latency, x.jitter, p.loss, x.stability, x.bandwidth)
            && q[x.name].latency == p.latency && q[x.name].loss == p.loss && q[x.name].jitter == x.jitter
            && q[x.name].stability == x.stability && q[x.name].bandwidth == x.bandwidth
    decreases |infos|
  {
    var n := |infos| - 1;
    if i < n {
      PassRecordsRoute(scorer, routes, infos[..n], p, i);
      assert infos[i].name != infos[n].name;
    }
  }

  /** ... a health sample of the ping's latency and loss ... */
  lemma {:induction false} PassSamples(states: Failover.States, infos: seq<Info>, p: Ping, i: nat)
    requires ListsOnce(infos) && i < |infos|
    ensures var q, name := Sampled(states, infos, p), infos[i].name;
            && name in q && q[name].latency == p.latency && q[name].packetLoss == p.loss
            && (q[name].status == Failover.Healthy <==> p.latency < 200.0 && p.loss < 10.0)
    decreases |infos|
  {
    var n := |infos| - 1;
    if i < n {
      PassSamples(states, infos[..n], p, i);
      assert infos[i].name != infos[n].name;
    }
  }

  /** ... and, if the scheduler knows its path, the transport's own score and bandwidth with
      the ping's latency and loss. */
  lemma {:induction false} PassUpdatesPath(s: Multipath.State, infos: seq<Info>, p: Ping, i: nat)
    requires ListsOnce(infos) && i < |infos| && infos[i].name in s.paths
    ensures var q, x := Scheduled(s, infos, p).paths, infos[i];
            && x.name in q && q[x.name].score == x.score && q[x.name].bandwidth == x.bandwidth
            && q[x.name].latency == p.latency && q[x.name].loss == p.loss
            && q[x.name].active == (x.score > 0.0 && p.loss < 50.0)
    decreases |infos|
  {
    var n := |infos| - 1;
    var last, front := infos[n], infos[..n];
    var before, op := Scheduled(s, front, p), Op.UpdatePath(last.name, last.score, p.latency, p.loss, last.bandwidth);
    PassKeepsPaths(s, front, p);
    if i < n {
      PassUpdatesPath(s, front, p, i);
      assert infos[i].name != last.name;
      UpdateKeepsOthers(before, op, infos[i].name);
    } else {
      UpdateSets(before, op);
    }
  }

  lemma UpdateKeepsOthers(s: Multipath.State, op: Op, name: string)
    requires op.UpdatePath? && op.name != name && name in s.paths
    ensures var q := Apply(s, op).paths; name in q && q[name] == s.paths[name].(weight := q[name].weight)
  {
  }

  lemma UpdateSets(s: Multipath.State, op: Op)
    requires op.UpdatePath? && op.name in s.paths
    ensures var q := Apply(s, op).paths;
            && op.name in q && q[op.name].score == op.score && q[op.name].latency == op.latency
            && q[op.name].loss == op.loss && q[op.name].bandwidth == op.bandwidth
            && q[op.name].active == (op.score > 0.0 && op.loss < 50.0)
  {
  }
}
