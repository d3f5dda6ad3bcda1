/** Failovers launched by the evaluation. Every transport listed in a pass is given the
    same ping, so with a fixed set of transports their health differs only while a
    pass is being recorded. */
module OutageRuns {
  import opened Orchestrator
  import opened OrchestratorRuns
  import opened Routing
  import opened Slices
  import Failover

  /** What decides a transport's next status. */
  datatype Health = Health(status: Failover.Status, failCount: nat)

  function HealthIn(states: Failover.States, name: string): Health {
    var t := Failover.StateOf(states, name);
    Health(t.status, t.failCount)
  }

  function NextHealth(h: Health, bad: bool): Health {
    if !bad then Health(Failover.Healthy, if h.status == Failover.Healthy then h.failCount else 0)
    else Health(Failover.StatusAfter(h.failCount + 1), h.failCount + 1)
  }

  predicate BadPing(p: Ping) {
    p.latency >= 200.0 || p.loss >= 10.0
  }

  function NamesOf(infos: seq<Info>): seq<string> {
    seq(|infos|, i requires 0 <= i < |infos| => infos[i].name)
  }

  /** Every pass lists the same transports, each once, in any order. */
  ghost predicate SameTransports(events: seq<Event>, names: set<string>) {
    forall i :: 0 <= i < |events| && events[i].Wake? ==> Enumerates(NamesOf(events[i].infos), names)
  }

  predicate Recordings(m: Monitor) {
    m.Recording? || m.Sampling?
  }

  // ----- The invariant -----------------------------------------------------------------

  /** `common` is the health every transport had before the pass, or has outside one;
      those the pass has sampled have moved on by its ping. */
  ghost predicate AgreeOn(s: State, names: set<string>, common: Health) {
    common.status == Failover.StatusAfter(common.failCount) &&
    if Recordings(s.monitor) then
      var waiting := NamesOf(s.monitor.infos);
      && Distinct(waiting)
      && (s.monitor.Sampling? ==> s.monitor.infos != [])
      && (forall n :: n in waiting ==> n in names && HealthIn(s.states, n) == common)
      && (forall n :: n in names && n !in waiting ==>
            n in s.states && HealthIn(s.states, n) == NextHealth(common, BadPing(s.monitor.ping)))
    else
      forall n :: n in names ==> HealthIn(s.states, n) == common
  }

  ghost predicate Agree(s: State, names: set<string>) {
    s.states.Keys <= names && exists common :: AgreeOn(s, names, common)
  }

  lemma SampleMovesOn(states: Failover.States, sample: Failover.Sample, n: string)
    ensures var after := Failover.Updated(states, sample);
            HealthIn(after, n) == if n == sample.name
              then NextHealth(HealthIn(states, n), Failover.Bad(sample.latency, sample.packetLoss))
              else HealthIn(states, n)
  {
  }

  lemma WaitingAfter(infos: seq<Info>, n: string)
    requires infos != [] && Distinct(NamesOf(infos))
    ensures Distinct(NamesOf(infos[1..]))
    ensures n in NamesOf(infos) <==> n == infos[0].name || n in NamesOf(infos[1..])
    ensures infos[0].name !in NamesOf(infos[1..])
  {
    var all, rest := NamesOf(infos), NamesOf(infos[1..]);
    assert all == [infos[0].name] + rest;
    FrontApart(infos[0].name, rest);
  }

  lemma FrontApart(first: string, rest: seq<string>)
    requires Distinct([first] + rest)
    ensures Distinct(rest) && first !in rest
  {
    var all := [first] + rest;
    assert forall k :: 0 <= k < |rest| ==> rest[k] == all[k + 1];
    assert all[0] == first;
  }

  lemma SampleKeepsAgree(s: State, names: set<string>, common: Health, scorer: Scorer)
    requires Enabled(s, RecordSample) && AgreeOn(s, names, common) && s.states.Keys <= names
    ensures AgreeOn(Step(s, RecordSample, scorer), names, common)
    ensures Step(s, RecordSample, scorer).states.Keys <= names
  {
    var q, infos, p := Step(s, RecordSample, scorer), s.monitor.infos, s.monitor.ping;
    var sample := Failover.Sample(infos[0].name, p.latency, p.loss, p.at);
    assert NamesOf(infos)[0] == infos[0].name;
    forall n ensures n in NamesOf(infos) <==> n == infos[0].name || n in NamesOf(infos[1..]) {
      WaitingAfter(infos, n);
    }
    WaitingAfter(infos, infos[0].name);
    forall n ensures HealthIn(q.states, n)
      == if n == infos[0].name then NextHealth(HealthIn(s.states, n), BadPing(p)) else HealthIn(s.states, n)
    {
      SampleMovesOn(s.states, sample, n);
    }
  }

  lemma StepKeepsAgree(s: State, e: Event, names: set<string>, scorer: Scorer)
    requires Agree(s, names) && Enabled(s, e)
    requires e.Wake? ==> Enumerates(NamesOf(e.infos), names)
    ensures Agree(Step(s, e, scorer), names)
  {
    var common :| AgreeOn(s, names, common);
    var q := Step(s, e, scorer);
    if e.RecordSample? {
      SampleKeepsAgree(s, names, common, scorer);
    } else if Recordings(s.monitor) && !Recordings(q.monitor) {
      assert s.monitor.infos == [] && NamesOf(s.monitor.infos) == [];
      assert AgreeOn(q, names, NextHealth(common, BadPing(s.monitor.ping)));
    } else {
      assert AgreeOn(q, names, common);
    }
  }

  lemma {:induction false} RunKeepsAgree(s: State, events: seq<Event>, names: set<string>, scorer: Scorer)
    requires Agree(s, names) && ValidRun(s, events, scorer) && SameTransports(events, names)
    ensures Agree(Run(s, events, scorer), names)
    decreases |events|
  {
    if events != [] {
      StepKeepsAgree(s, events[0], names, scorer);
      RunKeepsAgree(Step(s, events[0], scorer), events[1..], names, scorer);
    }
  }

  lemma ReachableAgree(first: string, events: seq<Event>, names: set<string>, scorer: Scorer)
    requires ValidRun(Start(first), events, scorer) && SameTransports(events, names)
    ensures Agree(Run(Start(first), events, scorer), names)
  {
    assert AgreeOn(Start(first), names, Health(Failover.Healthy, 0));
    RunKeepsAgree(Start(first), events, names, scorer);
  }

  // ----- When the evaluation fails over -----------------------------------------------------

  /** A pass that is ending an outage: its ping is good, it has sampled some transport,
      and the next one it will sample is still down. */
  ghost predicate MidRecovery(s: State, names: set<string>) {
    && Recordings(s.monitor) && s.monitor.infos != [] && !BadPing(s.monitor.ping)
    && HealthIn(s.states, s.monitor.infos[0].name).status == Failover.Down
    && exists n :: n in names && n !in NamesOf(s.monitor.infos)
  }

  /** The evaluation finds both a healthy transport and one that is down. */
  ghost predicate FailsOver(s: State) {
    Failover.WithStatus(s.states, Failover.Healthy) != {} && Failover.WithStatus(s.states, Failover.Down) != {}
  }

  lemma AgreeingFailover(s: State, names: set<string>)
    requires Agree(s, names)
    ensures FailsOver(s) <==> MidRecovery(s, names)
    ensures FailsOver(s) ==> forall n :: n in s.states ==>
      s.states[n].status == if n in NamesOf(s.monitor.infos) then Failover.Down else Failover.Healthy
  {
    var common :| AgreeOn(s, names, common);
    assert forall n :: n in s.states ==> HealthIn(s.states, n).status == s.states[n].status;
    if FailsOver(s) {
      var h :| h in Failover.WithStatus(s.states, Failover.Healthy);
      var d :| d in Failover.WithStatus(s.states, Failover.Down);
      assert Recordings(s.monitor);
      FirstWaiting(s.monitor.infos);
      assert d in NamesOf(s.monitor.infos) && h !in NamesOf(s.monitor.infos);
    }
    if MidRecovery(s, names) {
      FirstWaiting(s.monitor.infos);
      var d := s.monitor.infos[0].name;
      var h :| h in names && h !in NamesOf(s.monitor.infos);
      assert d in Failover.WithStatus(s.states, Failover.Down);
      assert h in Failover.WithStatus(s.states, Failover.Healthy);
    }
  }

  lemma FirstWaiting(infos: seq<Info>)
    ensures infos != [] ==> infos[0].name in NamesOf(infos)
  {
    if infos != [] {
      assert NamesOf(infos)[0] == infos[0].name;
    }
  }

  /** In every interleaving over a fixed set of transports, the evaluation launches
      failovers exactly in the middle of a pass that ends an outage, and then from the
      transports that pass has yet to sample to one it has. While the monitor sleeps,
      decides or switches, and all through an outage, it launches none. */
  lemma EvaluationFailsOverExactly(first: string, events: seq<Event>, names: set<string>, scorer: Scorer,
                                   healthy: seq<string>, down: seq<string>)
    requires ValidRun(Start(first), events, scorer) && SameTransports(events, names)
    requires Enabled(Run(Start(first), events, scorer), Evaluate(healthy, down))
    ensures var s := Run(Start(first), events, scorer);
            && (Step(s, Evaluate(healthy, down), scorer).callbacks != s.callbacks <==> MidRecovery(s, names))
            && (MidRecovery(s, names) ==>
                  && (forall h :: h in healthy ==> h !in NamesOf(s.monitor.infos))
                  && (forall d :: d in down ==> d in NamesOf(s.monitor.infos)))
  {
    var s := Run(Start(first), events, scorer);
    ReachableAgree(first, events, names, scorer);
    AgreeingFailover(s, names);
    SomeElement(healthy, Failover.WithStatus(s.states, Failover.Healthy));
    SomeElement(down, Failover.WithStatus(s.states, Failover.Down));
    var q := Step(s, Evaluate(healthy, down), scorer);
    assert |q.callbacks| == |s.callbacks| + if healthy == [] then 0 else |down|;
  }

  lemma SomeElement(s: seq<string>, keys: set<string>)
    requires Enumerates(s, keys)
    ensures s == [] <==> keys == {}
  {
    if s != [] {
      assert s[0] in s;
    }
    if keys != {} {
      var k :| k in keys;
      assert k in s;
    }
  }

  // ----- It does happen --------------------------------------------------------------------

  lemma {:induction false} RunAppend(s: State, a: seq<Event>, b: seq<Event>, scorer: Scorer)
    requires ValidRun(s, a, scorer) && ValidRun(Run(s, a, scorer), b, scorer)
    ensures ValidRun(s, a + b, scorer) && Run(s, a + b, scorer) == Run(Run(s, a, scorer), b, scorer)
    decreases |a|
  {
    if a == [] {
      assert a + b == b;
    } else {
      assert (a + b)[1..] == a[1..] + b;
      RunAppend(Step(s, a[0], scorer), a[1..], b, scorer);
    }
  }

  /** A pass moves the health of every transport it lists by its ping. */
  lemma {:induction false} PassMovesOn(states: Failover.States, infos: seq<Info>, p: Ping, n: string)
    requires Distinct(NamesOf(infos))
    ensures HealthIn(Sampled(states, infos, p), n)
            == if n in NamesOf(infos) then NextHealth(HealthIn(states, n), BadPing(p)) else HealthIn(states, n)
    ensures n in Sampled(states, infos, p) <==> n in states || n in NamesOf(infos)
    decreases |infos|
  {
    if infos != [] {
      var front, last := infos[..|infos| - 1], infos[|infos| - 1];
      var all, rest := NamesOf(infos), NamesOf(front);
      assert all == rest + [last.name];
      assert forall k :: 0 <= k < |rest| ==> rest[k] == all[k] && all[k] != all[|rest|];
      PassMovesOn(states, front, p, n);
      SampleMovesOn(Sampled(states, front, p), Failover.Sample(last.name, p.latency, p.loss, p.at), n);
      assert last.name !in NamesOf(front);
    }
  }

  /** One more pass that nobody interferes with. */
  lemma OneMorePass(s: State, before: seq<Event>, first: string, infos: seq<Info>, p: Ping, scorer: Scorer)
    returns (events: seq<Event>)
    requires ValidRun(Start(first), before, scorer) && s == Run(Start(first), before, scorer) && s.monitor.Asleep?
    requires forall e :: e in before && e.Wake? ==> e.infos == infos
    ensures ValidRun(Start(first), events, scorer) && forall e :: e in events && e.Wake? ==> e.infos == infos
    ensures var q := Run(Start(first), events, scorer);
            q.monitor.Asleep? && q.callbacks == s.callbacks && q.states == Sampled(s.states, infos, p)
  {
    var pass := PassIsSoloRun(s, infos, p, scorer);
    RunAppend(Start(first), before, pass, scorer);
    events := before + pass;
  }

  const BAD := Ping(500.0, 50.0, 0)
  const GOOD := Ping(10.0, 0.0, 0)

  /** Three passes with a bad ping take every transport down. */
  lemma ThreeBadPasses(first: string, infos: seq<Info>, scorer: Scorer) returns (events: seq<Event>)
    requires Distinct(NamesOf(infos))
    ensures ValidRun(Start(first), events, scorer) && forall e :: e in events && e.Wake? ==> e.infos == infos
    ensures var q := Run(Start(first), events, scorer);
            && q.monitor.Asleep? && q.callbacks == []
            && forall n :: n in NamesOf(infos) ==> n in q.states && HealthIn(q.states, n) == Health(Failover.Down, 3)
  {
    var s0 := Start(first);
    var e1 := OneMorePass(s0, [], first, infos, BAD, scorer);
    var s1 := Run(s0, e1, scorer);
    var e2 := OneMorePass(s1, e1, first, infos, BAD, scorer);
    var s2 := Run(s0, e2, scorer);
    events := OneMorePass(s2, e2, first, infos, BAD, scorer);
    forall n | n in NamesOf(infos)
      ensures var q := Run(s0, events, scorer).states; n in q && HealthIn(q, n) == Health(Failover.Down, 3)
    {
      PassMovesOn(s0.states, infos, BAD, n);
      PassMovesOn(s1.states, infos, BAD, n);
      PassMovesOn(s2.states, infos, BAD, n);
    }
  }

  /** An evaluation in the middle of the first good pass after an outage fails over,
      although every transport is given the same ping. */
  lemma RecoveryFailsOver(first: string, infos: seq<Info>, scorer: Scorer) returns (events: seq<Event>)
    requires |infos| >= 2 && Distinct(NamesOf(infos))
    ensures ValidRun(Start(first), events, scorer)
    ensures forall e :: e in events && e.Wake? ==> e.infos == infos
    ensures FailsOver(Run(Start(first), events, scorer))
  {
    var before := ThreeBadPasses(first, infos, scorer);
    var s := Run(Start(first), before, scorer);
    var tail := [Wake(infos, GOOD), RecordRoute, RecordSample];
    var s1 := Step(s, Wake(infos, GOOD), scorer);
    var s2 := Step(s1, RecordRoute, scorer);
    var q := Step(s2, RecordSample, scorer);
    assert ValidRun(q, [], scorer) && Run(q, [], scorer) == q;
    Cons(s2, RecordSample, [], scorer);
    Cons(s1, RecordRoute, [RecordSample] + [], scorer);
    Cons(s, Wake(infos, GOOD), [RecordRoute] + ([RecordSample] + []), scorer);
    assert tail == [Wake(infos, GOOD)] + ([RecordRoute] + ([RecordSample] + []));
    RunAppend(Start(first), before, tail, scorer);
    events := before + tail;
    var a, b := infos[0].name, infos[1].name;
    assert NamesOf(infos)[0] == a && NamesOf(infos)[1] == b;
    var sample := Failover.Sample(a, GOOD.latency, GOOD.loss, GOOD.at);
    SampleMovesOn(s.states, sample, a);
    SampleMovesOn(s.states, sample, b);
    assert b in NamesOf(infos) && b in s.states && a != b;
    assert q.states == Failover.Updated(s.states, sample);
    assert HealthIn(s.states, b) == Health(Failover.Down, 3);
    assert a in Failover.WithStatus(q.states, Failover.Healthy);
    assert b in Failover.WithStatus(q.states, Failover.Down);
  }
}
