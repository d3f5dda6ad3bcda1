/** The monitoring loop, the failover evaluation and its callbacks, interleaved.
    Each lock region of the source is one step; callbacks launched by the evaluation
    are goroutines of their own and may run at any later time. */
module OrchestratorRuns {
  import opened Orchestrator
  import opened Routing
  import opened Slices
  import Failover

  // ----- The state machine ----------------------------------------------------------

  /** Where the monitoring loop stands. */
  datatype Monitor =
    | Asleep
    | Recording(infos: seq<Info>, ping: Ping)
    | Sampling(infos: seq<Info>, ping: Ping)
    | Chosen(best: string)
    | Comparing(best: string, from: string)
    | Calling(best: string, from: string)
    | Switched
    | Counted

  /** A callback goroutine: about to set the route, or about to count. */
  datatype Callback = Launched(to: string) | RouteSet | Finished

  /** A change of the current route, with the routes recorded at that moment. The
      monitor's changes also carry the route it compared against. */
  datatype Change = ByMonitor(from: string, to: string, routes: Routes) | ByCallback(to: string, routes: Routes)

  datatype State = State(
    routes: Routes, states: Failover.States, current: string, failovers: nat,
    monitor: Monitor, callbacks: seq<Callback>, changes: seq<Change>)

  datatype Event =
    | Wake(infos: seq<Info>, ping: Ping)
    | RecordRoute
    | RecordSample
    | ChooseBest(best: string)
    | NoPaths
    | ReadCurrent
    | Compare
    | MonitorSetsRoute
    | CallbackCounts
    | MonitorCounts
    | Evaluate(healthy: seq<string>, down: seq<string>)
    | CallbackSets(i: nat)
    | CallbackRecords(i: nat)

  ghost predicate Enabled(s: State, e: Event) {
    match e
    case Wake(_, _) => s.monitor.Asleep?
    case RecordRoute => s.monitor.Recording? && s.monitor.infos != []
    case RecordSample => s.monitor.Sampling? && s.monitor.infos != []
    case ChooseBest(best) => AtDecision(s.monitor) && Best(s.routes, best)
    case NoPaths => AtDecision(s.monitor) && s.routes == map[]
    case ReadCurrent => s.monitor.Chosen?
    case Compare => s.monitor.Comparing?
    case MonitorSetsRoute => s.monitor.Calling?
    case CallbackCounts => s.monitor.Switched?
    case MonitorCounts => s.monitor.Counted?
    case Evaluate(healthy, down) =>
      && Enumerates(healthy, Failover.WithStatus(s.states, Failover.Healthy))
      && Enumerates(down, Failover.WithStatus(s.states, Failover.Down))
    case CallbackSets(i) => i < |s.callbacks| && s.callbacks[i].Launched?
    case CallbackRecords(i) => i < |s.callbacks| && s.callbacks[i].RouteSet?
  }

  /** All transports of this pass are recorded. */
  predicate AtDecision(m: Monitor) {
    m.Recording? && m.infos == []
  }

  ghost function Step(s: State, e: Event, scorer: Scorer): State
    requires Enabled(s, e)
  {
    match e
    case Wake(infos, ping) => s.(monitor := Recording(infos, ping))
    case RecordRoute =>
      var i, p := s.monitor.infos[0], s.monitor.ping;
      s.(routes := s.routes[i.name := Route(scorer, i, p)], monitor := Sampling(s.monitor.infos, p))
    case RecordSample =>
      var i, p := s.monitor.infos[0], s.monitor.ping;
      s.(states := Failover.Updated(s.states, Failover.Sample(i.name, p.latency, p.loss, p.at)),
         monitor := Recording(s.monitor.infos[1..], p))
    case ChooseBest(best) => s.(monitor := Chosen(best))
    case NoPaths => s.(monitor := Asleep)
    case ReadCurrent =>
      s.(monitor := if s.current == s.monitor.best || s.current == "" then Asleep
                    else Comparing(s.monitor.best, s.current))
    case Compare =>
      var best, from := s.monitor.best, s.monitor.from;
      s.(monitor := if ScoreOf(s.routes, best) - ScoreOf(s.routes, from) > MARGIN then Calling(best, from) else Asleep)
    case MonitorSetsRoute =>
      s.(current := s.monitor.best, monitor := Switched,
         changes := s.changes + [ByMonitor(s.monitor.from, s.monitor.best, s.routes)])
    case CallbackCounts => s.(failovers := s.failovers + 1, monitor := Counted)
    case MonitorCounts => s.(failovers := s.failovers + 1, monitor := Asleep)
    case Evaluate(healthy, down) =>
      if healthy == [] then s else s.(callbacks := s.callbacks + seq(|down|, _ => Launched(healthy[0])))
    case CallbackSets(i) =>
      s.(current := s.callbacks[i].to, callbacks := s.callbacks[i := RouteSet],
         changes := s.changes + [ByCallback(s.callbacks[i].to, s.routes)])
    case CallbackRecords(i) => s.(failovers := s.failovers + 1, callbacks := s.callbacks[i := Finished])
  }

  ghost predicate ValidRun(s: State, events: seq<Event>, scorer: Scorer)
    decreases |events|
  {
    events == [] || (Enabled(s, events[0]) && ValidRun(Step(s, events[0], scorer), events[1..], scorer))
  }

  ghost function Run(s: State, events: seq<Event>, scorer: Scorer): State
    requires ValidRun(s, events, scorer)
    decreases |events|
  {
    if events == [] then s else Run(Step(s, events[0], scorer), events[1..], scorer)
  }

  /** The orchestrator once ConnectToRemote has set the first route. */
  function Start(first: string): State {
    State(map[], map[], first, 0, Asleep, [], [])
  }

  // ----- The invariant ----------------------------------------------------------------

  /** Every transport the failover detector knows has a recorded route. */
  ghost predicate KeysAgree(s: State) {
    s.states.Keys <= s.routes.Keys
  }

  /** A sound change: its target was recorded, and if the monitor made it, no path
      scored higher and it beat the route compared against by more than the margin. */
  ghost predicate SoundChange(c: Change) {
    match c
    case ByMonitor(from, to, routes) =>
      && to in routes && (forall k :: k in routes ==> routes[k].score <= routes[to].score)
      && routes[to].score - (if from in routes then routes[from].score else 0.0) > 15.0
    case ByCallback(to, routes) => to in routes
  }

  ghost predicate MonitorSound(s: State) {
    match s.monitor
    case Sampling(infos, _) => infos != [] && infos[0].name in s.routes
    case Chosen(best) => Best(s.routes, best)
    case Comparing(best, _) => Best(s.routes, best)
    case Calling(best, from) => Best(s.routes, best) && s.routes[best].score - ScoreOf(s.routes, from) > MARGIN
    case _ => true
  }

  ghost function MonitorOwes(m: Monitor): nat {
    if m.Switched? then 2 else if m.Counted? then 1 else 0
  }

  ghost function Unrecorded(callbacks: seq<Callback>): nat {
    if callbacks == [] then 0
    else Unrecorded(callbacks[..|callbacks| - 1]) + if callbacks[|callbacks| - 1].RouteSet? then 1 else 0
  }

  /** What the failover counter comes to: one per callback, two per monitor switch. */
  ghost function Due(changes: seq<Change>): nat {
    if changes == [] then 0
    else Due(changes[..|changes| - 1]) + if changes[|changes| - 1].ByMonitor? then 2 else 1
  }

  ghost predicate Inv(s: State, first: string) {
    && KeysAgree(s)
    && MonitorSound(s)
    && (forall i :: 0 <= i < |s.callbacks| && s.callbacks[i].Launched? ==> s.callbacks[i].to in s.states)
    && (forall i :: 0 <= i < |s.changes| ==> SoundChange(s.changes[i]))
    && (s.current == first || s.current in s.routes)
    && s.failovers + MonitorOwes(s.monitor) + Unrecorded(s.callbacks) == Due(s.changes)
  }

  lemma {:induction false} UnrecordedAppend(callbacks: seq<Callback>, more: seq<Callback>)
    requires forall i :: 0 <= i < |more| ==> !more[i].RouteSet?
    ensures Unrecorded(callbacks + more) == Unrecorded(callbacks)
    decreases |more|
  {
    if more == [] {
      assert callbacks + more == callbacks;
    } else {
      var n := |more| - 1;
      UnrecordedAppend(callbacks, more[..n]);
      assert (callbacks + more)[..|callbacks| + n] == callbacks + more[..n];
    }
  }

  lemma {:induction false} UnrecordedUpdate(callbacks: seq<Callback>, i: nat, c: Callback)
    requires i < |callbacks|
    ensures Unrecorded(callbacks[i := c]) + (if callbacks[i].RouteSet? then 1 else 0)
            == Unrecorded(callbacks) + (if c.RouteSet? then 1 else 0)
    decreases |callbacks|
  {
    var n := |callbacks| - 1;
    if i == n {
      assert callbacks[i := c][..n] == callbacks[..n];
    } else {
      UnrecordedUpdate(callbacks[..n], i, c);
      assert callbacks[i := c][..n] == callbacks[..n][i := c];
    }
  }

  lemma DueAppend(changes: seq<Change>, c: Change)
    ensures Due(changes + [c]) == Due(changes) + if c.ByMonitor? then 2 else 1
  {
    assert (changes + [c])[..|changes|] == changes;
  }

  lemma EvaluateKeepsInv(s: State, healthy: seq<string>, down: seq<string>, first: string, scorer: Scorer)
    requires Inv(s, first) && Enabled(s, Evaluate(healthy, down))
    ensures Inv(Step(s, Evaluate(healthy, down), scorer), first)
  {
    if healthy != [] {
      assert healthy[0] in healthy;
      var more := seq(|down|, _ => Launched(healthy[0]));
      UnrecordedAppend(s.callbacks, more);
    }
  }

  lemma RecordKeepsInv(s: State, e: Event, first: string, scorer: Scorer)
    requires Inv(s, first) && Enabled(s, e) && (e.RecordRoute? || e.RecordSample?)
    ensures Inv(Step(s, e, scorer), first)
  {
    hide Unrecorded, Due, Route;
  }

  lemma CallbackKeepsInv(s: State, e: Event, first: string, scorer: Scorer)
    requires Inv(s, first) && Enabled(s, e) && (e.CallbackSets? || e.CallbackRecords?)
    ensures Inv(Step(s, e, scorer), first)
  {
    var q := Step(s, e, scorer);
    UnrecordedUpdate(s.callbacks, e.i, q.callbacks[e.i]);
    if e.CallbackSets? {
      DueAppend(s.changes, ByCallback(s.callbacks[e.i].to, s.routes));
    }
  }

  lemma StepKeepsInv(s: State, e: Event, first: string, scorer: Scorer)
    requires Inv(s, first) && Enabled(s, e)
    ensures Inv(Step(s, e, scorer), first)
  {
    hide Inv, Step, Enabled;
    match e
    case Evaluate(healthy, down) => EvaluateKeepsInv(s, healthy, down, first, scorer);
    case CallbackSets(i) => CallbackKeepsInv(s, e, first, scorer);
    case CallbackRecords(i) => CallbackKeepsInv(s, e, first, scorer);
    case RecordRoute => RecordKeepsInv(s, e, first, scorer);
    case RecordSample => RecordKeepsInv(s, e, first, scorer);
    case _ => MonitorKeepsInv(s, e, first, scorer);
  }

  /** The rest of the monitor loop. */
  lemma MonitorKeepsInv(s: State, e: Event, first: string, scorer: Scorer)
    requires Inv(s, first) && Enabled(s, e) && !e.RecordRoute? && !e.RecordSample?
    requires !e.Evaluate? && !e.CallbackSets? && !e.CallbackRecords?
    ensures Inv(Step(s, e, scorer), first)
  {
    match e
    case MonitorSetsRoute => DueAppend(s.changes, ByMonitor(s.monitor.from, s.monitor.best, s.routes));
    case _ =>
  }

  lemma {:induction false} RunKeepsInv(s: State, events: seq<Event>, first: string, scorer: Scorer)
    requires Inv(s, first) && ValidRun(s, events, scorer)
    ensures Inv(Run(s, events, scorer), first)
    decreases |events|
  {
    if events != [] {
      StepKeepsInv(s, events[0], first, scorer);
      RunKeepsInv(Step(s, events[0], scorer), events[1..], first, scorer);
    }
  }

  /** At every point of every interleaving: the failover detector knows only recorded
      routes, the current route is the first one or recorded, and every change of
      route was sound when it was made. */
  lemma InterleavingsSafe(first: string, events: seq<Event>, scorer: Scorer)
    requires ValidRun(Start(first), events, scorer)
    ensures var s := Run(Start(first), events, scorer);
            && KeysAgree(s)
            && (s.current == first || s.current in s.routes)
            && (forall i :: 0 <= i < |s.changes| ==> SoundChange(s.changes[i]))
            && (forall i :: 0 <= i < |s.callbacks| && s.callbacks[i].Launched? ==> s.callbacks[i].to in s.routes)
  {
    RunKeepsInv(Start(first), events, first, scorer);
  }

  ghost predicate AllFinished(callbacks: seq<Callback>) {
    forall i :: 0 <= i < |callbacks| ==> !callbacks[i].RouteSet?
  }

  /** Whenever the monitor sleeps and no callback is halfway, the failover counter is
      one for every switch by a callback and two for every switch by the monitor. */
  lemma MonitorSwitchesCountTwice(first: string, events: seq<Event>, scorer: Scorer)
    requires ValidRun(Start(first), events, scorer)
    requires var s := Run(Start(first), events, scorer); s.monitor.Asleep? && AllFinished(s.callbacks)
    ensures var s := Run(Start(first), events, scorer);
            && s.failovers == Due(s.changes)
            && s.failovers == |s.changes| + |set i | 0 <= i < |s.changes| && s.changes[i].ByMonitor?|
  {
    var s := Run(Start(first), events, scorer);
    RunKeepsInv(Start(first), events, first, scorer);
    UnrecordedAppend([], s.callbacks);
    assert [] + s.callbacks == s.callbacks;
    DueCounts(s.changes);
  }

  lemma {:induction false} DueCounts(changes: seq<Change>)
    ensures Due(changes) == |changes| + |set i | 0 <= i < |changes| && changes[i].ByMonitor?|
    decreases |changes|
  {
    var mine := set i | 0 <= i < |changes| && changes[i].ByMonitor?;
    if changes == [] {
      assert mine == {};
    } else {
      var n := |changes| - 1;
      var front := changes[..n];
      DueCounts(front);
      hide Due;
      var before := set i | 0 <= i < |front| && front[i].ByMonitor?;
      assert mine - {n} == before;
      assert n in mine <==> changes[n].ByMonitor?;
      DueLast(changes);
    }
  }

  lemma DueLast(changes: seq<Change>)
    requires changes != []
    ensures Due(changes) == Due(changes[..|changes| - 1]) + if changes[|changes| - 1].ByMonitor? then 2 else 1
  {
  }

  /** Steps of the monitor loop within one pass. */
  predicate WithinPass(e: Event) {
    match e
    case Wake(_, _) => false
    case Evaluate(_, _) => false
    case CallbackSets(_) => false
    case CallbackRecords(_) => false
    case _ => true
  }

  // ----- The two views agree ------------------------------------------------------------

  lemma Cons(s: State, e: Event, rest: seq<Event>, scorer: Scorer)
    requires Enabled(s, e) && ValidRun(Step(s, e, scorer), rest, scorer)
    ensures ValidRun(s, [e] + rest, scorer)
    ensures Run(s, [e] + rest, scorer) == Run(Step(s, e, scorer), rest, scorer)
  {
    assert ([e] + rest)[1..] == rest;
  }

  lemma {:induction false} RecordedFront(
    scorer: Scorer, routes: Routes, states: Failover.States, infos: seq<Info>, p: Ping)
    requires infos != []
    ensures Recorded(scorer, routes, infos, p)
            == Recorded(scorer, routes[infos[0].name := Route(scorer, infos[0], p)], infos[1..], p)
    ensures Sampled(states, infos, p)
            == Sampled(Failover.Updated(states, Failover.Sample(infos[0].name, p.latency, p.loss, p.at)), infos[1..], p)
    decreases |infos|
  {
    var n := |infos| - 1;
    if n == 0 {
      assert infos[..0] == [] && infos[1..] == [];
    } else {
      RecordedFront(scorer, routes, states, infos[..n], p);
      assert infos[..n][1..] == infos[1..][..n - 1] && infos[1..][n - 1] == infos[n];
    }
  }

  /** The recording half of a pass, run without interference. */
  lemma {:induction false} RecordingRun(s: State, scorer: Scorer, after: seq<Event>) returns (events: seq<Event>)
    requires s.monitor.Recording?
    requires var q := AfterRecording(s, scorer); ValidRun(q, after, scorer)
    ensures ValidRun(s, events, scorer)
    ensures Run(s, events, scorer) == Run(AfterRecording(s, scorer), after, scorer)
    ensures (forall e :: e in after ==> WithinPass(e)) ==> forall e :: e in events ==> WithinPass(e)
    decreases |s.monitor.infos|
  {
    var infos, p := s.monitor.infos, s.monitor.ping;
    if infos == [] {
      assert AfterRecording(s, scorer) == s;
      events := after;
    } else {
      var s1 := Step(s, RecordRoute, scorer);
      var s2 := Step(s1, RecordSample, scorer);
      RecordedFront(scorer, s.routes, s.states, infos, p);
      assert AfterRecording(s2, scorer) == AfterRecording(s, scorer);
      var rest := RecordingRun(s2, scorer, after);
      Cons(s1, RecordSample, rest, scorer);
      Cons(s, RecordRoute, [RecordSample] + rest, scorer);
      events := [RecordRoute] + ([RecordSample] + rest);
    }
  }

  ghost function AfterRecording(s: State, scorer: Scorer): State
    requires s.monitor.Recording?
  {
    var infos, p := s.monitor.infos, s.monitor.ping;
    s.(routes := Recorded(scorer, s.routes, infos, p), states := Sampled(s.states, infos, p),
       monitor := Recording([], p))
  }

  /** A switch, run without interference. */
  lemma SwitchingRun(s: State, scorer: Scorer) returns (events: seq<Event>)
    requires s.monitor.Calling?
    ensures ValidRun(s, events, scorer) && forall e :: e in events ==> WithinPass(e)
    ensures var q := Run(s, events, scorer);
            && q.monitor.Asleep? && q.routes == s.routes && q.states == s.states && q.callbacks == s.callbacks
            && q.current == s.monitor.best && q.failovers == s.failovers + 2
  {
    var s1 := Step(s, MonitorSetsRoute, scorer);
    var s2 := Step(s1, CallbackCounts, scorer);
    Cons(s2, MonitorCounts, [], scorer);
    Cons(s1, CallbackCounts, [MonitorCounts] + [], scorer);
    Cons(s, MonitorSetsRoute, [CallbackCounts] + ([MonitorCounts] + []), scorer);
    events := [MonitorSetsRoute] + ([CallbackCounts] + ([MonitorCounts] + []));
  }

  /** The deciding half of a pass, run without interference. */
  lemma DecidingRun(s: State, scorer: Scorer) returns (events: seq<Event>)
    requires s.monitor.Recording? && s.monitor.infos == []
    ensures ValidRun(s, events, scorer) && forall e :: e in events ==> WithinPass(e)
    ensures var q := Run(s, events, scorer);
            && q.monitor.Asleep? && q.routes == s.routes && q.states == s.states && q.callbacks == s.callbacks
            && Decides(s.routes, s.current, q.current)
            && q.failovers == s.failovers + if WorthSwitching(s.routes, s.current) then 2 else 0
  {
    if s.routes == map[] {
      Cons(s, NoPaths, [], scorer);
      events := [NoPaths] + [];
      return;
    }
    var best := SomeBest(s.routes);
    var s1 := Step(s, ChooseBest(best), scorer);
    var s2 := Step(s1, ReadCurrent, scorer);
    if s2.monitor.Asleep? {
      Cons(s1, ReadCurrent, [], scorer);
      Cons(s, ChooseBest(best), [ReadCurrent] + [], scorer);
      events := [ChooseBest(best)] + ([ReadCurrent] + []);
      return;
    }
    var s3 := Step(s2, Compare, scorer);
    var tail: seq<Event> := [];
    if s3.monitor.Calling? {
      tail := SwitchingRun(s3, scorer);
    }
    Cons(s2, Compare, tail, scorer);
    Cons(s1, ReadCurrent, [Compare] + tail, scorer);
    Cons(s, ChooseBest(best), [ReadCurrent] + ([Compare] + tail), scorer);
    events := [ChooseBest(best)] + ([ReadCurrent] + ([Compare] + tail));
  }

  lemma {:induction false} SomeBest(routes: Routes) returns (best: string)
    requires routes != map[]
    ensures Best(routes, best)
    decreases |routes|
  {
    var k :| k in routes;
    var rest := routes - {k};
    assert rest.Keys == routes.Keys - {k};
    if rest == map[] {
      best := k;
      assert forall j :: j in routes ==> j == k || j in rest;
    } else {
      var other := SomeBest(rest);
      best := if routes[k].score > routes[other].score then k else other;
      assert forall j :: j in routes ==> j == k || j in rest;
    }
  }

  /** A pass that nobody interferes with is what MonitorPass promises: the same
      recorded routes and health states, the same decision, the same count. */
  lemma PassIsSoloRun(s: State, infos: seq<Info>, ping: Ping, scorer: Scorer) returns (events: seq<Event>)
    requires s.monitor.Asleep?
    ensures ValidRun(s, events, scorer) && forall e :: e in events ==> e == Wake(infos, ping) || WithinPass(e)
    ensures var q := Run(s, events, scorer);
            && q.monitor.Asleep? && q.callbacks == s.callbacks
            && q.routes == Recorded(scorer, s.routes, infos, ping)
            && q.states == Sampled(s.states, infos, ping)
            && Decides(q.routes, s.current, q.current)
            && q.failovers == s.failovers + if WorthSwitching(q.routes, s.current) then 2 else 0
  {
    var s1 := Step(s, Wake(infos, ping), scorer);
    var decide := DecidingRun(AfterRecording(s1, scorer), scorer);
    var rest := RecordingRun(s1, scorer, decide);
    Cons(s, Wake(infos, ping), rest, scorer);
    events := [Wake(infos, ping)] + rest;
  }

  // ----- Every solo pass --------------------------------------------------------------------

  /** The rest of a pass that nobody interferes with, up to where the loop sleeps. */
  ghost predicate SoloRest(s: State, events: seq<Event>, scorer: Scorer) {
    && (forall i :: 0 <= i < |events| ==> WithinPass(events[i]))
    && ValidRun(s, events, scorer)
    && Run(s, events, scorer).monitor.Asleep?
  }

  /** One more step of such a pass; there is none once the loop sleeps. */
  lemma SoloStep(s: State, events: seq<Event>, scorer: Scorer)
    requires SoloRest(s, events, scorer)
    ensures s.monitor.Asleep? <==> events == []
    ensures events == [] ==> Run(s, events, scorer) == s
    ensures events != [] ==>
      && WithinPass(events[0]) && Enabled(s, events[0])
      && SoloRest(Step(s, events[0], scorer), events[1..], scorer)
      && Run(s, events, scorer) == Run(Step(s, events[0], scorer), events[1..], scorer)
  {
    if events != [] {
      assert WithinPass(events[0]);
    }
  }

  /** The switch itself: the callback sets the route, and both count. */
  lemma EverySwitch(s: State, events: seq<Event>, scorer: Scorer)
    requires s.monitor.Calling? && SoloRest(s, events, scorer)
    ensures var q := Run(s, events, scorer);
            && q.monitor.Asleep? && q.routes == s.routes && q.states == s.states && q.callbacks == s.callbacks
            && q.current == s.monitor.best && q.failovers == s.failovers + 2
  {
    SoloStep(s, events, scorer);
    var s1, r1 := Step(s, events[0], scorer), events[1..];
    SoloStep(s1, r1, scorer);
    var s2, r2 := Step(s1, r1[0], scorer), r1[1..];
    SoloStep(s2, r2, scorer);
    SoloStep(Step(s2, r2[0], scorer), r2[1..], scorer);
  }

  lemma EveryDecision(s: State, events: seq<Event>, scorer: Scorer)
    requires s.monitor.Recording? && s.monitor.infos == [] && SoloRest(s, events, scorer)
    ensures var q := Run(s, events, scorer);
            && q.monitor.Asleep? && q.routes == s.routes && q.states == s.states && q.callbacks == s.callbacks
            && Decides(s.routes, s.current, q.current)
            && q.failovers == s.failovers + if WorthSwitching(s.routes, s.current) then 2 else 0
  {
    SoloStep(s, events, scorer);
    var s1, r1 := Step(s, events[0], scorer), events[1..];
    SoloStep(s1, r1, scorer);
    if s1.monitor.Chosen? {
      var s2, r2 := Step(s1, r1[0], scorer), r1[1..];
      SoloStep(s2, r2, scorer);
      if s2.monitor.Comparing? {
        var s3, r3 := Step(s2, r2[0], scorer), r2[1..];
        SoloStep(s3, r3, scorer);
        if s3.monitor.Calling? {
          EverySwitch(s3, r3, scorer);
        }
      }
    }
  }

  lemma {:induction false} EveryRecording(s: State, events: seq<Event>, scorer: Scorer)
    requires s.monitor.Recording? && SoloRest(s, events, scorer)
    ensures PassResult(AfterRecording(s, scorer), s.current, s.failovers, Run(s, events, scorer))
    decreases |events|
  {
    var infos, p := s.monitor.infos, s.monitor.ping;
    if infos == [] {
      assert AfterRecording(s, scorer) == s;
      EveryDecision(s, events, scorer);
    } else {
      SoloStep(s, events, scorer);
      var s1, r1 := Step(s, events[0], scorer), events[1..];
      SoloStep(s1, r1, scorer);
      var s2, r2 := Step(s1, r1[0], scorer), r1[1..];
      RecordedFront(scorer, s.routes, s.states, infos, p);
      assert AfterRecording(s2, scorer) == AfterRecording(s, scorer);
      EveryRecording(s2, r2, scorer);
    }
  }

  /** The state a pass ends in, from what it recorded and the route and count before. */
  ghost predicate PassResult(recorded: State, current: string, failovers: nat, q: State) {
    && q.monitor.Asleep? && q.callbacks == recorded.callbacks
    && q.routes == recorded.routes && q.states == recorded.states
    && Decides(q.routes, current, q.current)
    && q.failovers == failovers + if WorthSwitching(q.routes, current) then 2 else 0
  }

  /** Every pass that nobody interferes with, whichever best path it happens to pick,
      ends as MonitorPass promises. */
  lemma EverySoloPass(s: State, infos: seq<Info>, ping: Ping, rest: seq<Event>, scorer: Scorer)
    requires s.monitor.Asleep? && SoloRest(Step(s, Wake(infos, ping), scorer), rest, scorer)
    ensures var q := Run(Step(s, Wake(infos, ping), scorer), rest, scorer);
            && q.monitor.Asleep? && q.callbacks == s.callbacks
            && q.routes == Recorded(scorer, s.routes, infos, ping)
            && q.states == Sampled(s.states, infos, ping)
            && Decides(q.routes, s.current, q.current)
            && q.failovers == s.failovers + if WorthSwitching(q.routes, s.current) then 2 else 0
  {
    EveryRecording(Step(s, Wake(infos, ping), scorer), rest, scorer);
  }
}
