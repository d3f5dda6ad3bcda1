/** The transport manager (internal/transport/manager.go): concurrent connection
    of every transport, choice of the ones to keep, and disconnection. */
module TransportManager {
  import opened Slices
  import opened Sums
  import opened WeightMath
  import opened Wrappers

  // ----- The worker pool of ConnectAll ----------------------------------------

  /** What a call of Connect comes to. A refused call may leave something open. */
  datatype Outcome = Connected(score: real) | Refused(leftOpen: bool)

  datatype Phase = Waiting | Connecting | Reported | Skipped

  /** One step of some goroutine: the deadline passes, a worker passes its
      deadline check, or a worker's Connect returns and its result is queued. */
  datatype Event = Timeout | Begin(name: string) | Finish(name: string, outcome: Outcome)

  datatype Report = Report(name: string, outcome: Outcome)

  datatype Pool = Pool(timedOut: bool, phase: map<string, Phase>, open: set<string>, reports: seq<Report>)

  function StartPool(names: set<string>, open: set<string>): Pool {
    Pool(false, map n | n in names :: Waiting, open, [])
  }

  predicate Enabled(p: Pool, e: Event) {
    match e
    case Timeout => true
    case Begin(n) => n in p.phase && p.phase[n] == Waiting
    case Finish(n, _) => n in p.phase && p.phase[n] == Connecting
  }

  function Step(p: Pool, e: Event): Pool {
    match e
    case Timeout => p.(timedOut := true)
    case Begin(n) => p.(phase := p.phase[n := if p.timedOut then Skipped else Connecting])
    case Finish(n, o) =>
      p.(phase := p.phase[n := Reported],
         open := if LeavesOpen(o) then p.open + {n} else p.open - {n},
         reports := p.reports + [Report(n, o)])
  }

  predicate LeavesOpen(o: Outcome) {
    o.Connected? || o.leftOpen
  }

  ghost predicate ValidRun(p: Pool, events: seq<Event>)
    decreases |events|
  {
    events == [] || (Enabled(p, events[0]) && ValidRun(Step(p, events[0]), events[1..]))
  }

  ghost function RunPool(p: Pool, events: seq<Event>): Pool
    decreases |events|
  {
    if events == [] then p else RunPool(Step(p, events[0]), events[1..])
  }

  /** Every worker has reported or given up, so Wait returns. */
  ghost predicate AllDone(p: Pool) {
    forall n :: n in p.phase ==> p.phase[n] == Reported || p.phase[n] == Skipped
  }

  ghost predicate CompleteRun(p: Pool, events: seq<Event>) {
    ValidRun(p, events) && AllDone(RunPool(p, events))
  }

  // ----- What the collected reports lead to -------------------------------------

  ghost function Succeeded(reports: seq<Report>): set<string> {
    set i | 0 <= i < |reports| && reports[i].outcome.Connected? :: reports[i].name
  }

  ghost function Failed(reports: seq<Report>): set<string> {
    set i | 0 <= i < |reports| && reports[i].outcome.Refused? :: reports[i].name
  }

  ghost predicate OneReportEach(reports: seq<Report>) {
    forall i, j :: 0 <= i < j < |reports| ==> reports[i].name != reports[j].name
  }

  /** `primary` connected with a score no other success beats. */
  ghost predicate HasBestScore(reports: seq<Report>, primary: string) {
    exists i :: 0 <= i < |reports| && reports[i].name == primary && reports[i].outcome.Connected?
      && forall j :: 0 <= j < |reports| && reports[j].outcome.Connected?
           ==> reports[j].outcome.score <= reports[i].outcome.score
  }

  function AllTrue(names: set<string>): map<string, bool> {
    map n | n in names :: true
  }

  /** The state ConnectAll leaves behind, given the reports and what was open when
      the last worker finished. */
  ghost predicate Settled(
    allActive: bool, reports: seq<Report>, open: set<string>, active: map<string, bool>,
    open': set<string>, active': map<string, bool>, r: Result<string, seq<string>>)
  {
    match r
    case Failure(failed) =>
      Succeeded(reports) == {} && open' == open - Failed(reports) && active' == active && failed == Refusals(reports)
    case Success(primary) =>
      && HasBestScore(reports, primary)
      && if allActive then
           && active' == active + AllTrue(Succeeded(reports))
           && open' == open - Failed(reports)
         else
           && active' == active[primary := true]
           && open' == open - Failed(reports) - (Succeeded(reports) - {primary})
  }

  /** What ConnectAll leaves of `open0` and `active0` when its workers run as `events`. */
  ghost predicate ConnectsAll(
    allActive: bool, names: set<string>, open0: set<string>, active0: map<string, bool>, events: seq<Event>,
    open: set<string>, active: map<string, bool>, r: Result<string, seq<string>>)
  {
    var p := RunPool(StartPool(names, open0), events);
    Settled(allActive, p.reports, p.open, active0, open, active, r)
  }

  /** The tunnel registry: name, type and default weight. */
  datatype Meta = Meta(name: string, kind: string, weight: nat)

  const REGISTRY: seq<Meta> := [
    Meta("wireguard", "wireguard", 30), Meta("openvpn", "openvpn", 10), Meta("ssh", "ssh", 5),
    Meta("quic", "quic", 15), Meta("frp", "frp", 10), Meta("rathole", "rathole", 12),
    Meta("ipsec", "ipsec", 5), Meta("shadowsocks", "shadowsocks", 3), Meta("hysteria", "hysteria", 12),
    Meta("backhaul", "backhaul", 10), Meta("tcp", "tcp", 3), Meta("websocket", "websocket", 8)]

  /** The weight a name is registered with, if the registry lists it. */
  function DefaultWeight(registry: seq<Meta>, name: string): (w: Option<nat>)
    ensures w == None <==> forall i :: 0 <= i < |registry| ==> registry[i].name != name
    ensures w.Some? ==>
      exists i :: 0 <= i < |registry| && registry[i].name == name && w.value == registry[i].weight
        && forall j :: 0 <= j < i ==> registry[j].name != name
  {
    if registry == [] then None
    else if registry[0].name == name then Some(registry[0].weight)
    else DefaultWeight(registry[1..], name)
  }

  // ----- The objects ------------------------------------------------------------

  /** An abstract transport: Connect and Disconnect decide whether it is open. */
  class Transport {
    const name: string
    var connected: bool

    constructor (name: string)
      ensures this.name == name && !connected
    {
      this.name, connected := name, false;
    }

    method Connect(outcome: Outcome)
      modifies this
      ensures connected == LeavesOpen(outcome)
    {
      connected := LeavesOpen(outcome);
    }

    method Disconnect()
      modifies this
      ensures !connected
    {
      connected := false;
    }
  }

  class Manager {
    var transports: map<string, Transport>
    var active: map<string, bool>
    var weights: map<string, int>
    var allActive: bool
    const registry: seq<Meta>

    ghost predicate Valid()
      reads this
    {
      forall n :: n in transports ==> transports[n].name == n
    }

    ghost function Open(): set<string>
      reads this, transports.Values
    {
      set n | n in transports && transports[n].connected
    }

    constructor (allActive: bool, registry: seq<Meta>)
      ensures Valid() && transports == map[] && active == map[] && weights == map[]
      ensures this.allActive == allActive && this.registry == registry
    {
      transports, active, weights := map[], map[], map[];
      this.allActive, this.registry := allActive, registry;
    }

    method Register(t: Transport)
      requires Valid()
      modifies this`transports, this`weights
      ensures Valid() && transports == old(transports)[t.name := t]
      ensures var w := DefaultWeight(registry, t.name);
              weights == if w.Some? then old(weights)[t.name := w.value] else old(weights)
    {
      transports := transports[t.name := t];
      for i := 0 to |registry|
        invariant weights == old(weights)
        invariant DefaultWeight(registry, t.name) == DefaultWeight(registry[i..], t.name)
      {
        assert registry[i..][1..] == registry[i + 1..];
        if registry[i].name == t.name {
          weights := weights[t.name := registry[i].weight];
          return;
        }
      }
    }

    /** Get, then Connect on the transport itself, past the manager. */
    method ConnectOne(name: string, outcome: Outcome)
      requires Valid() && name in transports
      modifies transports[name]
      ensures Open() == if LeavesOpen(outcome) then old(Open()) + {name} else old(Open()) - {name}
    {
      transports[name].Connect(outcome);
      assert forall n :: n in transports && n != name ==> transports[n] != transports[name];
    }

    method SetAllActive(active: bool)
      modifies this`allActive
      ensures allActive == active
    {
      allActive := active;
    }

    method SetWeight(name: string, weight: int)
      modifies this`weights
      ensures weights == old(weights)[name := weight]
    {
      weights := weights[name := weight];
    }

    method Activate(name: string) returns (known: bool)
      modifies this`active
      ensures known <==> name in transports
      ensures active == if known then old(active)[name := true] else old(active)
    {
      known := name in transports;
      if known {
        active := active[name := true];
      }
    }

    method Deactivate(name: string)
      modifies this`active
      ensures active == old(active) - {name}
    {
      active := active - {name};
    }

    /** `events` is the interleaving the workers happen to run in; the result is the
        primary transport, or the names of the transports that failed. */
    method ConnectAll(events: seq<Event>) returns (r: Result<string, seq<string>>)
      requires Valid()
      requires CompleteRun(StartPool(transports.Keys, Open()), events)
      modifies this`active, transports.Values
      ensures Valid()
      ensures ConnectsAll(allActive, old(transports.Keys), old(Open()), old(active), events, Open(), active, r)
    {
      ghost var start := StartPool(transports.Keys, Open());
      var resultChan := RunWorkers(events);
      RunConsistent(start, events);
      r := Settle(resultChan);
    }

    /** What ConnectAll does once every worker is done and the channel is closed. */
    method Settle(resultChan: seq<Report>) returns (r: Result<string, seq<string>>)
      requires Valid() && OneReportEach(resultChan)
      requires forall i :: 0 <= i < |resultChan| ==> resultChan[i].name in transports
      modifies this`active, transports.Values
      ensures Settled(allActive, resultChan, old(Open()), old(active), Open(), active, r)
    {
      var candidates, errors := Drain(resultChan);
      CandidatesFacts(resultChan);
      if |candidates| == 0 {
        return Failure(errors);
      }
      var sorted := SortByKey(candidates);
      BestFirst(resultChan, sorted);
      Keep(sorted, resultChan);
      r := Success(sorted[0].name);
    }

    /** Activates every candidate, or the first one only, by mode. */
    method Keep(sorted: seq<Keyed>, ghost reports: seq<Report>)
      requires Valid() && OneReportEach(reports)
      requires sorted == SortByKey(Candidates(reports)) && |Candidates(reports)| > 0
      requires forall i :: 0 <= i < |reports| ==> reports[i].name in transports
      modifies this`active, transports.Values
      ensures |sorted| > 0
      ensures allActive ==> active == old(active) + AllTrue(Succeeded(reports)) && Open() == old(Open())
      ensures !allActive ==> active == old(active)[sorted[0].name := true]
      ensures !allActive ==> Open() == old(Open()) - (Succeeded(reports) - {sorted[0].name})
    {
      BestFirst(reports, sorted);
      if allActive {
        ActivateAll(sorted);
      } else {
        KeepBest(sorted, reports);
      }
    }

    /** The goroutines: each checks the deadline, connects, and queues its result. */
    method RunWorkers(events: seq<Event>) returns (resultChan: seq<Report>)
      requires Valid()
      requires ValidRun(StartPool(transports.Keys, Open()), events)
      modifies transports.Values
      ensures var p := RunPool(StartPool(old(transports.Keys), old(Open())), events);
              p.reports == resultChan && p.open == Open()
    {
      var timedOut, phase := false, map n | n in transports :: Waiting;
      resultChan := [];
      ghost var start := StartPool(transports.Keys, Open());
      for i := 0 to |events|
        invariant Pool(timedOut, phase, Open(), resultChan) == RunPool(start, events[..i])
        invariant phase.Keys == transports.Keys
        invariant ValidRun(Pool(timedOut, phase, Open(), resultChan), events[i..])
      {
        RunSnoc(start, events, i);
        ghost var before := Pool(timedOut, phase, Open(), resultChan);
        match events[i] {
          case Timeout =>
            timedOut := true;
          case Begin(n) =>
            phase := phase[n := if timedOut then Skipped else Connecting];
          case Finish(n, o) =>
            transports[n].Connect(o);
            phase, resultChan := phase[n := Reported], resultChan + [Report(n, o)];
            assert Open() == if LeavesOpen(o) then before.open + {n} else before.open - {n};
        }
        assert Pool(timedOut, phase, Open(), resultChan) == Step(before, events[i]);
        assert events[i..][1..] == events[i + 1..];
      }
      assert events[..|events|] == events;
    }

    /** Reads the closed channel: failed transports are disconnected, the others kept. */
    method Drain(resultChan: seq<Report>) returns (candidates: seq<Keyed>, errors: seq<string>)
      requires Valid()
      requires forall i :: 0 <= i < |resultChan| ==> resultChan[i].name in transports
      modifies transports.Values
      ensures candidates == Candidates(resultChan) && errors == Refusals(resultChan)
      ensures Open() == old(Open()) - Failed(resultChan)
    {
      candidates, errors := [], [];
      for i := 0 to |resultChan|
        invariant candidates == Candidates(resultChan[..i]) && errors == Refusals(resultChan[..i])
        invariant Open() == old(Open()) - Failed(resultChan[..i])
      {
        var res := resultChan[i];
        var upto := resultChan[..i];
        assert resultChan[..i + 1] == upto + [res];
        FailedSnoc(upto, res);
        if res.outcome.Refused? {
          errors := errors + [res.name];
          Close(res.name);
          MinusTwice(old(Open()), Failed(upto), {res.name});
        } else {
          candidates := candidates + [Keyed(res.name, -res.outcome.score)];
        }
      }
      assert resultChan[..|resultChan|] == resultChan;
    }

    /** Best mode: the first candidate becomes active, the others are disconnected. */
    method KeepBest(sorted: seq<Keyed>, ghost reports: seq<Report>)
      requires Valid() && OneReportEach(reports)
      requires sorted == SortByKey(Candidates(reports)) && |Candidates(reports)| > 0
      requires forall i :: 0 <= i < |reports| ==> reports[i].name in transports
      modifies this`active, transports.Values
      ensures |sorted| > 0 && active == old(active)[sorted[0].name := true]
      ensures Open() == old(Open()) - (Succeeded(reports) - {sorted[0].name})
    {
      LosersFacts(reports, sorted);
      active := active[sorted[0].name := true];
      DisconnectLosers(sorted[1..]);
    }

    method Close(name: string)
      requires Valid() && name in transports
      modifies transports[name]
      ensures Open() == old(Open()) - {name}
    {
      transports[name].Disconnect();
      assert forall n :: n in transports && n != name ==> transports[n] != transports[name];
    }

    method ActivateAll(sorted: seq<Keyed>)
      modifies this`active
      ensures active == old(active) + AllTrue(NameSet(sorted))
    {
      for i := 0 to |sorted|
        invariant active == old(active) + AllTrue(NameSet(sorted[..i]))
      {
        active := active[sorted[i].name := true];
        assert NameSet(sorted[..i + 1]) == NameSet(sorted[..i]) + {sorted[i].name};
      }
      assert sorted[..|sorted|] == sorted;
    }

    method DisconnectLosers(losers: seq<Keyed>)
      requires Valid()
      requires NameSet(losers) <= transports.Keys
      modifies transports.Values
      ensures Open() == old(Open()) - NameSet(losers)
    {
      for i := 0 to |losers|
        invariant Open() == old(Open()) - NameSet(losers[..i])
      {
        assert losers[i].name in NameSet(losers);
        Close(losers[i].name);
        assert NameSet(losers[..i + 1]) == NameSet(losers[..i]) + {losers[i].name};
      }
      assert losers[..|losers|] == losers;
    }

    method DisconnectAll()
      requires Valid()
      modifies this`active, transports.Values
      ensures Valid() && active == map[]
      ensures Open() == old(Open()) - ActiveNames(old(active))
    {
      var todo := transports.Keys;
      while todo != {}
        invariant todo <= transports.Keys && active == old(active)
        invariant Open() == old(Open()) - (ActiveNames(active) - todo)
        decreases |todo|
      {
        var n :| n in todo;
        todo := todo - {n};
        if n in active && active[n] {
          Close(n);
        }
      }
      assert ActiveNames(active) - todo == ActiveNames(active);
      active := map[];
    }

    method TotalWeight() returns (total: int)
      ensures total == Sum(weights)
    {
      total := 0;
      var rest := weights;
      while rest != map[]
        invariant total + Sum(rest) == Sum(weights)
        decreases |rest|
      {
        var n :| n in rest;
        SumTake(rest, n);
        Drop(rest, n);
        total, rest := total + rest[n], rest - {n};
      }
    }

    method NormalizeWeights()
      modifies this`weights
      ensures weights == if Sum(old(weights)) == 0 then old(weights) else Scaled(old(weights), Sum(old(weights)))
      ensures Sum(old(weights)) != 0 ==>
        && weights.Keys == old(weights).Keys
        && forall n :: n in weights ==> weights[n] == Quotient(old(weights)[n] * 100, Sum(old(weights)))
    {
      var total := TotalWeight();
      if total == 0 {
        return;
      }
      var before, todo := weights, weights.Keys;
      while todo != {}
        invariant todo <= weights.Keys == before.Keys
        invariant forall n :: n in weights ==>
          weights[n] == if n in todo then before[n] else Quotient(before[n] * TARGET, total)
        decreases |todo|
      {
        var n :| n in todo;
        todo := todo - {n};
        weights := weights[n := Quotient(weights[n] * TARGET, total)];
      }
    }
  }

  // ----- Helpers ------------------------------------------------------------------

  ghost function ActiveNames(active: map<string, bool>): set<string> {
    set n | n in active && active[n]
  }

  ghost function NameSet(s: seq<Keyed>): set<string> {
    set i | 0 <= i < |s| :: s[i].name
  }

  /** The successes in the order their results arrived. */
  function Candidates(reports: seq<Report>): seq<Keyed> {
    if reports == [] then []
    else
      var last := reports[|reports| - 1];
      Candidates(reports[..|reports| - 1]) +
      if last.outcome.Connected? then [Keyed(last.name, -last.outcome.score)] else []
  }

  /** `x` is the candidate the i-th report makes. */
  ghost predicate CandidateAt(reports: seq<Report>, i: int, x: Keyed) {
    0 <= i < |reports| && reports[i].outcome.Connected? && x == Keyed(reports[i].name, -reports[i].outcome.score)
  }

  /** The names of the failures, in the order their errors are joined. */
  function Refusals(reports: seq<Report>): seq<string> {
    if reports == [] then []
    else
      var last := reports[|reports| - 1];
      Refusals(reports[..|reports| - 1]) + if last.outcome.Refused? then [last.name] else []
  }

  lemma {:induction false} RunSnoc(p: Pool, events: seq<Event>, i: nat)
    requires i < |events|
    ensures RunPool(p, events[..i + 1]) == Step(RunPool(p, events[..i]), events[i])
    decreases i
  {
    if i > 0 {
      RunSnoc(Step(p, events[0]), events[1..], i - 1);
      assert events[..i + 1][1..] == events[1..][..i];
      assert events[..i][1..] == events[1..][..i - 1];
    }
  }

  lemma MinusTwice(a: set<string>, b: set<string>, c: set<string>)
    ensures a - b - c == a - (b + c)
  {
  }

  lemma FailedSnoc(reports: seq<Report>, res: Report)
    ensures Failed(reports + [res]) == Failed(reports) + if res.outcome.Refused? then {res.name} else {}
  {
    var more := reports + [res];
    assert more[|reports|] == res;
    forall n | n in Failed(reports) ensures n in Failed(more) {
      var i :| 0 <= i < |reports| && reports[i].outcome.Refused? && reports[i].name == n;
      assert more[i] == reports[i];
    }
  }

  /** The reports of a run: one per reported worker, in the order they finished. */
  ghost predicate Consistent(p: Pool) {
    && OneReportEach(p.reports)
    && (forall i :: 0 <= i < |p.reports| ==>
          p.reports[i].name in p.phase && p.phase[p.reports[i].name] == Reported)
  }

  lemma {:induction false} RunConsistent(p: Pool, events: seq<Event>)
    requires Consistent(p) && ValidRun(p, events)
    ensures Consistent(RunPool(p, events)) && RunPool(p, events).phase.Keys == p.phase.Keys
    decreases |events|
  {
    if events != [] {
      RunConsistent(Step(p, events[0]), events[1..]);
    }
  }

  /** The candidates are exactly the successes with their scores negated. */
  lemma {:induction false} CandidatesFacts(reports: seq<Report>)
    ensures NameSet(Candidates(reports)) == Succeeded(reports)
    ensures forall x :: x in Candidates(reports) <==>
      exists i :: CandidateAt(reports, i, x)
    decreases |reports|
  {
    if reports != [] {
      var front, last := reports[..|reports| - 1], reports[|reports| - 1];
      CandidatesFacts(front);
      forall x: Keyed
        ensures x in Candidates(reports) <==>
          exists i :: CandidateAt(reports, i, x)
      {
        if x in Candidates(front) {
          var i :| CandidateAt(front, i, x);
          assert reports[i] == front[i] && CandidateAt(reports, i, x);
        }
        if exists i :: CandidateAt(reports, i, x) {
          var i :| CandidateAt(reports, i, x);
          assert i < |front| ==> CandidateAt(front, i, x);
        } else {
          assert !CandidateAt(reports, |front|, x);
        }
      }
    }
    NamesOfCandidates(reports);
  }

  lemma NamesOfCandidates(reports: seq<Report>)
    requires forall x :: x in Candidates(reports) <==>
      exists i :: CandidateAt(reports, i, x)
    ensures NameSet(Candidates(reports)) == Succeeded(reports)
  {
    var c := Candidates(reports);
    forall n | n in NameSet(c) ensures n in Succeeded(reports) {
      var i :| 0 <= i < |c| && c[i].name == n;
      assert c[i] in c;
    }
    forall n | n in Succeeded(reports) ensures n in NameSet(c) {
      var i :| 0 <= i < |reports| && reports[i].outcome.Connected? && reports[i].name == n;
      var x := Keyed(n, -reports[i].outcome.score);
      assert CandidateAt(reports, i, x) && x in c;
    }
  }

  lemma SortedNameSet(reports: seq<Report>, sorted: seq<Keyed>)
    requires sorted == SortByKey(Candidates(reports))
    ensures NameSet(sorted) == Succeeded(reports)
    ensures forall x :: x in sorted <==> x in Candidates(reports)
  {
    var c := Candidates(reports);
    CandidatesFacts(reports);
    forall x: Keyed ensures x in sorted <==> x in c {
      SortKeeps(c, x);
    }
    forall n | n in NameSet(sorted) ensures n in NameSet(c) {
      var i :| 0 <= i < |sorted| && sorted[i].name == n;
      assert sorted[i] in c;
    }
    forall n | n in NameSet(c) ensures n in NameSet(sorted) {
      var i :| 0 <= i < |c| && c[i].name == n;
      assert c[i] in sorted;
    }
  }

  lemma BestFirst(reports: seq<Report>, sorted: seq<Keyed>)
    requires sorted == SortByKey(Candidates(reports)) && |Candidates(reports)| > 0
    ensures |sorted| > 0 && HasBestScore(reports, sorted[0].name)
    ensures NameSet(sorted) == Succeeded(reports) != {}
  {
    var c := Candidates(reports);
    SortKeeps(c, c[0]);
    SortedNameSet(reports, sorted);
    CandidatesFacts(reports);
    var first := sorted[0];
    assert first in sorted && first.name in NameSet(sorted);
    var i :| CandidateAt(reports, i, first);
    forall j | 0 <= j < |reports| && reports[j].outcome.Connected?
      ensures reports[j].outcome.score <= reports[i].outcome.score
    {
      var x := Keyed(reports[j].name, -reports[j].outcome.score);
      assert CandidateAt(reports, j, x) && x in sorted;
      var k :| 0 <= k < |sorted| && sorted[k] == x;
    }
  }

  lemma LosersFacts(reports: seq<Report>, sorted: seq<Keyed>)
    requires OneReportEach(reports)
    requires sorted == SortByKey(Candidates(reports)) && |Candidates(reports)| > 0
    ensures |sorted| > 0 && NameSet(sorted[1..]) == Succeeded(reports) - {sorted[0].name}
  {
    BestFirst(reports, sorted);
    var tail := sorted[1..];
    forall n | n in NameSet(tail) ensures n in Succeeded(reports) - {sorted[0].name} {
      var i :| 0 <= i < |tail| && tail[i].name == n;
      assert sorted[i + 1] == tail[i] && sorted[i + 1].name in NameSet(sorted);
      NoDuplicates(reports, sorted, 0, i + 1);
    }
    forall n | n in Succeeded(reports) - {sorted[0].name} ensures n in NameSet(tail) {
      var i :| 0 <= i < |sorted| && sorted[i].name == n;
      assert tail[i - 1] == sorted[i];
    }
  }

  lemma NoDuplicates(reports: seq<Report>, sorted: seq<Keyed>, i: nat, j: nat)
    requires OneReportEach(reports) && sorted == SortByKey(Candidates(reports)) && i < j < |sorted|
    ensures sorted[i].name != sorted[j].name
  {
    if sorted[i].name == sorted[j].name {
      SameNameSameCandidate(reports, sorted, sorted[i], sorted[j]);
      OccursTwice(sorted, i, j);
      CandidatesOnce(reports, sorted[i]);
    }
  }

  lemma SameNameSameCandidate(reports: seq<Report>, sorted: seq<Keyed>, x: Keyed, y: Keyed)
    requires OneReportEach(reports) && sorted == SortByKey(Candidates(reports))
    requires x in sorted && y in sorted && x.name == y.name
    ensures x == y
  {
    SortedNameSet(reports, sorted);
    CandidatesFacts(reports);
    var i :| CandidateAt(reports, i, x);
    var j :| CandidateAt(reports, j, y);
    assert reports[i].name == reports[j].name;
  }

  lemma {:induction false} CandidatesOnce(reports: seq<Report>, x: Keyed)
    requires OneReportEach(reports)
    ensures multiset(Candidates(reports))[x] <= 1
    decreases |reports|
  {
    if reports != [] {
      var front, last := reports[..|reports| - 1], reports[|reports| - 1];
      CandidatesOnce(front, x);
      if x.name == last.name {
        CandidatesFacts(front);
        assert forall i :: 0 <= i < |front| ==> front[i].name == reports[i].name != last.name;
        assert x !in Candidates(front);
        assert multiset(Candidates(front))[x] == 0;
      }
    }
  }
}
