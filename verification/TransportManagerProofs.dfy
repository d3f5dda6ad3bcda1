/** What ConnectAll guarantees over every interleaving of its workers. */
module TransportManagerProofs {
  import opened Slices
  import opened Sums
  import opened TransportManager
  import opened WeightMath
  import opened Wrappers

  /** The transports whose Connect returned. */
  ghost function Reporters(reports: seq<Report>): set<string> {
    set i | 0 <= i < |reports| :: reports[i].name
  }

  /** Some report of `n` leaves it open. */
  ghost predicate ReportedOpen(reports: seq<Report>, n: string) {
    exists i :: 0 <= i < |reports| && reports[i].name == n && LeavesOpen(reports[i].outcome)
  }

  /** While the workers run, a transport that has reported is open exactly if its
      report says so; the others are as they were. */
  ghost predicate OpenByReport(p: Pool, open0: set<string>) {
    && Consistent(p)
    && forall n :: n in p.open <==> if n in Reporters(p.reports) then ReportedOpen(p.reports, n) else n in open0
  }

  lemma ReportedOpenSnoc(reports: seq<Report>, last: Report, n: string)
    ensures n in Reporters(reports + [last]) <==> n in Reporters(reports) || n == last.name
    ensures ReportedOpen(reports + [last], n) <==>
      ReportedOpen(reports, n) || (n == last.name && LeavesOpen(last.outcome))
  {
    var more := reports + [last];
    assert more[|reports|] == last;
    assert forall i :: 0 <= i < |reports| ==> more[i] == reports[i];
    if n in Reporters(reports) {
      var i :| 0 <= i < |reports| && reports[i].name == n;
      assert more[i].name == n;
    }
    if ReportedOpen(reports, n) {
      var i :| 0 <= i < |reports| && reports[i].name == n && LeavesOpen(reports[i].outcome);
      assert more[i].name == n && LeavesOpen(more[i].outcome);
    }
  }

  lemma StepKeepsOpen(p: Pool, open0: set<string>, e: Event)
    requires OpenByReport(p, open0) && Enabled(p, e)
    ensures OpenByReport(Step(p, e), open0)
  {
    if e.Finish? {
      forall n
        ensures n in Step(p, e).open <==>
          if n in Reporters(Step(p, e).reports) then ReportedOpen(Step(p, e).reports, n) else n in open0
      {
        ReportedOpenSnoc(p.reports, Report(e.name, e.outcome), n);
      }
    }
  }

  lemma {:induction false} RunKeepsOpen(p: Pool, open0: set<string>, events: seq<Event>)
    requires OpenByReport(p, open0) && ValidRun(p, events)
    ensures OpenByReport(RunPool(p, events), open0)
    decreases |events|
  {
    if events != [] {
      StepKeepsOpen(p, open0, events[0]);
      RunKeepsOpen(Step(p, events[0]), open0, events[1..]);
    }
  }

  lemma ReportersSplit(reports: seq<Report>)
    requires OneReportEach(reports)
    ensures Reporters(reports) == Succeeded(reports) + Failed(reports)
    ensures Succeeded(reports) !! Failed(reports)
  {
    forall n | n in Reporters(reports) ensures n in Succeeded(reports) + Failed(reports) {
      var i :| 0 <= i < |reports| && reports[i].name == n;
    }
    forall n | n in Succeeded(reports) + Failed(reports) ensures n in Reporters(reports) {
      var i :| 0 <= i < |reports| && reports[i].name == n;
    }
  }

  /** Disconnecting the failures leaves the successes open, and whatever was open
      before and never reported. */
  lemma KeptOpen(p: Pool, open0: set<string>)
    requires OpenByReport(p, open0)
    ensures p.open - Failed(p.reports) == Succeeded(p.reports) + (open0 - Reporters(p.reports))
  {
    var reports := p.reports;
    ReportersSplit(reports);
    forall n ensures n in p.open - Failed(reports) <==> n in Succeeded(reports) + (open0 - Reporters(reports)) {
      if n in Succeeded(reports) {
        var i :| 0 <= i < |reports| && reports[i].outcome.Connected? && reports[i].name == n;
        assert LeavesOpen(reports[i].outcome);
      }
    }
  }

  /** ConnectAll from any state, for every set of outcomes, completion order and
      skipped subset. It errs exactly when no transport connected. What was open
      before and did not report stays open and is not activated; of the others, best
      mode leaves open one transport no success outscores, all-active mode exactly
      the successes. What a DisconnectAll would leave open only shrinks, by the
      transports that reported. */
  lemma ConnectAllFromAnyState(
    allActive: bool, names: set<string>, open0: set<string>, active0: map<string, bool>, events: seq<Event>,
    open: set<string>, active: map<string, bool>, r: Result<string, seq<string>>)
    requires CompleteRun(StartPool(names, open0), events)
    requires ConnectsAll(allActive, names, open0, active0, events, open, active, r)
    ensures var reports := RunPool(StartPool(names, open0), events).reports;
            && Succeeded(reports) <= Reporters(reports) <= names
            && (r.Failure? <==> Succeeded(reports) == {})
            && (r.Failure? ==> open == open0 - Reporters(reports) && active == active0)
            && (r.Success? ==> HasBestScore(reports, r.value) && r.value in Succeeded(reports))
            && (r.Success? && !allActive ==>
                  open == {r.value} + (open0 - Reporters(reports)) && active == active0[r.value := true])
            && (r.Success? && allActive ==>
                  && open == Succeeded(reports) + (open0 - Reporters(reports))
                  && active == active0 + AllTrue(Succeeded(reports)))
            && Stranded(open, active) == Stranded(open0, active0) - Reporters(reports)
  {
    var start := StartPool(names, open0);
    RunConsistent(start, events);
    RunKeepsOpen(start, open0, events);
    var p := RunPool(start, events);
    KeptOpen(p, open0);
    ReportersSplit(p.reports);
    assert Reporters(p.reports) <= names;
    if r.Success? {
      BestIsSuccess(p.reports, r.value);
    }
    StrandedAfter(allActive, p.reports, open0, active0, open, active, r);
  }

  /** What DisconnectAll leaves open: the transports that are open but not active. */
  ghost function Stranded(open: set<string>, active: map<string, bool>): set<string> {
    open - ActiveNames(active)
  }

  lemma StrandedAfter(
    allActive: bool, reports: seq<Report>, open0: set<string>, active0: map<string, bool>,
    open: set<string>, active: map<string, bool>, r: Result<string, seq<string>>)
    requires Succeeded(reports) <= Reporters(reports) && (r.Success? ==> r.value in Succeeded(reports))
    requires active == if r.Failure? then active0 else if allActive then active0 + AllTrue(Succeeded(reports))
                       else active0[r.value := true]
    requires open == (if r.Failure? then {} else if allActive then Succeeded(reports) else {r.value})
                     + (open0 - Reporters(reports))
    ensures Stranded(open, active) == Stranded(open0, active0) - Reporters(reports)
  {
  }

  /** ConnectAll with nothing active or open before: in best mode the one transport
      left open is the active one, in all-active mode exactly the successes are open
      and active, and a DisconnectAll that follows leaves nothing open. */
  lemma ConnectAllOutcome(
    allActive: bool, names: set<string>, events: seq<Event>,
    open: set<string>, active: map<string, bool>, r: Result<string, seq<string>>)
    requires CompleteRun(StartPool(names, {}), events)
    requires ConnectsAll(allActive, names, {}, map[], events, open, active, r)
    ensures var reports := RunPool(StartPool(names, {}), events).reports;
            && (r.Failure? <==> Succeeded(reports) == {})
            && (r.Failure? ==> open == {} && active == map[])
            && (r.Success? ==> HasBestScore(reports, r.value) && r.value in Succeeded(reports))
            && (r.Success? && !allActive ==> open == {r.value} && active == map[r.value := true])
            && (r.Success? && allActive ==>
                  open == Succeeded(reports) && active == AllTrue(Succeeded(reports)))
            && Succeeded(reports) <= names
    ensures Stranded(open, active) == {}
  {
    ConnectAllFromAnyState(allActive, names, {}, map[], events, open, active, r);
    var reports := RunPool(StartPool(names, {}), events).reports;
    assert map[] + AllTrue(Succeeded(reports)) == AllTrue(Succeeded(reports));
  }

  // ----- Who reports ---------------------------------------------------------------

  /** A worker has reported exactly if a report carries its name, and workers give up
      only after the deadline. */
  ghost predicate PhasesExplained(p: Pool) {
    && (forall n :: n in p.phase && p.phase[n] == Reported ==>
          exists i :: 0 <= i < |p.reports| && p.reports[i].name == n)
    && (forall n :: n in p.phase && p.phase[n] == Skipped ==> p.timedOut)
  }

  lemma StepKeepsPhases(p: Pool, e: Event)
    requires PhasesExplained(p) && Enabled(p, e)
    ensures PhasesExplained(Step(p, e))
    ensures Step(p, e).timedOut ==> p.timedOut || e == Timeout
  {
    var q := Step(p, e);
    if e.Finish? {
      assert q.reports[|p.reports|].name == e.name;
      forall n | n in q.phase && q.phase[n] == Reported
        ensures exists i :: 0 <= i < |q.reports| && q.reports[i].name == n
      {
        if n != e.name {
          var i :| 0 <= i < |p.reports| && p.reports[i].name == n;
          assert q.reports[i].name == n;
        }
      }
    }
  }

  lemma {:induction false} RunKeepsPhases(p: Pool, events: seq<Event>)
    requires PhasesExplained(p) && ValidRun(p, events)
    ensures PhasesExplained(RunPool(p, events))
    ensures RunPool(p, events).timedOut ==> p.timedOut || Timeout in events
    decreases |events|
  {
    if events != [] {
      StepKeepsPhases(p, events[0]);
      RunKeepsPhases(Step(p, events[0]), events[1..]);
    }
  }

  /** The worker of `n` passes its deadline check before the deadline does. */
  ghost predicate BeginsInTime(events: seq<Event>, n: string) {
    exists i :: 0 <= i < |events| && events[i] == Begin(n) && Timeout !in events[..i]
  }

  /** `n` has been tried, or the rest of the run will try it. */
  ghost predicate Tried(p: Pool, events: seq<Event>, n: string)
    requires n in p.phase
  {
    || p.phase[n] == Connecting
    || p.phase[n] == Reported
    || (p.phase[n] == Waiting && !p.timedOut && BeginsInTime(events, n))
  }

  lemma BeginsLater(events: seq<Event>, n: string)
    requires events != [] && events[0] != Begin(n)
    ensures BeginsInTime(events, n) <==> events[0] != Timeout && BeginsInTime(events[1..], n)
  {
    var rest := events[1..];
    if BeginsInTime(events, n) {
      var i :| 0 <= i < |events| && events[i] == Begin(n) && Timeout !in events[..i];
      assert events[..i][0] == events[0] && events[..i][1..] == rest[..i - 1];
      assert rest[i - 1] == Begin(n) && Timeout !in rest[..i - 1];
    }
    if events[0] != Timeout && BeginsInTime(rest, n) {
      var i :| 0 <= i < |rest| && rest[i] == Begin(n) && Timeout !in rest[..i];
      assert events[..i + 1] == [events[0]] + rest[..i];
      assert events[i + 1] == Begin(n) && Timeout !in events[..i + 1];
    }
  }

  lemma StepKeepsTried(p: Pool, events: seq<Event>, n: string)
    requires events != [] && Enabled(p, events[0]) && n in p.phase
    ensures Tried(p, events, n) <==> Tried(Step(p, events[0]), events[1..], n)
  {
    if events[0] == Begin(n) {
      assert events[..0] == [];
    } else {
      BeginsLater(events, n);
    }
  }

  lemma {:induction false} TriedReports(p: Pool, events: seq<Event>, n: string)
    requires ValidRun(p, events) && AllDone(RunPool(p, events)) && n in p.phase
    ensures n in RunPool(p, events).phase
    ensures RunPool(p, events).phase[n] == Reported <==> Tried(p, events, n)
    decreases |events|
  {
    if events != [] {
      StepKeepsTried(p, events, n);
      TriedReports(Step(p, events[0]), events[1..], n);
    }
  }

  /** A transport reports exactly if its worker begins before the deadline passes. */
  lemma WhoReports(names: set<string>, open0: set<string>, events: seq<Event>, n: string)
    requires CompleteRun(StartPool(names, open0), events)
    ensures n in Reporters(RunPool(StartPool(names, open0), events).reports) <==>
      n in names && BeginsInTime(events, n)
  {
    var start := StartPool(names, open0);
    var p := RunPool(start, events);
    RunConsistent(start, events);
    RunKeepsPhases(start, events);
    if n in names {
      TriedReports(start, events, n);
    }
  }

  /** If the deadline does not pass, every transport is tried and reports. */
  lemma EveryoneReports(names: set<string>, open: set<string>, events: seq<Event>)
    requires CompleteRun(StartPool(names, open), events) && Timeout !in events
    ensures var reports := RunPool(StartPool(names, open), events).reports;
            Succeeded(reports) + Failed(reports) == names
  {
    var start := StartPool(names, open);
    var p := RunPool(start, events);
    RunConsistent(start, events);
    RunKeepsPhases(start, events);
    AllReported(p);
    ReportersSplit(p.reports);
  }

  lemma AllReported(p: Pool)
    requires Consistent(p) && PhasesExplained(p) && AllDone(p) && !p.timedOut
    ensures Reporters(p.reports) == p.phase.Keys
  {
    forall n | n in p.phase ensures n in Reporters(p.reports) {
      assert p.phase[n] == Reported;
      var i :| 0 <= i < |p.reports| && p.reports[i].name == n;
    }
  }

  /** When DisconnectAll closes everything after ConnectAll: exactly if each transport
      that was already open was marked active, or its worker begins in time. */
  lemma NothingStrandedExactly(
    allActive: bool, names: set<string>, open0: set<string>, active0: map<string, bool>, events: seq<Event>,
    open: set<string>, active: map<string, bool>, r: Result<string, seq<string>>)
    requires CompleteRun(StartPool(names, open0), events) && open0 <= names
    requires ConnectsAll(allActive, names, open0, active0, events, open, active, r)
    ensures Stranded(open, active) == {} <==>
      forall n :: n in open0 ==> n in ActiveNames(active0) || BeginsInTime(events, n)
  {
    ConnectAllFromAnyState(allActive, names, open0, active0, events, open, active, r);
    forall n | n in open0
      ensures n in Stranded(open, active) <==> !(n in ActiveNames(active0) || BeginsInTime(events, n))
    {
      WhoReports(names, open0, events, n);
    }
  }

  // ----- In terms of what the workers met ---------------------------------------------

  /** Some worker's Connect on `n` returned without an error. */
  ghost predicate ConnectedIn(events: seq<Event>, n: string) {
    exists score :: Finish(n, Connected(score)) in events
  }

  ghost predicate RefusedIn(events: seq<Event>, n: string) {
    exists leftOpen :: Finish(n, Refused(leftOpen)) in events
  }

  /** The reports are what the workers met, nothing else and nothing lost. */
  lemma {:induction false} ReportsAreFinishes(p: Pool, events: seq<Event>, n: string, o: Outcome)
    requires ValidRun(p, events)
    ensures Report(n, o) in RunPool(p, events).reports <==> Report(n, o) in p.reports || Finish(n, o) in events
    decreases |events|
  {
    if events != [] {
      ReportsAreFinishes(Step(p, events[0]), events[1..], n, o);
      assert events == [events[0]] + events[1..];
    }
  }

  lemma SucceededIs(reports: seq<Report>, n: string)
    ensures n in Succeeded(reports) <==> exists score :: Report(n, Connected(score)) in reports
  {
    if n in Succeeded(reports) {
      var i :| 0 <= i < |reports| && reports[i].outcome.Connected? && reports[i].name == n;
      assert reports[i] == Report(n, Connected(reports[i].outcome.score));
    }
  }

  lemma SuccessesMet(names: set<string>, open0: set<string>, events: seq<Event>, n: string)
    requires ValidRun(StartPool(names, open0), events)
    ensures n in Succeeded(RunPool(StartPool(names, open0), events).reports) <==> ConnectedIn(events, n)
  {
    var start := StartPool(names, open0);
    var reports := RunPool(start, events).reports;
    SucceededIs(reports, n);
    forall score: real ensures Report(n, Connected(score)) in reports <==> Finish(n, Connected(score)) in events {
      ReportsAreFinishes(start, events, n, Connected(score));
    }
  }

  /** The names in the joined error: the refusals, in the order they were reported. */
  lemma {:induction false} RefusalsAre(reports: seq<Report>)
    ensures forall n :: n in Refusals(reports) <==>
      exists i :: 0 <= i < |reports| && reports[i].name == n && reports[i].outcome.Refused?
    ensures OneReportEach(reports) ==> Distinct(Refusals(reports))
    decreases |reports|
  {
    if reports != [] {
      var front, last := reports[..|reports| - 1], reports[|reports| - 1];
      RefusalsAre(front);
      forall n ensures n in Refusals(reports) <==>
        exists i :: 0 <= i < |reports| && reports[i].name == n && reports[i].outcome.Refused?
      {
        if n in Refusals(front) {
          var i :| 0 <= i < |front| && front[i].name == n && front[i].outcome.Refused?;
          assert reports[i] == front[i];
        }
        if i :| 0 <= i < |reports| && reports[i].name == n && reports[i].outcome.Refused? {
          assert i < |front| ==> front[i] == reports[i];
        }
      }
      if OneReportEach(reports) {
        assert last.name !in Refusals(front) by {
          assert forall i :: 0 <= i < |front| ==> front[i].name == reports[i].name != last.name;
        }
        DistinctSnoc(Refusals(front), last.name);
      }
    }
  }

  lemma DistinctSnoc(s: seq<string>, x: string)
    requires Distinct(s) && x !in s
    ensures Distinct(s + [x])
  {
    assert forall i :: 0 <= i < |s| ==> s[i] in s;
  }

  lemma RefusalsMet(names: set<string>, open0: set<string>, events: seq<Event>, n: string)
    requires ValidRun(StartPool(names, open0), events)
    ensures n in Refusals(RunPool(StartPool(names, open0), events).reports) <==> RefusedIn(events, n)
  {
    var start := StartPool(names, open0);
    var reports := RunPool(start, events).reports;
    RefusalsAre(reports);
    if n in Refusals(reports) {
      var i :| 0 <= i < |reports| && reports[i].name == n && reports[i].outcome.Refused?;
      assert reports[i] == Report(n, Refused(reports[i].outcome.leftOpen));
      ReportsAreFinishes(start, events, n, reports[i].outcome);
    }
    if RefusedIn(events, n) {
      var leftOpen :| Finish(n, Refused(leftOpen)) in events;
      ReportsAreFinishes(start, events, n, Refused(leftOpen));
    }
  }

  lemma BestMet(names: set<string>, open0: set<string>, events: seq<Event>, primary: string)
    requires ValidRun(StartPool(names, open0), events)
    requires HasBestScore(RunPool(StartPool(names, open0), events).reports, primary)
    ensures exists best ::
      && Finish(primary, Connected(best)) in events
      && forall n, score :: Finish(n, Connected(score)) in events ==> score <= best
  {
    var start := StartPool(names, open0);
    var reports := RunPool(start, events).reports;
    var i :| 0 <= i < |reports| && reports[i].name == primary && reports[i].outcome.Connected?
      && forall j :: 0 <= j < |reports| && reports[j].outcome.Connected? ==>
           reports[j].outcome.score <= reports[i].outcome.score;
    var best := reports[i].outcome.score;
    assert reports[i] == Report(primary, Connected(best));
    ReportsAreFinishes(start, events, primary, Connected(best));
    forall n, score | Finish(n, Connected(score)) in events ensures score <= best {
      ReportsAreFinishes(start, events, n, Connected(score));
      var j :| 0 <= j < |reports| && reports[j] == Report(n, Connected(score));
    }
  }

  /** ConnectAll in terms of what the workers met: it fails exactly if no Connect
      succeeded, with an error that names each refused transport once and nothing else;
      otherwise its primary connected with a score no other success beats, and in
      all-active mode exactly the connected transports become active. */
  lemma ConnectAllByEvents(
    allActive: bool, names: set<string>, open0: set<string>, active0: map<string, bool>, events: seq<Event>,
    open: set<string>, active: map<string, bool>, r: Result<string, seq<string>>)
    requires CompleteRun(StartPool(names, open0), events)
    requires ConnectsAll(allActive, names, open0, active0, events, open, active, r)
    ensures r.Failure? <==> forall n :: !ConnectedIn(events, n)
    ensures r.Failure? ==> Distinct(r.error) && forall n :: n in r.error <==> RefusedIn(events, n)
    ensures r.Success? ==> exists best ::
      && Finish(r.value, Connected(best)) in events
      && forall n, score :: Finish(n, Connected(score)) in events ==> score <= best
    ensures r.Success? && allActive ==> forall n :: ConnectedIn(events, n) ==> n in active && active[n] && n in open
    ensures r.Success? && !allActive ==> forall n :: ConnectedIn(events, n) && n != r.value ==> n !in open
  {
    ConnectAllFromAnyState(allActive, names, open0, active0, events, open, active, r);
    var start := StartPool(names, open0);
    var reports := RunPool(start, events).reports;
    forall n ensures n in Succeeded(reports) <==> ConnectedIn(events, n) {
      SuccessesMet(names, open0, events, n);
    }
    RunConsistent(start, events);
    RefusalsAre(reports);
    if r.Failure? {
      assert r.error == Refusals(reports);
      forall n ensures n in r.error <==> RefusedIn(events, n) {
        RefusalsMet(names, open0, events, n);
      }
    } else {
      BestMet(names, open0, events, r.value);
    }
  }

  /** What ConnectAll newly puts into use: the primary, or every transport that connected. */
  ghost predicate TakenUp(allActive: bool, events: seq<Event>, r: Result<string, seq<string>>, n: string) {
    r.Success? && if allActive then ConnectedIn(events, n) else n == r.value
  }

  /** What ConnectAll leaves, read off what the workers met: open are the transports taken
      up and those open before that nothing happened to; active those taken up, and
      otherwise what was active before. */
  lemma ConnectAllLeaves(
    allActive: bool, names: set<string>, open0: set<string>, active0: map<string, bool>, events: seq<Event>,
    open: set<string>, active: map<string, bool>, r: Result<string, seq<string>>)
    requires CompleteRun(StartPool(names, open0), events)
    requires ConnectsAll(allActive, names, open0, active0, events, open, active, r)
    ensures forall n :: n in open <==>
      TakenUp(allActive, events, r, n) || (n in open0 && !ConnectedIn(events, n) && !RefusedIn(events, n))
    ensures forall n :: n in active <==> TakenUp(allActive, events, r, n) || n in active0
    ensures forall n :: n in active ==> active[n] == (TakenUp(allActive, events, r, n) || active0[n])
  {
    ConnectAllFromAnyState(allActive, names, open0, active0, events, open, active, r);
    var reports := RunPool(StartPool(names, open0), events).reports;
    RunConsistent(StartPool(names, open0), events);
    RefusalsAre(reports);
    ReportersSplit(reports);
    forall n
      ensures n in Succeeded(reports) <==> ConnectedIn(events, n)
      ensures n in Reporters(reports) <==> ConnectedIn(events, n) || RefusedIn(events, n)
    {
      SuccessesMet(names, open0, events, n);
      RefusalsMet(names, open0, events, n);
    }
  }

  // ----- Independence of the completion order ----------------------------------------

  ghost predicate SameReports(a: seq<Report>, b: seq<Report>) {
    (forall x :: x in a <==> x in b)
  }

  /** The order in which workers finish matters only for ties: two collections of
      the same reports succeed or fail alike, leave the same state in all-active
      mode, and in best mode too unless two transports share the best score. */
  lemma OrderOnlyBreaksTies(
    allActive: bool, a: seq<Report>, b: seq<Report>, open0: set<string>, active0: map<string, bool>,
    openA: set<string>, activeA: map<string, bool>, ra: Result<string, seq<string>>,
    openB: set<string>, activeB: map<string, bool>, rb: Result<string, seq<string>>)
    requires SameReports(a, b)
    requires Settled(allActive, a, open0, active0, openA, activeA, ra)
    requires Settled(allActive, b, open0, active0, openB, activeB, rb)
    ensures ra.Success? <==> rb.Success?
    ensures ra.Success? ==> HasBestScore(a, ra.value) && HasBestScore(a, rb.value)
    ensures ra.Failure? || allActive || ra == rb ==> openA == openB && activeA == activeB
  {
    SameNames(a, b);
    if ra.Success? {
      BestIsSuccess(a, ra.value);
      BestTransfers(b, a, rb.value);
    } else if rb.Success? {
      BestIsSuccess(b, rb.value);
      assert false;
    }
  }

  lemma BestIsSuccess(reports: seq<Report>, n: string)
    requires HasBestScore(reports, n)
    ensures n in Succeeded(reports)
  {
  }

  lemma SameNames(a: seq<Report>, b: seq<Report>)
    requires SameReports(a, b)
    ensures Succeeded(a) == Succeeded(b) && Failed(a) == Failed(b)
  {
    NamesWithin(a, b);
    NamesWithin(b, a);
  }

  lemma NamesWithin(a: seq<Report>, b: seq<Report>)
    requires forall x :: x in a ==> x in b
    ensures Succeeded(a) <= Succeeded(b) && Failed(a) <= Failed(b)
  {
    forall n | n in Succeeded(a) ensures n in Succeeded(b) {
      var i :| 0 <= i < |a| && a[i].outcome.Connected? && a[i].name == n;
      assert a[i] in b;
    }
    forall n | n in Failed(a) ensures n in Failed(b) {
      var i :| 0 <= i < |a| && a[i].outcome.Refused? && a[i].name == n;
      assert a[i] in b;
    }
  }

  lemma BestTransfers(a: seq<Report>, b: seq<Report>, n: string)
    requires SameReports(a, b) && HasBestScore(a, n)
    ensures HasBestScore(b, n)
  {
    var i :| 0 <= i < |a| && a[i].name == n && a[i].outcome.Connected?
      && forall j :: 0 <= j < |a| && a[j].outcome.Connected? ==> a[j].outcome.score <= a[i].outcome.score;
    assert a[i] in b;
    var k :| 0 <= k < |b| && b[k] == a[i];
    forall j | 0 <= j < |b| && b[j].outcome.Connected? ensures b[j].outcome.score <= b[k].outcome.score {
      assert b[j] in a;
    }
  }

  // ----- Weights ------------------------------------------------------

  /** Normalized non-negative weights keep their order and sum to between 101-n and
      100, to exactly 100 just when every division is exact. */
  lemma NormalizedWeights(weights: map<string, int>)
    requires NonNegativeValues(weights) && Sum(weights) > 0
    ensures var after := Scaled(weights, Sum(weights));
            && TARGET + 1 - |weights| <= Sum(after) <= TARGET
            && (Sum(after) == TARGET <==> forall k :: k in weights ==> (weights[k] * TARGET) % Sum(weights) == 0)
            && (forall j, k :: j in weights && k in weights && weights[j] <= weights[k] ==> 0 <= after[j] <= after[k])
  {
    RescaledSum(weights);
    forall j, k | j in weights && k in weights && weights[j] <= weights[k]
      ensures 0 <= Scaled(weights, Sum(weights))[j] <= Scaled(weights, Sum(weights))[k]
    {
      ScalingMonotone(weights[j], weights[k], Sum(weights));
    }
  }
}
