/** The failover detector (internal/failover/failover.go): per-transport health from
    ping samples, recover callbacks, and the periodic evaluation. */
module Failover {
  import opened Slices

  datatype Status = Healthy | Degraded | Down

  datatype TransportState = TransportState(
    name: string, status: Status, latency: real, packetLoss: real, lastGood: int, failCount: nat)

  type States = map<string, TransportState>

  const MAX_LATENCY := 200.0
  const MAX_PACKET_LOSS := 10.0
  const MAX_FAIL_COUNT := 3

  predicate Bad(latency: real, packetLoss: real) {
    latency >= MAX_LATENCY || packetLoss >= MAX_PACKET_LOSS
  }

  function StateOf(states: States, name: string): TransportState {
    if name in states then states[name] else TransportState(name, Healthy, 0.0, 0.0, 0, 0)
  }

  /** One sample for one transport. */
  datatype Sample = Sample(name: string, latency: real, packetLoss: real, at: int)

  function Observed(t: TransportState, s: Sample): TransportState {
    var u := t.(latency := s.latency, packetLoss := s.packetLoss);
    if !Bad(s.latency, s.packetLoss) then
      u.(status := Healthy, failCount := if t.status == Healthy then t.failCount else 0, lastGood := s.at)
    else
      u.(failCount := t.failCount + 1, status := if t.failCount + 1 >= MAX_FAIL_COUNT then Down else Degraded)
  }

  function Updated(states: States, s: Sample): States {
    states[s.name := Observed(StateOf(states, s.name), s)]
  }

  /** The sample ends a bad run, so the recover callback fires. */
  predicate Recovers(states: States, s: Sample) {
    StateOf(states, s.name).status != Healthy && !Bad(s.latency, s.packetLoss)
  }

  ghost function WithStatus(states: States, status: Status): set<string> {
    set n | n in states && states[n].status == status
  }

  /** A callback launched by the evaluation. */
  datatype Call = Call(from: string, to: string)

  class Detector {
    var states: States
    var failoverSet: bool
    var recoverSet: bool
    /** The recover callbacks launched so far. */
    var recovered: seq<string>

    constructor ()
      ensures states == map[] && !failoverSet && !recoverSet && recovered == []
    {
      states, failoverSet, recoverSet, recovered := map[], false, false, [];
    }

    method OnFailover()
      modifies this`failoverSet
      ensures failoverSet
    {
      failoverSet := true;
    }

    method OnRecover()
      modifies this`recoverSet
      ensures recoverSet
    {
      recoverSet := true;
    }

    method Update(s: Sample)
      modifies this`states, this`recovered
      ensures states == Updated(old(states), s)
      ensures s.name in states && states - {s.name} == old(states) - {s.name}
      ensures states[s.name].latency == s.latency && states[s.name].packetLoss == s.packetLoss
      ensures states[s.name].status == Healthy <==> s.latency < 200.0 && s.packetLoss < 10.0
      ensures states[s.name].status == Healthy ==> states[s.name].lastGood == s.at
      ensures states[s.name].status != Healthy ==>
        && states[s.name].failCount == 1 + (if s.name in old(states) then old(states)[s.name].failCount else 0)
        && states[s.name].status == if states[s.name].failCount >= 3 then Down else Degraded
      ensures recovered == old(recovered) + if Recovers(old(states), s) && recoverSet then [s.name] else []
    {
      if s.name !in states {
        states := states[s.name := TransportState(s.name, Healthy, 0.0, 0.0, 0, 0)];
      }
      var t := states[s.name].(latency := s.latency, packetLoss := s.packetLoss);
      if s.latency < MAX_LATENCY && s.packetLoss < MAX_PACKET_LOSS {
        if t.status != Healthy {
          t := t.(status := Healthy, failCount := 0, lastGood := s.at);
          if recoverSet {
            recovered := recovered + [s.name];
          }
        }
        t := t.(lastGood := s.at);
      } else if s.latency >= MAX_LATENCY || s.packetLoss >= MAX_PACKET_LOSS {
        t := t.(failCount := t.failCount + 1);
        if t.failCount >= MAX_FAIL_COUNT {
          t := t.(status := Down);
        } else {
          t := t.(status := Degraded);
        }
      }
      states := states[s.name := t];
    }

    /** One evaluation: each transport that is down is to be replaced by one and the
        same healthy transport, if there is any. */
    method Evaluate() returns (calls: seq<Call>, healthy: seq<string>, down: seq<string>)
      ensures Enumerates(healthy, WithStatus(states, Healthy))
      ensures Enumerates(down, WithStatus(states, Down))
      ensures forall n :: n in healthy <==> n in states && states[n].status == Healthy
      ensures forall n :: n in down <==> n in states && states[n].status == Down
      ensures calls == if healthy == [] || !failoverSet then [] else CallsFor(down, healthy[0])
    {
      healthy, down, calls := [], [], [];
      var todo := states.Keys;
      while todo != {}
        invariant todo <= states.Keys && Distinct(healthy) && Distinct(down)
        invariant forall n :: n in healthy <==> n in states && n !in todo && states[n].status == Healthy
        invariant forall n :: n in down <==> n in states && n !in todo && states[n].status == Down
        decreases |todo|
      {
        var n :| n in todo;
        todo := todo - {n};
        assert forall i :: 0 <= i < |healthy| ==> healthy[i] in healthy;
        assert forall i :: 0 <= i < |down| ==> down[i] in down;
        match states[n].status {
          case Healthy => healthy := healthy + [n];
          case Degraded =>
          case Down => down := down + [n];
        }
      }
      if |down| > 0 && |healthy| > 0 {
        if failoverSet {
          for i := 0 to |down|
            invariant calls == CallsFor(down[..i], healthy[0])
          {
            calls := calls + [Call(down[i], healthy[0])];
          }
          assert down[..|down|] == down;
        }
      }
    }

    method IsHealthy(name: string) returns (r: bool)
      ensures r <==> name in states && states[name].status == Healthy
    {
      r := name in states && states[name].status == Healthy;
    }

    method StatusOf(name: string) returns (r: Status)
      ensures r == if name in states then states[name].status else Down
    {
      r := if name in states then states[name].status else Down;
    }
  }

  ghost function CallsFor(down: seq<string>, to: string): (calls: seq<Call>)
    ensures |calls| == |down| && forall i :: 0 <= i < |down| ==> calls[i] == Call(down[i], to)
  {
    seq(|down|, i requires 0 <= i < |down| => Call(down[i], to))
  }

  // ----- Whole histories ------------------------------------------------------------

  /** The states and the recover callbacks a history of samples leads to. */
  datatype Outcome = Outcome(states: States, recovered: seq<string>)

  function After(history: seq<Sample>): Outcome {
    if history == [] then Outcome(map[], [])
    else
      var o, s := After(history[..|history| - 1]), history[|history| - 1];
      Outcome(Updated(o.states, s), o.recovered + if Recovers(o.states, s) then [s.name] else [])
  }

  /** For each sample of `name`, in order, whether it was bad. */
  function Verdicts(history: seq<Sample>, name: string): seq<bool> {
    if history == [] then []
    else
      var s := history[|history| - 1];
      Verdicts(history[..|history| - 1], name)
      + if s.name == name then [s.latency >= 200.0 || s.packetLoss >= 10.0] else []
  }

  /** The length of the run of bad samples at the end. */
  function TrailingBad(verdicts: seq<bool>): nat {
    if verdicts == [] || !verdicts[|verdicts| - 1] then 0
    else 1 + TrailingBad(verdicts[..|verdicts| - 1])
  }

  /** How many bad runs a good sample has ended. */
  function EndedRuns(verdicts: seq<bool>): nat {
    var n := |verdicts|;
    if n < 2 then 0
    else EndedRuns(verdicts[..n - 1]) + if verdicts[n - 2] && !verdicts[n - 1] then 1 else 0
  }

  function StatusAfter(bad: nat): Status {
    if bad == 0 then Healthy else if bad < MAX_FAIL_COUNT then Degraded else Down
  }

  /** After any history a transport is known exactly if it was sampled; it is healthy,
      degraded or down as its trailing run of bad samples has length 0, 1-2 or more,
      its fail count is that length, and its recover callback has fired once for each
      bad run that ended. */
  lemma {:induction false} StatusFollowsHistory(history: seq<Sample>, name: string)
    ensures var o, v := After(history), Verdicts(history, name);
            && (name in o.states <==> v != [])
            && StateOf(o.states, name).status == StatusAfter(TrailingBad(v))
            && StateOf(o.states, name).failCount == TrailingBad(v)
            && multiset(o.recovered)[name] == EndedRuns(v)
    decreases |history|
  {
    if history != [] {
      var n := |history| - 1;
      var s, v, w := history[n], Verdicts(history[..n], name), Verdicts(history, name);
      StatusFollowsHistory(history[..n], name);
      if s.name == name {
        assert w[..|w| - 1] == v;
        if v != [] {
          assert w[|w| - 2] == v[|v| - 1];
        }
      } else {
        assert w == v;
      }
    }
  }

  /** The samples of one transport, in order. */
  function OwnSamples(history: seq<Sample>, name: string): seq<Sample> {
    if history == [] then []
    else
      var s := history[|history| - 1];
      OwnSamples(history[..|history| - 1], name) + if s.name == name then [s] else []
  }

  /** In numbers: a transport is healthy exactly if its last sample was below 200 ms and
      10 percent, or it has none, and down exactly if its last three samples each reached
      one of the two limits, whatever came between them for others. */
  lemma StatusByLastThree(history: seq<Sample>, name: string)
    ensures var own, t := OwnSamples(history, name), StateOf(After(history).states, name);
            var n := |own|;
            && (t.status == Healthy <==> (n > 0 ==> own[n - 1].latency < 200.0 && own[n - 1].packetLoss < 10.0))
            && (t.status == Down <==>
                  n >= 3 && forall i :: n - 3 <= i < n ==> own[i].latency >= 200.0 || own[i].packetLoss >= 10.0)
  {
    hide After, Verdicts, OwnSamples, TrailingBad, EndedRuns, StateOf;
    StatusFollowsHistory(history, name);
    VerdictsOwn(history, name);
    var v := Verdicts(history, name);
    LastThree(v);
  }

  lemma {:induction false} VerdictsOwn(history: seq<Sample>, name: string)
    ensures var own, v := OwnSamples(history, name), Verdicts(history, name);
            && |own| == |v|
            && forall i :: 0 <= i < |v| ==> v[i] == (own[i].latency >= 200.0 || own[i].packetLoss >= 10.0)
    decreases |history|
  {
    if history != [] {
      VerdictsOwn(history[..|history| - 1], name);
    }
  }

  lemma LastThree(v: seq<bool>)
    ensures TrailingBad(v) == 0 <==> v == [] || !v[|v| - 1]
    ensures TrailingBad(v) >= 3 <==> |v| >= 3 && v[|v| - 1] && v[|v| - 2] && v[|v| - 3]
  {
    if v != [] && v[|v| - 1] {
      var u := v[..|v| - 1];
      if u != [] && u[|u| - 1] {
        var w := u[..|u| - 1];
        assert TrailingBad(v) == 2 + TrailingBad(w);
      }
    }
  }

  lemma AfterSnoc(history: seq<Sample>, s: Sample)
    ensures var o := After(history);
            After(history + [s])
            == Outcome(Updated(o.states, s), o.recovered + if Recovers(o.states, s) then [s.name] else [])
  {
    assert (history + [s])[..|history|] == history;
  }

  /** Transports do not disturb each other: everything the detector knows about one,
      and its recover callbacks, are those of a detector given its own samples alone. */
  lemma {:induction false} OwnSamplesDecide(history: seq<Sample>, name: string)
    ensures var all, own := After(history), After(OwnSamples(history, name));
            && (name in all.states <==> name in own.states)
            && StateOf(all.states, name) == StateOf(own.states, name)
            && multiset(all.recovered)[name] == multiset(own.recovered)[name]
    decreases |history|
  {
    if history != [] {
      var n := |history| - 1;
      OwnSamplesDecide(history[..n], name);
      if history[n].name == name {
        AfterSnoc(OwnSamples(history[..n], name), history[n]);
      } else {
        assert OwnSamples(history, name) == OwnSamples(history[..n], name);
      }
    }
  }
}
