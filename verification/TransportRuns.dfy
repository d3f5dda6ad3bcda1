/** Whole histories of the transport manager: direct connections, ConnectAll,
    activation and deactivation, and what a final DisconnectAll fails to close. */
module TransportRuns {
  import opened TransportManager
  import opened TransportManagerProofs
  import opened Wrappers

  /** The registered names, which transports are open, and the active map. */
  datatype Links = Links(names: set<string>, open: set<string>, active: map<string, bool>)

  datatype Op =
    | Connect(name: string, outcome: Outcome)
    | ConnectAll(allActive: bool, events: seq<Event>, r: Result<string, seq<string>>)
    | Activate(name: string)
    | Deactivate(name: string)
    | DisconnectAll

  /** One call takes `s` to `t`. Connect is the direct call on a registered transport
      that the orchestrator makes before ConnectAll. */
  ghost predicate Moves(s: Links, op: Op, t: Links) {
    match op
    case Connect(n, o) =>
      n in s.names && t == s.(open := if LeavesOpen(o) then s.open + {n} else s.open - {n})
    case ConnectAll(allActive, events, r) =>
      && CompleteRun(StartPool(s.names, s.open), events)
      && t.names == s.names
      && ConnectsAll(allActive, s.names, s.open, s.active, events, t.open, t.active, r)
    case Activate(n) => t == if n in s.names then s.(active := s.active[n := true]) else s
    case Deactivate(n) => t == s.(active := s.active - {n})
    case DisconnectAll => t == s.(open := s.open - ActiveNames(s.active), active := map[])
  }

  ghost predicate History(states: seq<Links>, ops: seq<Op>) {
    && |states| == |ops| + 1
    && forall i :: 0 <= i < |ops| ==> Moves(states[i], ops[i], states[i + 1])
  }

  /** The call leaves `n` open without marking it active: a direct connection of a
      transport that is not active, or a deactivation of one that is open. */
  ghost predicate Strands(s: Links, op: Op, n: string) {
    match op
    case Connect(m, o) => m == n && LeavesOpen(o) && n !in ActiveNames(s.active)
    case Deactivate(m) => m == n && n in s.open
    case _ => false
  }

  /** The call takes care of `n`: marks it active, closes it, or is a ConnectAll whose
      worker for `n` begins before the deadline. */
  ghost predicate Rescues(s: Links, op: Op, n: string) {
    match op
    case Connect(m, o) => m == n && !LeavesOpen(o)
    case ConnectAll(_, events, _) => BeginsInTime(events, n)
    case Activate(m) => m == n
    case _ => false
  }

  ghost predicate LeftBehind(s: Links, n: string) {
    n in Stranded(s.open, s.active)
  }

  /** What each call does to a transport DisconnectAll would miss. */
  lemma StrandedStep(s: Links, op: Op, t: Links, n: string)
    requires Moves(s, op, t) && n in s.names
    ensures t.names == s.names
    ensures LeftBehind(t, n) <==> Strands(s, op, n) || (LeftBehind(s, n) && !Rescues(s, op, n))
  {
    match op
    case ConnectAll(allActive, events, r) =>
      ConnectAllFromAnyState(allActive, s.names, s.open, s.active, events, t.open, t.active, r);
      WhoReports(s.names, s.open, events, n);
    case Connect(_, _) =>
    case Activate(_) =>
    case Deactivate(_) =>
    case DisconnectAll =>
  }

  /** Some call stranded `n` and none since has taken care of it. */
  ghost predicate StrandedSince(states: seq<Links>, ops: seq<Op>, n: string)
    requires History(states, ops)
  {
    exists i :: 0 <= i < |ops| && Strands(states[i], ops[i], n)
      && forall j :: i < j < |ops| ==> !Rescues(states[j], ops[j], n)
  }

  lemma SinceSnoc(states: seq<Links>, ops: seq<Op>, n: string)
    requires History(states, ops) && ops != []
    ensures History(states[..|ops|], ops[..|ops| - 1])
    ensures var k := |ops| - 1;
            StrandedSince(states, ops, n) <==>
              Strands(states[k], ops[k], n)
              || (StrandedSince(states[..|ops|], ops[..k], n) && !Rescues(states[k], ops[k], n))
  {
    var k := |ops| - 1;
    var before, front := states[..|ops|], ops[..k];
    if StrandedSince(before, front, n) && !Rescues(states[k], ops[k], n) {
      var i :| 0 <= i < k && Strands(before[i], front[i], n)
        && forall j :: i < j < k ==> !Rescues(before[j], front[j], n);
      assert Strands(states[i], ops[i], n);
      forall j | i < j < |ops| ensures !Rescues(states[j], ops[j], n) {
        assert j < k ==> !Rescues(before[j], front[j], n);
      }
    }
    if StrandedSince(states, ops, n) && !Strands(states[k], ops[k], n) {
      var i :| 0 <= i < |ops| && Strands(states[i], ops[i], n)
        && forall j :: i < j < |ops| ==> !Rescues(states[j], ops[j], n);
      assert Strands(before[i], front[i], n);
      forall j | i < j < k ensures !Rescues(before[j], front[j], n) {
        assert !Rescues(states[j], ops[j], n);
      }
    }
  }

  /** After any history from nothing open, DisconnectAll leaves a transport open
      exactly if some call connected it directly while it was not active, or
      deactivated it while open, and no later call activated it, closed it, or was a
      ConnectAll that tried it before the deadline. */
  lemma {:induction false} LeftOpenExactly(states: seq<Links>, ops: seq<Op>, n: string)
    requires History(states, ops) && states[0].open == {} && n in states[0].names
    ensures LeftBehind(states[|ops|], n) <==> StrandedSince(states, ops, n)
    ensures states[|ops|].names == states[0].names
    decreases |ops|
  {
    if ops != [] {
      var k := |ops| - 1;
      SinceSnoc(states, ops, n);
      LeftOpenExactly(states[..|ops|], ops[..k], n);
      StrandedStep(states[k], ops[k], states[|ops|], n);
    }
  }

  /** ConnectAll never strands a transport, so a history of ConnectAll, Activate and
      DisconnectAll calls alone never leaves anything for DisconnectAll to miss. */
  lemma ConnectAllNeverStrands(states: seq<Links>, ops: seq<Op>, n: string)
    requires History(states, ops) && states[0].open == {} && n in states[0].names
    requires forall i :: 0 <= i < |ops| ==> !ops[i].Connect? && !ops[i].Deactivate?
    ensures !LeftBehind(states[|ops|], n)
  {
    LeftOpenExactly(states, ops, n);
  }

  const WIREGUARD := "wireguard"

  /** Smart mode: the orchestrator connects WireGuard directly and never calls
      ConnectAll, so the DisconnectAll of its Stop leaves the tunnel open. */
  lemma SmartModeLeavesTunnelOpen(names: set<string>, score: real) returns (states: seq<Links>, ops: seq<Op>)
    requires WIREGUARD in names
    ensures History(states, ops) && states[0] == Links(names, {}, map[])
    ensures ops == [Connect(WIREGUARD, Connected(score)), DisconnectAll]
    ensures states[2].open == {WIREGUARD} && states[2].active == map[]
  {
    ops := [Connect(WIREGUARD, Connected(score)), DisconnectAll];
    var s := Links(names, {}, map[]);
    var t := s.(open := {WIREGUARD});
    states := [s, t, t];
    assert Moves(s, ops[0], t) by {
      assert s.open + {WIREGUARD} == {WIREGUARD};
    }
    assert Moves(t, ops[1], t) by {
      assert t.open - ActiveNames(map[]) == t.open;
    }
  }

  /** All-active mode connects WireGuard directly and then calls ConnectAll: the tunnel
      outlives DisconnectAll exactly if its worker does not begin before the deadline. */
  lemma AllActiveModeExactly(names: set<string>, score: real, events: seq<Event>,
                             r: Result<string, seq<string>>, s: Links, t: Links, u: Links)
    requires WIREGUARD in names && s == Links(names, {}, map[])
    requires Moves(s, Connect(WIREGUARD, Connected(score)), t) && Moves(t, ConnectAll(true, events, r), u)
    ensures Stranded(u.open, u.active) == if BeginsInTime(events, WIREGUARD) then {} else {WIREGUARD}
  {
    ConnectAllFromAnyState(true, names, t.open, t.active, events, u.open, u.active, r);
    WhoReports(names, t.open, events, WIREGUARD);
  }

  /** Such a run: the deadline passes before the only worker starts, ConnectAll fails,
      and the tunnel connected before it outlives DisconnectAll. */
  lemma SkippedTunnelStaysOpen(score: real) returns (s: Links, op: Op, t: Links)
    ensures s == Links({WIREGUARD}, {WIREGUARD}, map[])
    ensures op == ConnectAll(true, [Timeout, Begin(WIREGUARD)], Failure([])) && Moves(s, op, t)
    ensures Stranded(t.open, t.active) == {WIREGUARD}
  {
    s := Links({WIREGUARD}, {WIREGUARD}, map[]);
    t := s;
    op := ConnectAll(true, [Timeout, Begin(WIREGUARD)], Failure([]));
    var start := StartPool(s.names, s.open);
    var late := Step(start, Timeout);
    var skipped := Step(late, Begin(WIREGUARD));
    var events := [Timeout, Begin(WIREGUARD)];
    assert events[1..] == [Begin(WIREGUARD)] && events[1..][1..] == [];
    assert RunPool(start, events) == RunPool(late, events[1..]) == RunPool(skipped, []) == skipped;
    assert ValidRun(skipped, []) && ValidRun(late, events[1..]) && ValidRun(start, events);
    assert skipped.reports == [];
  }
}
