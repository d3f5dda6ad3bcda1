/** The load balancer (internal/loadbalancer/balancer.go): a changing pool of
    backends and the selection algorithms over its healthy part. */
module LoadBalancer {
  import opened WeightedPick

  const TWO64: nat := 0x1_0000_0000_0000_0000

  type Hash64 = h: nat | h < TWO64

  datatype Algorithm =
    RoundRobin | WeightedRoundRobin | LeastConnections | LeastLatency | Random | IPHash

  datatype BackendState = BackendState(
    name: string, address: string, port: int, weight: nat, activeConns: int,
    latency: real, failureCount: nat, lastFailure: int, healthy: bool)

  class Backend {
    const name: string
    const address: string
    const port: int
    const weight: nat
    var activeConns: int
    var latency: real
    var failureCount: nat
    var lastFailure: int
    var healthy: bool

    constructor (name: string, address: string, port: int, weight: nat)
      ensures View() == BackendState(name, address, port, weight, 0, 0.0, 0, 0, true)
    {
      this.name, this.address, this.port, this.weight := name, address, port, weight;
      activeConns, latency, failureCount, lastFailure, healthy := 0, 0.0, 0, 0, true;
    }

    ghost function View(): BackendState
      reads this
    {
      BackendState(name, address, port, weight, activeConns, latency, failureCount, lastFailure, healthy)
    }
  }

  // ----- The pool as a value -------------------------------------------------

  ghost function Views(bs: seq<Backend>): seq<BackendState>
    reads bs
  {
    if bs == [] then [] else [bs[0].View()] + Views(bs[1..])
  }

  ghost predicate NoRepeats(bs: seq<Backend>) {
    forall i, j :: 0 <= i < j < |bs| ==> bs[i] != bs[j]
  }

  ghost function HealthyOf(bs: seq<Backend>): seq<Backend>
    reads bs
  {
    if bs == [] then []
    else (if bs[0].healthy then [bs[0]] else []) + HealthyOf(bs[1..])
  }

  function Weights(bs: seq<Backend>): (ws: seq<nat>)
    ensures |ws| == |bs| && forall i :: 0 <= i < |bs| ==> ws[i] == bs[i].weight
  {
    seq(|bs|, i requires 0 <= i < |bs| => bs[i].weight)
  }

  /** The position of the first backend called `name`; the pool's length if none is. */
  function IndexOf(pool: seq<BackendState>, name: string): (i: nat)
    ensures i <= |pool|
    ensures i < |pool| ==> pool[i].name == name
    ensures forall j :: 0 <= j < i ==> pool[j].name != name
  {
    if pool == [] || pool[0].name == name then 0 else 1 + IndexOf(pool[1..], name)
  }

  function Without(pool: seq<BackendState>, name: string): seq<BackendState> {
    var i := IndexOf(pool, name);
    if i == |pool| then pool else pool[..i] + pool[i + 1..]
  }

  function Changed(pool: seq<BackendState>, name: string, f: BackendState -> BackendState): seq<BackendState> {
    var i := IndexOf(pool, name);
    if i == |pool| then pool else pool[i := f(pool[i])]
  }

  function Healed(b: BackendState): BackendState {
    b.(healthy := true, failureCount := 0)
  }

  function Failed(b: BackendState, now: int): BackendState {
    b.(healthy := false, failureCount := b.failureCount + 1, lastFailure := now)
  }

  function Measured(b: BackendState, latency: real, conns: int): BackendState {
    b.(latency := latency, activeConns := conns)
  }

  // ----- Selection as a function ---------------------------------------------

  /** The weighted round-robin counter after a call; the counter is a uint64. */
  function WrrNext(total: nat, counter: nat): (c: nat)
    requires total > 0
    ensures c < total
  {
    ((counter + 1) % TWO64) % total
  }

  function HashIndex(ws: seq<nat>, h: nat): (i: nat)
    requires |ws| > 0
    ensures i < |ws|
  {
    if Total(ws) == 0 then h % |ws| else Pick(ws, h % Total(ws))
  }

  // ----- The balancer object -------------------------------------------------

  class Balancer {
    var backends: seq<Backend>
    const algorithm: Algorithm
    var current: nat
    var roundRobin: nat
    /** The first eight bytes of the MD5 of a client address, as a number. */
    const digest: string -> Hash64

    ghost predicate Valid()
      reads this
    {
      NoRepeats(backends)
    }

    /** The backend at `i` is the first of that name. */
    ghost predicate IsFirst(i: int, name: string)
      requires 0 <= i < |backends|
      reads this
    {
      backends[i].name == name && forall j :: 0 <= j < i ==> backends[j].name != name
    }

    ghost function Pool(): seq<BackendState>
      reads this, backends
    {
      Views(backends)
    }

    constructor (algorithm: Algorithm, digest: string -> Hash64)
      ensures Valid() && backends == [] && current == 0 && roundRobin == 0
      ensures this.algorithm == algorithm && this.digest == digest
    {
      this.algorithm, this.digest := algorithm, digest;
      backends, current, roundRobin := [], 0, 0;
    }

    method AddBackend(name: string, address: string, port: int, weight: nat)
      requires Valid()
      modifies this`backends
      ensures Valid()
      ensures Pool() == old(Pool()) + [BackendState(name, address, port, weight, 0, 0.0, 0, 0, true)]
      ensures |backends| > 0 && fresh(backends[|backends| - 1]) && backends[..|backends| - 1] == old(backends)
    {
      var b := new Backend(name, address, port, weight);
      ViewsFacts(backends + [b]);
      ViewsFacts(backends);
      backends := backends + [b];
    }

    method RemoveBackend(name: string)
      requires Valid()
      modifies this`backends
      ensures Valid()
      ensures Pool() == Without(old(Pool()), name)
    {
      ghost var before := Pool();
      ViewsFacts(backends);
      for i := 0 to |backends|
        invariant backends == old(backends) && forall j :: 0 <= j < i ==> before[j].name != name
      {
        if backends[i].name == name {
          WithoutAt(before, name, i);
          CutOut(i);
          return;
        }
      }
      WithoutAt(before, name, |before|);
    }

    method CutOut(i: nat)
      requires Valid() && i < |backends|
      modifies this`backends
      ensures Valid() && |old(Pool())| == |old(backends)|
      ensures Pool() == old(Pool())[..i] + old(Pool())[i + 1..]
    {
      var kept := backends[..i] + backends[i + 1..];
      ViewsWithout(backends, i);
      ghost var after := Views(kept);
      backends := kept;
      assert Pool() == after;
    }

    /** The search shared by the three methods that change one backend in place. */
    method Find(name: string) returns (i: nat)
      ensures i == IndexOf(Pool(), name) && |Pool()| == |backends|
      ensures forall j :: 0 <= j < |backends| ==> Pool()[j] == backends[j].View()
    {
      ViewsFacts(backends);
      for j := 0 to |backends|
        invariant forall k :: 0 <= k < j ==> backends[k].name != name
      {
        if backends[j].name == name {
          return j;
        }
      }
      return |backends|;
    }

    method UpdateMetrics(name: string, latency: real, conns: int)
      requires Valid()
      modifies backends
      ensures Pool() == Changed(old(Pool()), name, b => Measured(b, latency, conns))
      ensures forall i :: 0 <= i < |backends| && IsFirst(i, name) ==>
        && backends[i].latency == latency && backends[i].activeConns == conns
        && backends[i].healthy == old(backends[i].healthy) && backends[i].failureCount == old(backends[i].failureCount)
      ensures forall i :: 0 <= i < |backends| && !IsFirst(i, name) ==> backends[i].View() == old(backends[i].View())
    {
      var i := Find(name);
      if i < |backends| {
        backends[i].latency := latency;
        backends[i].activeConns := conns;
      }
      ViewsFacts(backends);
    }

    method MarkHealthy(name: string)
      requires Valid()
      modifies backends
      ensures Pool() == Changed(old(Pool()), name, Healed)
      ensures forall i :: 0 <= i < |backends| && IsFirst(i, name) ==>
        && backends[i].healthy && backends[i].failureCount == 0
        && backends[i].latency == old(backends[i].latency) && backends[i].activeConns == old(backends[i].activeConns)
      ensures forall i :: 0 <= i < |backends| && !IsFirst(i, name) ==> backends[i].View() == old(backends[i].View())
    {
      var i := Find(name);
      if i < |backends| {
        backends[i].healthy := true;
        backends[i].failureCount := 0;
      }
      ViewsFacts(backends);
    }

    method MarkUnhealthy(name: string, now: int)
      requires Valid()
      modifies backends
      ensures Pool() == Changed(old(Pool()), name, b => Failed(b, now))
      ensures forall i :: 0 <= i < |backends| && IsFirst(i, name) ==>
        && !backends[i].healthy && backends[i].failureCount == old(backends[i].failureCount) + 1
        && backends[i].lastFailure == now
        && backends[i].latency == old(backends[i].latency) && backends[i].activeConns == old(backends[i].activeConns)
      ensures forall i :: 0 <= i < |backends| && !IsFirst(i, name) ==> backends[i].View() == old(backends[i].View())
    {
      var i := Find(name);
      if i < |backends| {
        ghost var before := Pool();
        var b := backends[i];
        b.healthy, b.failureCount, b.lastFailure := false, b.failureCount + 1, now;
        assert b.View() == Failed(before[i], now);
        assert forall j :: 0 <= j < |backends| && j != i ==> backends[j].View() == before[j];
      }
      ViewsFacts(backends);
    }

    /** `positions` are where in the pool they stand. */
    method GetHealthy() returns (healthy: seq<Backend>, ghost positions: seq<nat>)
      ensures healthy == HealthyOf(backends) && ListsHealthy(backends, healthy, positions)
    {
      hide ListsHealthy, Picks;
      healthy := [];
      for i := 0 to |backends|
        invariant healthy + HealthyOf(backends[i..]) == HealthyOf(backends)
      {
        assert backends[i..][1..] == backends[i + 1..];
        if backends[i].healthy {
          healthy := healthy + [backends[i]];
        }
      }
      assert backends[|backends|..] == [] && healthy + [] == healthy;
      assert healthy == HealthyOf(backends);
      HealthyMembers(backends);
      positions := HealthyPositions(backends);
      Listed(backends, healthy, positions);
    }

    /** `pick` stands for the clock-derived index of the random algorithm. */
    method Next(pick: nat) returns (r: Backend?)
      modifies this`current, this`roundRobin
      ensures SelectedBy(if algorithm == IPHash then RoundRobin else algorithm, HealthyOf(backends), r, pick,
                         old(current), current, old(roundRobin), roundRobin)
      ensures HealthyChoice(backends, algorithm, r)
      ensures current == old(current) + if r != null && algorithm in {RoundRobin, IPHash} then 1 else 0
      ensures algorithm != WeightedRoundRobin ==> roundRobin == old(roundRobin)
    {
      hide HealthyOf, ListsHealthy, HealthyChoice, SelectedBy;
      var healthy, positions := GetHealthy();
      r := Select(if algorithm == IPHash then RoundRobin else algorithm, healthy, pick);
      SelectedHealthy(if algorithm == IPHash then RoundRobin else algorithm, backends, r, pick,
                      old(current), current, old(roundRobin), roundRobin);
      FallbackChoice(backends, algorithm, r);
    }

    method NextWithIP(clientIP: string, pick: nat) returns (r: Backend?)
      modifies this`current, this`roundRobin
      ensures algorithm != IPHash ==>
        SelectedBy(algorithm, HealthyOf(backends), r, pick, old(current), current, old(roundRobin), roundRobin)
      ensures algorithm == IPHash ==>
        && current == old(current) && roundRobin == old(roundRobin)
        && r == HashChoice(HealthyOf(backends), digest(clientIP))
      ensures HealthyChoice(backends, algorithm, r)
      ensures current == old(current) + if r != null && algorithm == RoundRobin then 1 else 0
      ensures algorithm != WeightedRoundRobin ==> roundRobin == old(roundRobin)
    {
      hide HealthyOf, ListsHealthy, HealthyChoice, SelectedBy, HashChoice;
      var healthy, positions := GetHealthy();
      if algorithm == IPHash {
        r := IPHashSelect(healthy, clientIP);
        HashedHealthy(backends, r, digest(clientIP));
        return;
      }
      r := Select(algorithm, healthy, pick);
      SelectedHealthy(algorithm, backends, r, pick, old(current), current, old(roundRobin), roundRobin);
    }

    /** The switch Next and NextWithIP share, over the healthy backends. */
    method Select(algorithm: Algorithm, healthy: seq<Backend>, pick: nat) returns (r: Backend?)
      requires algorithm != IPHash
      modifies this`current, this`roundRobin
      ensures SelectedBy(algorithm, healthy, r, pick, old(current), current, old(roundRobin), roundRobin)
    {
      r := null;
      if |healthy| == 0 {
        return;
      }
      match algorithm {
        case RoundRobin => r := RoundRobinSelect(healthy);
        case WeightedRoundRobin => r := WeightedRoundRobinSelect(healthy);
        case LeastConnections => r := LeastConnectionsSelect(healthy);
        case LeastLatency => r := LeastLatencySelect(healthy);
        case Random => r := healthy[pick % |healthy|];
      }
    }

    method RoundRobinSelect(bs: seq<Backend>) returns (r: Backend?)
      modifies this`current
      ensures bs == [] ==> r == null && current == old(current)
      ensures bs != [] ==> r == bs[old(current) % |bs|] && current == old(current) + 1
    {
      if |bs| == 0 {
        return null;
      }
      r := bs[current % |bs|];
      current := current + 1;
    }

    static method SumWeights(bs: seq<Backend>) returns (total: nat)
      ensures total == Total(Weights(bs))
    {
      total := 0;
      ghost var ws := Weights(bs);
      for i := 0 to |bs|
        invariant total == Total(ws[..i])
      {
        TotalAppend(ws, i);
        total := total + bs[i].weight;
      }
      assert ws[..|ws|] == ws;
    }

    static method Search(bs: seq<Backend>, target: nat) returns (r: Backend)
      requires |bs| > 0
      ensures r == bs[Pick(Weights(bs), target)]
    {
      ghost var ws := Weights(bs);
      var cumulative := 0;
      for i := 0 to |bs|
        invariant cumulative == Total(ws[..i]) && cumulative <= target
      {
        TotalAppend(ws, i);
        PickInterval(ws, target, i);
        cumulative := cumulative + bs[i].weight;
        if target < cumulative {
          return bs[i];
        }
      }
      TotalAppend(ws, |ws| - 1);
      PickInterval(ws, target, |ws| - 1);
      r := bs[|bs| - 1];
    }

    method WeightedRoundRobinSelect(bs: seq<Backend>) returns (r: Backend?)
      modifies this`roundRobin
      ensures bs == [] ==> r == null && roundRobin == old(roundRobin)
      ensures bs != [] && Total(Weights(bs)) == 0 ==> r == bs[0] && roundRobin == old(roundRobin)
      ensures bs != [] && Total(Weights(bs)) > 0 ==>
        && roundRobin == WrrNext(Total(Weights(bs)), old(roundRobin))
        && roundRobin == (old(roundRobin) + 1) % 0x1_0000_0000_0000_0000 % Total(Weights(bs))
        && r == bs[Pick(Weights(bs), roundRobin)]
    {
      if |bs| == 0 {
        return null;
      }
      var total := SumWeights(bs);
      if total == 0 {
        return bs[0];
      }
      roundRobin := ((roundRobin + 1) % TWO64) % total;
      r := Search(bs, roundRobin);
    }

    static method LeastConnectionsSelect(bs: seq<Backend>) returns (r: Backend?)
      ensures bs == [] ==> r == null
      ensures bs != [] ==> LeastLoaded(bs, r)
      ensures r == null <==> bs == []
      ensures r != null ==> r in bs && forall b :: b in bs ==> r.activeConns <= b.activeConns
      ensures r != null ==>
        exists i :: 0 <= i < |bs| && r == bs[i] && forall j :: 0 <= j < i ==> r.activeConns < bs[j].activeConns
    {
      r := null;
      for i := 0 to |bs|
        invariant i == 0 ==> r == null
        invariant i > 0 ==> LeastLoaded(bs[..i], r)
      {
        assert bs[..i + 1] == bs[..i] + [bs[i]];
        if r == null || bs[i].activeConns < r.activeConns {
          r := bs[i];
          assert bs[..i + 1][i] == r;
        }
      }
      assert bs[..|bs|] == bs;
    }

    static method LeastLatencySelect(bs: seq<Backend>) returns (r: Backend?)
      ensures bs == [] ==> r == null
      ensures bs != [] ==> Fastest(bs, r)
      ensures r == null <==> bs == []
      ensures r != null ==> r in bs && forall b :: b in bs ==> r.latency <= b.latency
      ensures r != null ==>
        exists i :: 0 <= i < |bs| && r == bs[i] && forall j :: 0 <= j < i ==> r.latency < bs[j].latency
    {
      r := null;
      for i := 0 to |bs|
        invariant i == 0 ==> r == null
        invariant i > 0 ==> Fastest(bs[..i], r)
      {
        assert bs[..i + 1] == bs[..i] + [bs[i]];
        if r == null || bs[i].latency < r.latency {
          r := bs[i];
          assert bs[..i + 1][i] == r;
        }
      }
      assert bs[..|bs|] == bs;
    }

    /** Selection by client address changes nothing in the balancer. */
    method IPHashSelect(bs: seq<Backend>, clientIP: string) returns (r: Backend?)
      ensures r == HashChoice(bs, digest(clientIP))
      ensures r == null <==> bs == []
      ensures bs != [] && Total(Weights(bs)) == 0 ==> r == bs[digest(clientIP) % |bs|]
      ensures Total(Weights(bs)) > 0 ==>
        exists i :: 0 <= i < |bs| && r == bs[i]
          && Total(Weights(bs)[..i]) <= digest(clientIP) % Total(Weights(bs)) < Total(Weights(bs)[..i + 1])
    {
      if |bs| == 0 {
        return null;
      }
      var hashVal := digest(clientIP);
      var total := SumWeights(bs);
      if total == 0 {
        return bs[hashVal % |bs|];
      }
      r := Search(bs, hashVal % total);
      HashInterval(Weights(bs), hashVal);
    }
  }

  // ----- What a selection returns --------------------------------------------

  ghost predicate LeastLoaded(bs: seq<Backend>, r: Backend?)
    reads bs
  {
    exists i :: 0 <= i < |bs| && r == bs[i]
      && (forall j :: 0 <= j < |bs| ==> bs[i].activeConns <= bs[j].activeConns)
      && (forall j :: 0 <= j < i ==> bs[i].activeConns < bs[j].activeConns)
  }

  ghost predicate Fastest(bs: seq<Backend>, r: Backend?)
    reads bs
  {
    exists i :: 0 <= i < |bs| && r == bs[i]
      && (forall j :: 0 <= j < |bs| ==> bs[i].latency <= bs[j].latency)
      && (forall j :: 0 <= j < i ==> bs[i].latency < bs[j].latency)
  }

  ghost function HashChoice(bs: seq<Backend>, h: nat): Backend? {
    if bs == [] then null else bs[HashIndex(Weights(bs), h)]
  }

  ghost predicate SelectedBy(algorithm: Algorithm, bs: seq<Backend>, r: Backend?, pick: nat,
                             current: nat, current': nat, rr: nat, rr': nat)
    reads bs
  {
    if bs == [] then r == null && current' == current && rr' == rr
    else
      match algorithm
      case RoundRobin => r == bs[current % |bs|] && current' == current + 1 && rr' == rr
      case WeightedRoundRobin =>
        var ws := Weights(bs);
        current' == current &&
        if Total(ws) == 0 then r == bs[0] && rr' == rr
        else rr' == WrrNext(Total(ws), rr) && r == bs[Pick(ws, rr')]
      case LeastConnections => LeastLoaded(bs, r) && current' == current && rr' == rr
      case LeastLatency => Fastest(bs, r) && current' == current && rr' == rr
      case Random => r == bs[pick % |bs|] && current' == current && rr' == rr
      case IPHash => false
  }

  /** `part` is what `whole` holds at these ascending positions. */
  ghost predicate Picks<T>(whole: seq<T>, positions: seq<nat>, part: seq<T>) {
    && |positions| == |part|
    && (forall k :: 0 <= k < |positions| ==> positions[k] < |whole| && part[k] == whole[positions[k]])
    && (forall j, k :: 0 <= j < k < |positions| ==> positions[j] < positions[k])
  }

  /** `healthy` are exactly the healthy backends of the pool, each once, in its order. */
  ghost predicate ListsHealthy(bs: seq<Backend>, healthy: seq<Backend>, positions: seq<nat>)
    reads bs
  {
    && Picks(bs, positions, healthy)
    && (forall b :: b in healthy ==> b in bs && b.healthy)
    && (forall b :: b in bs && b.healthy ==> b in healthy)
  }

  /** No backend exactly when none is healthy, otherwise a healthy one of the pool; the
      least loaded or the fastest of those if that is the algorithm. */
  ghost predicate HealthyChoice(bs: seq<Backend>, algorithm: Algorithm, r: Backend?)
    reads bs, if r == null then {} else {r}
  {
    && (r == null <==> forall i :: 0 <= i < |bs| ==> !bs[i].healthy)
    && (r != null ==> r in bs && r.healthy)
    && (r != null && algorithm == LeastConnections ==>
          forall i :: 0 <= i < |bs| && bs[i].healthy ==> r.activeConns <= bs[i].activeConns)
    && (r != null && algorithm == LeastLatency ==>
          forall i :: 0 <= i < |bs| && bs[i].healthy ==> r.latency <= bs[i].latency)
  }

  lemma SelectedHealthy(algorithm: Algorithm, bs: seq<Backend>, r: Backend?, pick: nat,
                        current: nat, current': nat, rr: nat, rr': nat)
    requires algorithm != IPHash
    requires SelectedBy(algorithm, HealthyOf(bs), r, pick, current, current', rr, rr')
    ensures HealthyChoice(bs, algorithm, r)
    ensures current' == current + if r != null && algorithm == RoundRobin then 1 else 0
    ensures algorithm != WeightedRoundRobin ==> rr' == rr
  {
    var healthy := HealthyOf(bs);
    HealthyMembers(bs);
    hide HealthyOf;
    assert healthy != [] ==> healthy[0] in healthy;
    assert forall i :: 0 <= i < |bs| ==> bs[i] in bs;
    if healthy != [] {
      assert r in healthy;
    }
  }

  lemma HashedHealthy(bs: seq<Backend>, r: Backend?, h: nat)
    requires r == HashChoice(HealthyOf(bs), h)
    ensures HealthyChoice(bs, IPHash, r)
  {
    var healthy := HealthyOf(bs);
    HealthyMembers(bs);
    hide HealthyOf;
    assert healthy != [] ==> healthy[0] in healthy && r in healthy;
    assert forall i :: 0 <= i < |bs| ==> bs[i] in bs;
  }

  lemma FallbackChoice(bs: seq<Backend>, algorithm: Algorithm, r: Backend?)
    requires HealthyChoice(bs, if algorithm == IPHash then RoundRobin else algorithm, r)
    ensures HealthyChoice(bs, algorithm, r)
  {
  }

  /** A hash falls in the interval of the weight it selects. */
  lemma HashInterval(ws: seq<nat>, h: nat)
    requires |ws| > 0 && Total(ws) > 0
    ensures var i := Pick(ws, h % Total(ws));
            Total(ws[..i]) <= h % Total(ws) < Total(ws[..i + 1])
  {
    var i := Pick(ws, h % Total(ws));
    PickInterval(ws, h % Total(ws), i);
    assert ws[..|ws|] == ws;
  }

  lemma {:induction false} HealthyMembers(bs: seq<Backend>)
    ensures forall b :: b in HealthyOf(bs) <==> b in bs && b.healthy
  {
    if bs != [] {
      HealthyMembers(bs[1..]);
      assert bs == [bs[0]] + bs[1..];
    }
  }

  /** Where in the pool the healthy backends stand, in order. */
  lemma {:induction false} HealthyPositions(bs: seq<Backend>) returns (positions: seq<nat>)
    ensures Picks(bs, positions, HealthyOf(bs))
  {
    hide Picks;
    if bs == [] {
      positions := [];
      PicksNothing(bs);
    } else {
      var later := HealthyPositions(bs[1..]);
      var shifted := seq(|later|, k requires 0 <= k < |later| => later[k] + 1);
      PicksBehind(bs, later, HealthyOf(bs[1..]), shifted);
      if bs[0].healthy {
        positions := [0] + shifted;
      } else {
        positions := shifted;
        assert HealthyOf(bs) == HealthyOf(bs[1..]);
      }
    }
  }

  lemma Listed(bs: seq<Backend>, healthy: seq<Backend>, positions: seq<nat>)
    requires Picks(bs, positions, healthy) && forall b :: b in healthy <==> b in bs && b.healthy
    ensures ListsHealthy(bs, healthy, positions)
  {
    hide Picks;
  }

  lemma PicksNothing<T>(whole: seq<T>)
    ensures Picks(whole, [], [])
  {
  }

  lemma PicksBehind<T>(whole: seq<T>, later: seq<nat>, part: seq<T>, shifted: seq<nat>)
    requires whole != [] && Picks(whole[1..], later, part)
    requires |shifted| == |later| && forall k :: 0 <= k < |later| ==> shifted[k] == later[k] + 1
    ensures Picks(whole, shifted, part) && Picks(whole, [0] + shifted, [whole[0]] + part)
  {
    forall k | 0 <= k < |shifted| ensures 0 < shifted[k] < |whole| && part[k] == whole[shifted[k]] {
      assert whole[1..][later[k]] == whole[later[k] + 1];
    }
    var positions := [0] + shifted;
    assert forall k :: 1 <= k < |positions| ==> positions[k] == shifted[k - 1];
  }

  lemma WithoutAt(pool: seq<BackendState>, name: string, i: nat)
    requires i <= |pool| && (i < |pool| ==> pool[i].name == name)
    requires forall j :: 0 <= j < i ==> pool[j].name != name
    ensures Without(pool, name) == if i == |pool| then pool else pool[..i] + pool[i + 1..]
  {
    assert IndexOf(pool, name) == i;
  }

  lemma ViewsWithout(bs: seq<Backend>, i: nat)
    requires i < |bs|
    ensures |Views(bs)| == |bs|
    ensures Views(bs[..i] + bs[i + 1..]) == Views(bs)[..i] + Views(bs)[i + 1..]
    ensures NoRepeats(bs) ==> NoRepeats(bs[..i] + bs[i + 1..])
  {
    ViewsFacts(bs);
    ViewsFacts(bs[..i] + bs[i + 1..]);
  }

  lemma {:induction false} ViewsFacts(bs: seq<Backend>)
    ensures |Views(bs)| == |bs|
    ensures forall i :: 0 <= i < |bs| ==> Views(bs)[i] == bs[i].View()
  {
    if bs != [] {
      ViewsFacts(bs[1..]);
    }
  }
}
