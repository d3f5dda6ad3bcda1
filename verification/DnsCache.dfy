/** The caching resolver (internal/dns/dns.go, Lookup): one call as the program
    runs it, and any number of calls interleaved under the read-write lock. */
module DnsCache {
  import opened Wrappers

  type IP = seq<byte>

  datatype Entry = Entry(ip: IP, expiresAt: int)

  type Cache = map<string, Entry>

  datatype LookupError = LookupFailed | NoAddresses

  predicate Fresh(cache: Cache, host: string, now: int) {
    host in cache && now < cache[host].expiresAt
  }

  // ----- One call -------------------------------------------------------------------

  /** What the upstream servers come to: the first nameserver that answers with an
      address, and the system resolver when none does. None is an error. */
  function Upstream(answers: seq<Option<seq<IP>>>, fallback: Option<seq<IP>>): Result<IP, LookupError> {
    if answers == [] then
      if fallback.None? then Failure(LookupFailed)
      else if fallback.value == [] then Failure(NoAddresses)
      else Success(fallback.value[0])
    else if answers[0].Some? && answers[0].value != [] then Success(answers[0].value[0])
    else Upstream(answers[1..], fallback)
  }

  /** The answer of this nameserver holds an address. */
  predicate Answers(answers: seq<Option<seq<IP>>>, i: int)
    requires 0 <= i < |answers|
  {
    answers[i].Some? && answers[i].value != []
  }

  lemma {:induction false} UpstreamAt(answers: seq<Option<seq<IP>>>, fallback: Option<seq<IP>>, i: nat)
    requires i < |answers| && Answers(answers, i) && forall j :: 0 <= j < i ==> !Answers(answers, j)
    ensures Upstream(answers, fallback) == Success(answers[i].value[0])
    decreases i
  {
    if i > 0 {
      var rest := answers[1..];
      assert !Answers(answers, 0) && rest[i - 1] == answers[i];
      forall j | 0 <= j < i - 1 ensures !Answers(rest, j) {
        assert !Answers(answers, j + 1);
      }
      UpstreamAt(rest, fallback, i - 1);
    }
  }

  lemma {:induction false} UpstreamFallback(answers: seq<Option<seq<IP>>>, fallback: Option<seq<IP>>)
    requires forall i :: 0 <= i < |answers| ==> !Answers(answers, i)
    ensures Upstream(answers, fallback) ==
      match fallback
      case None => Failure(LookupFailed)
      case Some(ips) => if |ips| == 0 then Failure(NoAddresses) else Success(ips[0])
  {
    if answers != [] {
      var rest := answers[1..];
      assert !Answers(answers, 0);
      forall j | 0 <= j < |rest| ensures !Answers(rest, j) {
        assert !Answers(answers, j + 1);
      }
      UpstreamFallback(rest, fallback);
    }
  }

  /** The first nameserver that answers decides, and the system resolver only if none does. */
  lemma UpstreamIs(answers: seq<Option<seq<IP>>>, fallback: Option<seq<IP>>)
    ensures forall i | 0 <= i < |answers| && Answers(answers, i)
          && (forall j :: 0 <= j < i ==> !Answers(answers, j)) ::
      Upstream(answers, fallback) == Success(answers[i].value[0])
    ensures (forall i :: 0 <= i < |answers| ==> !Answers(answers, i)) ==>
      Upstream(answers, fallback) ==
      match fallback
      case None => Failure(LookupFailed)
      case Some(ips) => if |ips| == 0 then Failure(NoAddresses) else Success(ips[0])
  {
    forall i | 0 <= i < |answers| && Answers(answers, i) && (forall j :: 0 <= j < i ==> !Answers(answers, j))
      ensures Upstream(answers, fallback) == Success(answers[i].value[0])
    {
      UpstreamAt(answers, fallback, i);
    }
    if forall i :: 0 <= i < |answers| ==> !Answers(answers, i) {
      UpstreamFallback(answers, fallback);
    }
  }

  function Stored(cache: Cache, host: string, ip: IP, now: int, ttl: int): Cache {
    cache[host := Entry(ip, now + ttl)]
  }

  /** The outcome of a call that meets nobody else, from its three clock readings. */
  function LookupOutcome(cache: Cache, ttl: int, host: string, t1: int, t2: int, t3: int,
                         upstream: Result<IP, LookupError>): (Result<IP, LookupError>, Cache)
  {
    if Fresh(cache, host, t1) || Fresh(cache, host, t2) then (Success(cache[host].ip), cache)
    else if upstream.Success? then (upstream, Stored(cache, host, upstream.value, t3, ttl))
    else (upstream, cache)
  }

  const DEFAULT_NAMESERVERS := ["1.1.1.1:53", "8.8.8.8:53", "9.9.9.9:53"]
  const DEFAULT_TTL := 300
  const DEFAULT_TIMEOUT := 3

  class Resolver {
    var cache: Cache
    const nameservers: seq<string>
    const timeout: int
    const cacheTTL: int

    constructor (nameservers: seq<string>, timeout: int, cacheTTL: int)
      ensures cache == map[] && this.cacheTTL > 0 && this.timeout > 0 && this.nameservers != []
      ensures this.nameservers == if |nameservers| > 0 then nameservers else DEFAULT_NAMESERVERS
      ensures this.timeout == if timeout > 0 then timeout else DEFAULT_TIMEOUT
      ensures this.cacheTTL == if cacheTTL > 0 then cacheTTL else DEFAULT_TTL
    {
      this.cache := map[];
      this.nameservers := if nameservers == [] then DEFAULT_NAMESERVERS else nameservers;
      this.timeout := if timeout <= 0 then DEFAULT_TIMEOUT else timeout;
      this.cacheTTL := if cacheTTL <= 0 then DEFAULT_TTL else cacheTTL;
    }

    method Lookup(host: string, t1: int, t2: int, t3: int,
                  answers: seq<Option<seq<IP>>>, fallback: Option<seq<IP>>)
      returns (r: Result<IP, LookupError>)
      requires |answers| == |nameservers|
      modifies this
      ensures (r, cache) == LookupOutcome(old(cache), cacheTTL, host, t1, t2, t3, Upstream(answers, fallback))
      ensures host in old(cache) && (t1 < old(cache)[host].expiresAt || t2 < old(cache)[host].expiresAt) ==>
        r == Success(old(cache)[host].ip) && cache == old(cache)
      ensures host !in old(cache) || (t1 >= old(cache)[host].expiresAt && t2 >= old(cache)[host].expiresAt) ==>
        && (forall i | 0 <= i < |answers| && Answers(answers, i)
          && (forall j :: 0 <= j < i ==> !Answers(answers, j)) ::
              && r == Success(answers[i].value[0])
              && cache == old(cache)[host := Entry(answers[i].value[0], t3 + cacheTTL)])
        && ((forall i :: 0 <= i < |answers| ==> !Answers(answers, i)) ==>
              match fallback
              case None => r == Failure(LookupFailed) && cache == old(cache)
              case Some(ips) =>
                if |ips| == 0 then r == Failure(NoAddresses) && cache == old(cache)
                else r == Success(ips[0]) && cache == old(cache)[host := Entry(ips[0], t3 + cacheTTL)])
    {
      UpstreamIs(answers, fallback);
      hide Upstream;
      if host in cache && t1 < cache[host].expiresAt {
        return Success(cache[host].ip);
      }
      if host in cache && t2 < cache[host].expiresAt {
        return Success(cache[host].ip);
      }
      for i := 0 to |nameservers|
        invariant cache == old(cache)
        invariant forall j :: 0 <= j < i ==> !Answers(answers, j)
      {
        if answers[i].None? {
          continue;
        }
        var ips := answers[i].value;
        if |ips| > 0 {
          cache := cache[host := Entry(ips[0], t3 + cacheTTL)];
          return Success(ips[0]);
        }
      }
      if fallback.None? {
        return Failure(LookupFailed);
      }
      if |fallback.value| > 0 {
        cache := cache[host := Entry(fallback.value[0], t3 + cacheTTL)];
        return Success(fallback.value[0]);
      }
      return Failure(NoAddresses);
    }

    method ClearCache()
      modifies this
      ensures cache == map[]
    {
      cache := map[];
    }
  }

  // ----- Interleaved calls ----------------------------------------------------------

  /** Where a caller stands. It holds the read lock in Reading, the write lock in
      Locked and Resolving. */
  datatype Phase =
    | Idle
    | Reading(host: string)
    | Missed(host: string)
    | Locked(host: string)
    | Resolving(host: string, checkedAt: int)

  /** The writes to the cache so far. */
  datatype Write = Store(host: string, ip: IP, at: int) | Clear(at: int)

  /** An answer given from the cache, with the time of the check that allowed it. */
  datatype Hit = Hit(host: string, ip: IP, at: int)

  datatype State = State(
    now: int, cache: Cache, phase: map<nat, Phase>, writes: seq<Write>, hits: seq<Hit>)

  datatype Event =
    | Tick(seconds: nat)
    | Call(t: nat, host: string)
    | FastCheck(t: nat)
    | Acquire(t: nat)
    | SlowCheck(t: nat)
    | Resolved(t: nat, ip: IP)
    | GaveUp(t: nat)
    | ClearAll

  predicate Reads(p: Phase) { p.Reading? }

  predicate Writes(p: Phase) { p.Locked? || p.Resolving? }

  ghost predicate NoWriter(s: State) {
    forall t :: t in s.phase ==> !Writes(s.phase[t])
  }

  ghost predicate NoReader(s: State) {
    forall t :: t in s.phase ==> !Reads(s.phase[t])
  }

  /** A step is possible when the caller is at that point and the lock permits it. */
  ghost predicate Enabled(s: State, e: Event) {
    match e
    case Tick(_) => true
    case Call(t, _) => t in s.phase && s.phase[t].Idle? && NoWriter(s)
    case FastCheck(t) => t in s.phase && s.phase[t].Reading?
    case Acquire(t) => t in s.phase && s.phase[t].Missed? && NoWriter(s) && NoReader(s)
    case SlowCheck(t) => t in s.phase && s.phase[t].Locked?
    case Resolved(t, _) => t in s.phase && s.phase[t].Resolving?
    case GaveUp(t) => t in s.phase && s.phase[t].Resolving?
    case ClearAll => NoWriter(s) && NoReader(s)
  }

  function Checked(s: State, t: nat, host: string, otherwise: Phase): State {
    if Fresh(s.cache, host, s.now)
    then s.(phase := s.phase[t := Idle], hits := s.hits + [Hit(host, s.cache[host].ip, s.now)])
    else s.(phase := s.phase[t := otherwise])
  }

  ghost function Step(s: State, e: Event, ttl: int): State
    requires Enabled(s, e)
  {
    match e
    case Tick(d) => s.(now := s.now + d)
    case Call(t, host) => s.(phase := s.phase[t := Reading(host)])
    case FastCheck(t) => Checked(s, t, s.phase[t].host, Missed(s.phase[t].host))
    case Acquire(t) => s.(phase := s.phase[t := Locked(s.phase[t].host)])
    case SlowCheck(t) => Checked(s, t, s.phase[t].host, Resolving(s.phase[t].host, s.now))
    case Resolved(t, ip) =>
      var host := s.phase[t].host;
      s.(phase := s.phase[t := Idle], cache := Stored(s.cache, host, ip, s.now, ttl),
         writes := s.writes + [Store(host, ip, s.now)])
    case GaveUp(t) => s.(phase := s.phase[t := Idle])
    case ClearAll => s.(cache := map[], writes := s.writes + [Clear(s.now)])
  }

  ghost predicate ValidRun(s: State, events: seq<Event>, ttl: int)
    decreases |events|
  {
    events == [] || (Enabled(s, events[0]) && ValidRun(Step(s, events[0], ttl), events[1..], ttl))
  }

  ghost function Run(s: State, events: seq<Event>, ttl: int): State
    requires ValidRun(s, events, ttl)
    decreases |events|
  {
    if events == [] then s else Run(Step(s, events[0], ttl), events[1..], ttl)
  }

  /** A new resolver with `callers` callers. */
  ghost function Start(now: int, callers: set<nat>): State {
    State(now, map[], map t | t in callers :: Idle, [], [])
  }

  // ----- Safety ------------------------------------------------------------------------

  ghost predicate ClearedBetween(writes: seq<Write>, i: nat, j: nat) {
    exists k :: i < k < j && k < |writes| && writes[k].Clear?
  }

  /** Two stores for one host with no clearing between them are a lifetime apart. */
  ghost predicate Spaced(writes: seq<Write>, ttl: int) {
    forall i, j :: 0 <= i < j < |writes| && writes[i].Store? && writes[j].Store?
      && writes[i].host == writes[j].host && !ClearedBetween(writes, i, j)
      ==> writes[i].at + ttl <= writes[j].at
  }

  /** Every cached answer was stored by an upstream resolution less than a lifetime
      before the check that returned it. */
  ghost predicate Backed(writes: seq<Write>, h: Hit, ttl: int) {
    exists i :: 0 <= i < |writes| && writes[i].Store? && writes[i].host == h.host
      && writes[i].ip == h.ip && writes[i].at <= h.at < writes[i].at + ttl
  }

  /** Mutual exclusion: a writer is alone. */
  ghost predicate LockHeld(s: State) {
    forall t, u :: t in s.phase && u in s.phase && t != u && Writes(s.phase[t])
      ==> !Writes(s.phase[u]) && !Reads(s.phase[u])
  }

  /** The cache holds, for each host, the last store since it was cleared. */
  ghost predicate CacheExplained(s: State, ttl: int) {
    && (forall h :: h in s.cache ==>
          exists i :: 0 <= i < |s.writes| && s.writes[i] == Store(h, s.cache[h].ip, s.cache[h].expiresAt - ttl))
    && (forall i :: 0 <= i < |s.writes| && s.writes[i].Store? && !ClearedBetween(s.writes, i, |s.writes|)
          ==> s.writes[i].host in s.cache && s.writes[i].at + ttl <= s.cache[s.writes[i].host].expiresAt)
    && (forall i :: 0 <= i < |s.writes| ==> s.writes[i].at <= s.now)
  }

  /** A caller that resolves has seen, under the lock it still holds, no fresh entry. */
  ghost predicate ResolversChecked(s: State) {
    forall t :: t in s.phase && s.phase[t].Resolving? ==>
      && s.phase[t].checkedAt <= s.now
      && !Fresh(s.cache, s.phase[t].host, s.phase[t].checkedAt)
  }

  ghost predicate Inv(s: State, ttl: int) {
    && LockHeld(s)
    && CacheExplained(s, ttl)
    && ResolversChecked(s)
    && Spaced(s.writes, ttl)
    && (forall i :: 0 <= i < |s.hits| ==> Backed(s.writes, s.hits[i], ttl))
  }

  lemma HitBacked(s: State, host: string, ttl: int)
    requires Inv(s, ttl) && Fresh(s.cache, host, s.now)
    ensures Backed(s.writes, Hit(host, s.cache[host].ip, s.now), ttl)
  {
    var i :| 0 <= i < |s.writes| && s.writes[i] == Store(host, s.cache[host].ip, s.cache[host].expiresAt - ttl);
  }

  lemma CheckKeepsInv(s: State, t: nat, host: string, otherwise: Phase, ttl: int)
    requires Inv(s, ttl) && t in s.phase
    requires otherwise == Missed(host) || (otherwise == Resolving(host, s.now) && s.phase[t].Locked?)
    ensures Inv(Checked(s, t, host, otherwise), ttl)
  {
    if Fresh(s.cache, host, s.now) {
      HitBacked(s, host, ttl);
    }
  }

  lemma BackedGrows(writes: seq<Write>, w: Write, h: Hit, ttl: int)
    requires Backed(writes, h, ttl)
    ensures Backed(writes + [w], h, ttl)
  {
    var i :| 0 <= i < |writes| && writes[i].Store? && writes[i].host == h.host
      && writes[i].ip == h.ip && writes[i].at <= h.at < writes[i].at + ttl;
    assert (writes + [w])[i] == writes[i];
  }

  lemma ClearedGrows(writes: seq<Write>, w: Write, i: nat, j: nat)
    requires j <= |writes|
    ensures ClearedBetween(writes + [w], i, j) == ClearedBetween(writes, i, j)
    ensures i < |writes| ==>
      ClearedBetween(writes + [w], i, |writes| + 1) == (ClearedBetween(writes, i, |writes|) || w.Clear?)
  {
    var more := writes + [w];
    assert forall k :: 0 <= k < |writes| ==> more[k] == writes[k];
    if ClearedBetween(writes, i, |writes|) {
      var k :| i < k < |writes| && writes[k].Clear?;
      assert more[k].Clear?;
    }
    if ClearedBetween(writes, i, j) {
      var k :| i < k < j && k < |writes| && writes[k].Clear?;
      assert more[k].Clear?;
    }
    if i < |writes| && w.Clear? {
      assert more[|writes|].Clear?;
    }
  }

  lemma StoreKeepsInv(s: State, t: nat, ip: IP, ttl: int)
    requires Inv(s, ttl) && ttl > 0 && Enabled(s, Resolved(t, ip))
    ensures Inv(Step(s, Resolved(t, ip), ttl), ttl)
  {
    var host, q := s.phase[t].host, Step(s, Resolved(t, ip), ttl);
    var w := Store(host, ip, s.now);
    forall i | 0 <= i < |s.hits| ensures Backed(q.writes, q.hits[i], ttl) {
      BackedGrows(s.writes, w, s.hits[i], ttl);
    }
    StoreSpaced(s, t, ip, ttl);
    StoreExplains(s, t, ip, ttl);
  }

  lemma StoreExplains(s: State, t: nat, ip: IP, ttl: int)
    requires Inv(s, ttl) && ttl > 0 && Enabled(s, Resolved(t, ip))
    ensures CacheExplained(Step(s, Resolved(t, ip), ttl), ttl)
  {
    StoredExplained(s, s.phase[t].host, ip, ttl, Step(s, Resolved(t, ip), ttl));
  }

  lemma StoredExplained(s: State, host: string, ip: IP, ttl: int, q: State)
    requires CacheExplained(s, ttl) && ttl > 0 && q.now == s.now
    requires q.cache == Stored(s.cache, host, ip, s.now, ttl) && q.writes == s.writes + [Store(host, ip, s.now)]
    ensures CacheExplained(q, ttl)
  {
    var w, n := Store(host, ip, s.now), |s.writes|;
    assert q.writes[n] == w;
    forall h | h in q.cache
      ensures exists i :: 0 <= i < |q.writes| && q.writes[i] == Store(h, q.cache[h].ip, q.cache[h].expiresAt - ttl)
    {
      if h != host {
        var i :| 0 <= i < n && s.writes[i] == Store(h, s.cache[h].ip, s.cache[h].expiresAt - ttl);
        assert q.writes[i] == s.writes[i];
      }
    }
    WritesCovered(s, host, ip, ttl, q);
  }

  /** Every store since the last clearing is covered by its host's entry. */
  lemma WritesCovered(s: State, host: string, ip: IP, ttl: int, q: State)
    requires CacheExplained(s, ttl) && ttl > 0 && q.now == s.now
    requires q.cache == Stored(s.cache, host, ip, s.now, ttl) && q.writes == s.writes + [Store(host, ip, s.now)]
    ensures forall i :: 0 <= i < |q.writes| && q.writes[i].Store? && !ClearedBetween(q.writes, i, |q.writes|) ==>
      q.writes[i].host in q.cache && q.writes[i].at + ttl <= q.cache[q.writes[i].host].expiresAt
  {
    var w, n := Store(host, ip, s.now), |s.writes|;
    forall i | 0 <= i < |q.writes| && q.writes[i].Store? && !ClearedBetween(q.writes, i, |q.writes|)
      ensures q.writes[i].host in q.cache && q.writes[i].at + ttl <= q.cache[q.writes[i].host].expiresAt
    {
      if i < n {
        assert q.writes[i] == s.writes[i];
        ClearedGrows(s.writes, w, i, n);
      }
    }
  }

  /** The new store is a lifetime after the last one: nothing was written since the
      resolving caller found no fresh entry. */
  lemma StoreSpaced(s: State, t: nat, ip: IP, ttl: int)
    requires Inv(s, ttl) && ttl > 0 && Enabled(s, Resolved(t, ip))
    ensures Spaced(s.writes + [Store(s.phase[t].host, ip, s.now)], ttl)
  {
    var host, n := s.phase[t].host, |s.writes|;
    var w := Store(host, ip, s.now);
    var writes := s.writes + [w];
    forall i, j | 0 <= i < j < |writes| && writes[i].Store? && writes[j].Store?
      && writes[i].host == writes[j].host && !ClearedBetween(writes, i, j)
      ensures writes[i].at + ttl <= writes[j].at
    {
      assert writes[i] == s.writes[i];
      ClearedGrows(s.writes, w, i, j);
      if j < n {
        assert writes[j] == s.writes[j];
      } else {
        assert host in s.cache && s.writes[i].at + ttl <= s.cache[host].expiresAt;
      }
    }
  }

  lemma ClearKeepsInv(s: State, ttl: int)
    requires Inv(s, ttl) && Enabled(s, ClearAll)
    ensures Inv(Step(s, ClearAll, ttl), ttl)
  {
    var q, w, n := Step(s, ClearAll, ttl), Clear(s.now), |s.writes|;
    assert q.writes[n] == w;
    forall i | 0 <= i < |s.hits| ensures Backed(q.writes, q.hits[i], ttl) {
      BackedGrows(s.writes, w, s.hits[i], ttl);
    }
    forall i | 0 <= i < n ensures ClearedBetween(q.writes, i, |q.writes|) {
      ClearedGrows(s.writes, w, i, n);
    }
    forall i, j | 0 <= i < j < n ensures ClearedBetween(q.writes, i, j) == ClearedBetween(s.writes, i, j) {
      ClearedGrows(s.writes, w, i, j);
    }
  }

  lemma StepKeepsInv(s: State, e: Event, ttl: int)
    requires Inv(s, ttl) && ttl > 0 && Enabled(s, e)
    ensures Inv(Step(s, e, ttl), ttl)
  {
    match e
    case FastCheck(t) => CheckKeepsInv(s, t, s.phase[t].host, Missed(s.phase[t].host), ttl);
    case SlowCheck(t) => CheckKeepsInv(s, t, s.phase[t].host, Resolving(s.phase[t].host, s.now), ttl);
    case Resolved(t, ip) => StoreKeepsInv(s, t, ip, ttl);
    case ClearAll => ClearKeepsInv(s, ttl);
    case Tick(_) =>
    case Call(_, _) =>
    case Acquire(_) =>
    case GaveUp(_) =>
  }

  lemma {:induction false} RunKeepsInv(s: State, events: seq<Event>, ttl: int)
    requires Inv(s, ttl) && ttl > 0 && ValidRun(s, events, ttl)
    ensures Inv(Run(s, events, ttl), ttl)
    decreases |events|
  {
    if events != [] {
      StepKeepsInv(s, events[0], ttl);
      RunKeepsInv(Step(s, events[0], ttl), events[1..], ttl);
    }
  }

  /** For any interleaving of any number of callers: stores for one host are at least
      a lifetime apart unless the cache was cleared between them, and every cached
      answer was stored upstream less than a lifetime before it was checked. */
  lemma CacheSafety(now: int, callers: set<nat>, events: seq<Event>, ttl: int)
    requires ttl > 0 && ValidRun(Start(now, callers), events, ttl)
    ensures var s := Run(Start(now, callers), events, ttl);
            && Spaced(s.writes, ttl)
            && (forall i :: 0 <= i < |s.hits| ==> Backed(s.writes, s.hits[i], ttl))
            && LockHeld(s)
  {
    RunKeepsInv(Start(now, callers), events, ttl);
  }

  // ----- The two views agree --------------------------------------------------------------

  /** The steps of a caller that meets nobody: it waits, checks, and either answers
      from the cache or resolves. */
  function SoloEvents(s: State, t: nat, host: string, t1: nat, t2: nat, t3: nat,
                      upstream: Result<IP, LookupError>): seq<Event>
  {
    if Fresh(s.cache, host, s.now + t1) then [Tick(t1), Call(t, host), FastCheck(t)]
    else [Tick(t1), Call(t, host), FastCheck(t), Acquire(t), Tick(t2), SlowCheck(t), Tick(t3)]
         + [if upstream.Success? then Resolved(t, upstream.value) else GaveUp(t)]
  }

  ghost function Quiet(s: State): bool {
    forall t :: t in s.phase ==> s.phase[t].Idle?
  }

  /** What a resolution writes. */
  function Stores(host: string, upstream: Result<IP, LookupError>, at: int): seq<Write> {
    if upstream.Success? then [Store(host, upstream.value, at)] else []
  }

  /** A single call of Lookup is the run of one caller alone: the same cache afterwards,
      and the answer it returns is the one hit the run records, or the one store, or an
      error when there is neither. The delays t1, t2 and t3 separate its clock readings. */
  lemma LookupIsSoloRun(s: State, t: nat, host: string, t1: nat, t2: nat, t3: nat,
                        ttl: int, upstream: Result<IP, LookupError>)
    requires Quiet(s) && t in s.phase
    ensures var events := SoloEvents(s, t, host, t1, t2, t3, upstream);
            && ValidRun(s, events, ttl)
            && var q, o := Run(s, events, ttl),
                 LookupOutcome(s.cache, ttl, host, s.now + t1, s.now + t1 + t2, s.now + t1 + t2 + t3, upstream);
               && q.cache == o.1 && Quiet(q)
               && (Fresh(s.cache, host, s.now + t1) ==>
                     o.0.Success? && q.hits == s.hits + [Hit(host, o.0.value, s.now + t1)] && q.writes == s.writes)
               && (!Fresh(s.cache, host, s.now + t1) ==>
                     && q.hits == s.hits && o.0 == upstream
                     && q.writes == s.writes + Stores(host, upstream, s.now + t1 + t2 + t3))
  {
    var s1 := Step(s, Tick(t1), ttl);
    var s2 := Step(s1, Call(t, host), ttl);
    if Fresh(s.cache, host, s.now + t1) {
      Cons(s2, FastCheck(t), [], ttl);
      Cons(s1, Call(t, host), [FastCheck(t)], ttl);
      Cons(s, Tick(t1), [Call(t, host), FastCheck(t)], ttl);
    } else {
      var slow := [Acquire(t), Tick(t2), SlowCheck(t), Tick(t3)]
        + [if upstream.Success? then Resolved(t, upstream.value) else GaveUp(t)];
      SlowPath(Step(s2, FastCheck(t), ttl), t, host, t2, t3, ttl, upstream);
      Cons(s2, FastCheck(t), slow, ttl);
      Cons(s1, Call(t, host), [FastCheck(t)] + slow, ttl);
      Cons(s, Tick(t1), [Call(t, host)] + ([FastCheck(t)] + slow), ttl);
      assert SoloEvents(s, t, host, t1, t2, t3, upstream)
             == [Tick(t1)] + ([Call(t, host)] + ([FastCheck(t)] + slow));
    }
  }

  /** From the missed fast check on. */
  lemma SlowPath(s: State, t: nat, host: string, t2: nat, t3: nat, ttl: int, upstream: Result<IP, LookupError>)
    requires t in s.phase && s.phase[t] == Missed(host) && !Fresh(s.cache, host, s.now)
    requires forall u :: u in s.phase && u != t ==> s.phase[u].Idle?
    ensures var last := if upstream.Success? then Resolved(t, upstream.value) else GaveUp(t);
            var slow := [Acquire(t), Tick(t2), SlowCheck(t), Tick(t3)] + [last];
            && ValidRun(s, slow, ttl)
            && var q := Run(s, slow, ttl);
               && q.hits == s.hits && Quiet(q)
               && q.writes == s.writes + Stores(host, upstream, s.now + t2 + t3)
               && q.cache
                  == if upstream.Success? then Stored(s.cache, host, upstream.value, s.now + t2 + t3, ttl) else s.cache
  {
    var last := if upstream.Success? then Resolved(t, upstream.value) else GaveUp(t);
    var s1 := Step(s, Acquire(t), ttl);
    var s2 := Step(s1, Tick(t2), ttl);
    var s3 := Step(s2, SlowCheck(t), ttl);
    var s4 := Step(s3, Tick(t3), ttl);
    Cons(s4, last, [], ttl);
    Cons(s3, Tick(t3), [last], ttl);
    Cons(s2, SlowCheck(t), [Tick(t3)] + [last], ttl);
    Cons(s1, Tick(t2), [SlowCheck(t)] + ([Tick(t3)] + [last]), ttl);
    Cons(s, Acquire(t), [Tick(t2)] + ([SlowCheck(t)] + ([Tick(t3)] + [last])), ttl);
    assert [Acquire(t), Tick(t2), SlowCheck(t), Tick(t3)] + [last]
           == [Acquire(t)] + ([Tick(t2)] + ([SlowCheck(t)] + ([Tick(t3)] + [last])));
  }

  lemma Cons(s: State, e: Event, rest: seq<Event>, ttl: int)
    requires Enabled(s, e) && ValidRun(Step(s, e, ttl), rest, ttl)
    ensures ValidRun(s, [e] + rest, ttl) && Run(s, [e] + rest, ttl) == Run(Step(s, e, ttl), rest, ttl)
  {
    assert ([e] + rest)[1..] == rest;
  }
}
