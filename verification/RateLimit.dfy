/** Token buckets and the per-key limiter (internal/ratelimit/ratelimit.go).
    Time is in seconds; every clock reading is an argument. */
module RateLimit {
  import opened Wrappers

  datatype Bucket = Bucket(tokens: real, maxTokens: real, refillRate: real, lastRefill: real)

  function NewBucket(maxTokens: real, refillRate: real, now: real): Bucket {
    Bucket(maxTokens, maxTokens, refillRate, now)
  }

  /** What accrues in `d` seconds. */
  function Accrued(rate: real, d: real): real {
    d * rate
  }

  function Refilled(b: Bucket, now: real): Bucket {
    var t := b.tokens + Accrued(b.refillRate, now - b.lastRefill);
    b.(tokens := if t > b.maxTokens then b.maxTokens else t, lastRefill := now)
  }

  predicate Grants(b: Bucket, n: real, now: real) {
    Refilled(b, now).tokens >= n
  }

  function Taken(b: Bucket, n: real, now: real): Bucket {
    var r := Refilled(b, now);
    if r.tokens >= n then r.(tokens := r.tokens - n) else r
  }

  /** A request for `n` at `now` is answered `ok` and turns the bucket into `q`: what has
      accrued since the last refill is added up to the maximum, and `n` taken if it is there. */
  predicate Serves(b: Bucket, n: real, now: real, ok: bool, q: Bucket) {
    var accrued := b.tokens + (now - b.lastRefill) * b.refillRate;
    var level := if accrued > b.maxTokens then b.maxTokens else accrued;
    && ok == (level >= n)
    && q == Bucket(if ok then level - n else level, b.maxTokens, b.refillRate, now)
  }

  lemma TakenServes(b: Bucket, n: real, now: real)
    ensures Serves(b, n, now, Grants(b, n, now), Taken(b, n, now))
  {
  }

  /** A bucket owes nothing. */
  predicate Solvent(b: Bucket) {
    0.0 <= b.tokens && 0.0 <= b.maxTokens && b.refillRate >= 0.0
  }

  /** ... and is not overfilled, which only a negative request can do. */
  predicate Sound(b: Bucket) {
    Solvent(b) && b.tokens <= b.maxTokens
  }

  /** One call of Allow: when, and for how many tokens. */
  datatype Call = Call(at: real, n: real)

  /** The clock never goes back. */
  predicate Orderly(calls: seq<Call>, since: real) {
    calls == [] || (since <= calls[0].at && Orderly(calls[1..], calls[0].at))
  }

  function AfterCalls(b: Bucket, calls: seq<Call>): Bucket
    decreases |calls|
  {
    if calls == [] then b else AfterCalls(Taken(b, calls[0].n, calls[0].at), calls[1..])
  }

  /** A clock that moves forward, and by 10 ms across each sleep: reading 0 sets the
      deadline, poll k takes readings 2k+1 and 2k+2. */
  ghost predicate PollClock(clock: nat -> real) {
    forall k: nat ::
      && clock(2 * k) <= clock(2 * k + 1) <= clock(2 * k + 2)
      && (k > 0 ==> clock(2 * k) + 0.01 <= clock(2 * k + 1))
  }

  class TokenBucket {
    var tokens: real
    const maxTokens: real
    const refillRate: real
    var lastRefill: real

    ghost function View(): Bucket
      reads this
    {
      Bucket(tokens, maxTokens, refillRate, lastRefill)
    }

    constructor (maxTokens: real, refillRate: real, now: real)
      ensures View() == NewBucket(maxTokens, refillRate, now)
      ensures tokens == this.maxTokens == maxTokens && this.refillRate == refillRate && lastRefill == now
    {
      this.tokens, this.maxTokens, this.refillRate, this.lastRefill := maxTokens, maxTokens, refillRate, now;
    }

    method Refill(now: real)
      modifies this
      ensures View() == Refilled(old(View()), now)
      ensures lastRefill == now
      ensures var level := old(tokens) + (now - old(lastRefill)) * refillRate;
              tokens == if level > maxTokens then maxTokens else level
    {
      var elapsed := now - lastRefill;
      tokens := tokens + elapsed * refillRate;
      if tokens > maxTokens {
        tokens := maxTokens;
      }
      lastRefill := now;
    }

    method Allow(n: real, now: real) returns (ok: bool)
      modifies this
      ensures ok == Grants(old(View()), n, now)
      ensures View() == Taken(old(View()), n, now)
      ensures var accrued := old(tokens) + (now - old(lastRefill)) * refillRate;
              var level := if accrued > maxTokens then maxTokens else accrued;
              ok == (level >= n) && tokens == (if ok then level - n else level) && lastRefill == now
    {
      Refill(now);
      if tokens >= n {
        tokens := tokens - n;
        return true;
      }
      return false;
    }

    method Available(now: real) returns (available: real)
      modifies this
      ensures View() == Refilled(old(View()), now) && available == View().tokens
      ensures var level := old(tokens) + (now - old(lastRefill)) * refillRate;
              available == if level > maxTokens then maxTokens else level
    {
      Refill(now);
      available := tokens;
    }

    /** Polls until the bucket grants `n` or the deadline has passed, after `refused`
        polls before the last. `others(k)` are the calls that other callers get in
        before poll `k`. */
    method Wait(n: real, timeout: real, clock: nat -> real, others: nat -> seq<Call>) returns (ok: bool, refused: nat)
      requires PollClock(clock)
      modifies this
      ensures RefusedPolls(old(View()), n, clock, others, refused, clock(0) + timeout)
      ensures ok == Grants(BeforePoll(old(View()), n, clock, others, refused), n, clock(2 * refused + 1))
      ensures View() == AfterPoll(old(View()), n, clock, others, refused)
      ensures !ok ==> clock(2 * (refused + 1)) > clock(0) + timeout
    {
      hide Accrued, Refilled, Grants, Taken, AfterCalls, RefusedPolls;
      var deadline := clock(0) + timeout;
      ghost var b := View();
      refused := 0;
      NoneRefused(b, n, clock, others, deadline);
      while true
        invariant View() == if refused == 0 then b else AfterPoll(b, n, clock, others, refused - 1)
        invariant clock(2 * refused) >= clock(0) + 0.01 * (if refused == 0 then 0 else refused - 1) as real
        invariant refused > 0 ==> clock(2 * refused) <= deadline
        invariant RefusedPolls(b, n, clock, others, refused, deadline)
        decreases (timeout * 100.0).Floor + 2 - refused
      {
        PollTime(clock, refused, timeout);
        Interfere(others(refused));
        assert View() == BeforePoll(b, n, clock, others, refused);
        ok := Allow(n, clock(2 * refused + 1));
        if ok || clock(2 * (refused + 1)) > deadline {
          return;
        }
        OneMoreRefused(b, n, clock, others, refused, deadline);
        refused := refused + 1;
      }
    }

    /** Other callers, while the waiter sleeps. */
    method Interfere(calls: seq<Call>)
      modifies this
      ensures View() == AfterCalls(old(View()), calls)
    {
      for i := 0 to |calls|
        invariant AfterCalls(View(), calls[i..]) == AfterCalls(old(View()), calls)
      {
        assert calls[i..][1..] == calls[i + 1..];
        var ok := Allow(calls[i].n, calls[i].at);
      }
    }
  }

  // ----- Waiting ---------------------------------------------------------------------

  /** The bucket poll `k` of a Wait finds, after the earlier polls and what others took. */
  ghost function BeforePoll(b: Bucket, n: real, clock: nat -> real, others: nat -> seq<Call>, k: nat): Bucket
    decreases k, 0
  {
    AfterCalls(if k == 0 then b else AfterPoll(b, n, clock, others, k - 1), others(k))
  }

  ghost function AfterPoll(b: Bucket, n: real, clock: nat -> real, others: nat -> seq<Call>, k: nat): Bucket
    decreases k, 1
  {
    Taken(BeforePoll(b, n, clock, others, k), n, clock(2 * k + 1))
  }

  // ----- The limiter ---------------------------------------------------------------

  datatype Config = Config(enabled: bool, maxTokens: real, refillRate: real)

  type Buckets = map<string, Bucket>

  /** The bucket a key is served from: its own, or a full one made on the spot. */
  function BucketFor(c: Config, buckets: Buckets, key: string, now: real): Bucket {
    if key in buckets then buckets[key] else NewBucket(c.maxTokens, c.refillRate, now)
  }

  predicate LimiterGrants(c: Config, buckets: Buckets, key: string, n: real, now: real) {
    !c.enabled || Grants(BucketFor(c, buckets, key, now), n, now)
  }

  function LimiterTaken(c: Config, buckets: Buckets, key: string, n: real, now: real): Buckets {
    if c.enabled then buckets[key := Taken(BucketFor(c, buckets, key, now), n, now)] else buckets
  }

  class Limiter {
    var buckets: map<string, TokenBucket>
    const config: Config

    ghost predicate Valid()
      reads this
    {
      forall j, k :: j in buckets && k in buckets && j != k ==> buckets[j] != buckets[k]
    }

    ghost function View(): Buckets
      reads this, buckets.Values
    {
      map k | k in buckets :: buckets[k].View()
    }

    constructor (config: Config)
      ensures Valid() && buckets == map[] && this.config == config
    {
      this.buckets, this.config := map[], config;
    }

    method GetBucket(key: string, now: real) returns (b: TokenBucket)
      requires Valid()
      modifies this
      ensures Valid() && key in buckets && buckets[key] == b && fresh(buckets.Values - old(buckets.Values))
      ensures View() == old(View())[key := BucketFor(config, old(View()), key, now)]
      ensures key !in old(buckets) ==>
        View()[key] == Bucket(config.maxTokens, config.maxTokens, config.refillRate, now)
      ensures key in old(buckets) ==> b == old(buckets)[key] && View()[key] == old(View())[key]
    {
      if key !in buckets {
        b := new TokenBucket(config.maxTokens, config.refillRate, now);
        assert forall k :: k in buckets ==> buckets[k] in buckets.Values;
        buckets := buckets[key := b];
      }
      b := buckets[key];
    }

    method Allow(key: string, n: real, now: real) returns (ok: bool)
      requires Valid()
      modifies this, buckets.Values
      ensures Valid() && fresh(buckets.Values - old(buckets.Values))
      ensures ok == LimiterGrants(config, old(View()), key, n, now)
      ensures View() == LimiterTaken(config, old(View()), key, n, now)
      ensures !config.enabled ==> ok && buckets == old(buckets) && View() == old(View())
      ensures config.enabled ==> key in buckets && View() - {key} == old(View()) - {key}
      ensures config.enabled ==>
        Serves(if key in old(buckets) then old(View())[key]
               else Bucket(config.maxTokens, config.maxTokens, config.refillRate, now),
               n, now, ok, View()[key])
    {
      hide Refilled, Grants, Taken, BucketFor, NewBucket, Serves;
      if !config.enabled {
        return true;
      }
      var b := GetBucket(key, now);
      label made:
      assert b in buckets.Values;
      assert b.View() == View()[key] == BucketFor(config, old(View()), key, now);
      ok := b.Allow(n, now);
      assert forall k :: k in buckets && k != key ==>
        buckets[k] != b && buckets[k].View() == old@made(buckets[k].View());
      TakenServes(BucketFor(config, old(View()), key, now), n, now);
    }

    method Remove(key: string)
      requires Valid()
      modifies this
      ensures Valid() && View() == old(View()) - {key} && buckets == old(buckets) - {key}
    {
      buckets := buckets - {key};
    }
  }

  // ----- Refilling -----------------------------------------------------------------

  /** The first `m` polls were refused, each before the deadline. */
  ghost predicate RefusedPolls(
    b: Bucket, n: real, clock: nat -> real, others: nat -> seq<Call>, m: nat, deadline: real)
  {
    forall k: nat :: k < m ==>
      !Grants(BeforePoll(b, n, clock, others, k), n, clock(2 * k + 1)) && clock(2 * (k + 1)) <= deadline
  }

  lemma NoneRefused(b: Bucket, n: real, clock: nat -> real, others: nat -> seq<Call>, deadline: real)
    ensures RefusedPolls(b, n, clock, others, 0, deadline)
  {
  }

  lemma OneMoreRefused(b: Bucket, n: real, clock: nat -> real, others: nat -> seq<Call>, m: nat, deadline: real)
    requires RefusedPolls(b, n, clock, others, m, deadline)
    requires !Grants(BeforePoll(b, n, clock, others, m), n, clock(2 * m + 1)) && clock(2 * (m + 1)) <= deadline
    ensures RefusedPolls(b, n, clock, others, m + 1, deadline)
  {
    hide Grants, BeforePoll;
  }

  /** Each sleep brings the deadline closer. */
  lemma PollTime(clock: nat -> real, polls: nat, timeout: real)
    requires PollClock(clock)
    requires clock(2 * polls) >= clock(0) + 0.01 * (if polls == 0 then 0 else polls - 1) as real
    ensures clock(2 * (polls + 1)) >= clock(0) + 0.01 * polls as real
    ensures polls > 0 && clock(2 * polls) <= clock(0) + timeout ==> polls - 1 < (timeout * 100.0).Floor + 2
  {
    assert clock(2 * polls) <= clock(2 * polls + 1) <= clock(2 * polls + 2);
  }

  lemma {:induction false} ClockGrows(clock: nat -> real, i: nat)
    requires PollClock(clock)
    ensures clock(0) <= clock(2 * i) <= clock(2 * i + 1) <= clock(2 * (i + 1))
  {
    assert clock(2 * i) <= clock(2 * i + 1) <= clock(2 * i + 2);
    if i > 0 {
      ClockGrows(clock, i - 1);
    }
  }

  /** With nobody else calling, refused polls leave no trace. */
  lemma {:induction false} WaitAlone(b: Bucket, n: real, clock: nat -> real, others: nat -> seq<Call>, m: nat)
    requires Solvent(b) && b.lastRefill <= clock(0) && PollClock(clock) && forall k: nat :: others(k) == []
    requires forall k: nat :: k < m ==> !Grants(BeforePoll(b, n, clock, others, k), n, clock(2 * k + 1))
    ensures Refilled(BeforePoll(b, n, clock, others, m), clock(2 * m + 1)) == Refilled(b, clock(2 * m + 1))
    ensures Grants(BeforePoll(b, n, clock, others, m), n, clock(2 * m + 1)) == Grants(b, n, clock(2 * m + 1))
    ensures AfterPoll(b, n, clock, others, m) == Taken(b, n, clock(2 * m + 1))
  {
    hide Accrued;
    ClockGrows(clock, m);
    if m > 0 {
      ClockGrows(clock, m - 1);
      WaitAlone(b, n, clock, others, m - 1);
      assert 2 * (m - 1) + 1 == 2 * m - 1;
      RefillComposes(b, clock(2 * m - 1), clock(2 * m + 1));
    }
  }

  lemma Accrual(rate: real, d: real, e: real)
    requires rate >= 0.0 && d >= 0.0 && e >= 0.0
    ensures Accrued(rate, d + e) == Accrued(rate, d) + Accrued(rate, e)
    ensures Accrued(rate, d) >= 0.0 && Accrued(rate, e) >= 0.0
  {
  }

  /** Refilling at t1 and again at t2 is the same as refilling once at t2. */
  lemma RefillComposes(b: Bucket, t1: real, t2: real)
    requires Solvent(b) && b.lastRefill <= t1 <= t2
    ensures Refilled(Refilled(b, t1), t2) == Refilled(b, t2)
    ensures Sound(Refilled(b, t1))
  {
    hide Accrued;
    Accrual(b.refillRate, t1 - b.lastRefill, t2 - t1);
    assert t2 - b.lastRefill == (t1 - b.lastRefill) + (t2 - t1);
  }
}
