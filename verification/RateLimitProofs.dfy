/** Rate bounds over whole runs of a token bucket, and the independence of keys. */
module RateLimitProofs {
  import opened RateLimit
  import opened Wrappers

  /** The tokens granted between `lo` and `hi` in a run; a negative request gives back. */
  function Granted(b: Bucket, calls: seq<Call>, lo: real, hi: real): real
    decreases |calls|
  {
    if calls == [] then 0.0
    else
      var c := calls[0];
      (if lo <= c.at <= hi && Grants(b, c.n, c.at) then c.n else 0.0)
      + Granted(Taken(b, c.n, c.at), calls[1..], lo, hi)
  }

  // ----- The rate bound ----------------------------------------------------------

  lemma TakenSolvent(b: Bucket, n: real, now: real)
    requires Solvent(b) && b.lastRefill <= now
    ensures Solvent(Taken(b, n, now)) && Taken(b, n, now).lastRefill == now
    ensures Refilled(b, now).tokens <= b.tokens + Accrued(b.refillRate, now - b.lastRefill)
    ensures 0.0 <= Refilled(b, now).tokens <= b.maxTokens
  {
    hide Accrued;
    RefillComposes(b, now, now);
  }

  /** A call keeps the level between zero and the maximum exactly if it does not give
      back more than the free space. */
  lemma TakenSoundExactly(b: Bucket, n: real, now: real)
    requires Solvent(b) && b.lastRefill <= now
    ensures Sound(Taken(b, n, now)) <==> -n <= b.maxTokens - Refilled(b, now).tokens
  {
    hide Accrued;
    TakenSolvent(b, n, now);
  }

  /** Through any run the bucket never owes, what the next call finds is between zero and
      the maximum, and so is the level itself if nobody asks for a negative amount. */
  lemma {:induction false} RunSound(b: Bucket, calls: seq<Call>)
    requires Solvent(b) && Orderly(calls, b.lastRefill)
    ensures var q := AfterCalls(b, calls);
            && Solvent(q) && q.maxTokens == b.maxTokens && q.refillRate == b.refillRate
            && (forall t :: q.lastRefill <= t ==> 0.0 <= Refilled(q, t).tokens <= q.maxTokens)
            && (Sound(b) && (forall c :: c in calls ==> c.n >= 0.0) ==> Sound(q))
    decreases |calls|
  {
    hide Accrued;
    if calls != [] {
      var c := calls[0];
      TakenSolvent(b, c.n, c.at);
      TakenSoundExactly(b, c.n, c.at);
      RunSound(Taken(b, c.n, c.at), calls[1..]);
      assert c in calls;
    } else {
      forall t | b.lastRefill <= t ensures 0.0 <= Refilled(b, t).tokens <= b.maxTokens {
        TakenSolvent(b, 0.0, t);
      }
    }
  }

  lemma {:induction false} NothingAfter(b: Bucket, calls: seq<Call>, lo: real, hi: real)
    requires Orderly(calls, b.lastRefill) && hi < b.lastRefill
    ensures Granted(b, calls, lo, hi) == 0.0
    decreases |calls|
  {
    hide Accrued;
    if calls != [] {
      NothingAfter(Taken(b, calls[0].n, calls[0].at), calls[1..], lo, hi);
    }
  }

  /** The tokens one call takes, if it is granted. */
  function Cost(b: Bucket, c: Call): real {
    if Grants(b, c.n, c.at) then c.n else 0.0
  }

  /** Tokens are conserved: what a call takes, what it leaves, and what will still
      accrue come out of what was there and what accrued before. */
  lemma CallBudget(b: Bucket, c: Call, hi: real)
    requires Solvent(b) && b.lastRefill <= c.at <= hi
    ensures var left := Taken(b, c.n, c.at).tokens + Accrued(b.refillRate, hi - c.at);
            && Cost(b, c) + left <= b.tokens + Accrued(b.refillRate, hi - b.lastRefill)
            && Cost(b, c) + left <= b.maxTokens + Accrued(b.refillRate, hi - c.at)
  {
    hide Accrued;
    TakenSolvent(b, c.n, c.at);
    Accrual(b.refillRate, c.at - b.lastRefill, hi - c.at);
    assert hi - b.lastRefill == (c.at - b.lastRefill) + (hi - c.at);
  }

  lemma MoreAccrues(rate: real, d: real, e: real)
    requires rate >= 0.0 && 0.0 <= d <= e
    ensures Accrued(rate, d) <= Accrued(rate, e)
  {
    hide Accrued;
    Accrual(rate, d, e - d);
    assert e == d + (e - d);
  }

  /** Inside the window: what is still granted is at most what is left plus what
      accrues until the window closes. */
  lemma {:induction false} GrantedFromHere(b: Bucket, calls: seq<Call>, lo: real, hi: real)
    requires Solvent(b) && Orderly(calls, b.lastRefill) && lo <= b.lastRefill <= hi
    ensures Granted(b, calls, lo, hi) <= b.tokens + Accrued(b.refillRate, hi - b.lastRefill)
    decreases |calls|
  {
    hide Accrued;
    Accrual(b.refillRate, hi - b.lastRefill, 0.0);
    if calls == [] {
      assert Granted(b, calls, lo, hi) == 0.0;
    } else {
      var c := calls[0];
      var next := Taken(b, c.n, c.at);
      TakenSolvent(b, c.n, c.at);
      if c.at > hi {
        NothingAfter(next, calls[1..], lo, hi);
      } else {
        GrantedFromHere(next, calls[1..], lo, hi);
        CallBudget(b, c, hi);
        assert Granted(b, calls, lo, hi) == Cost(b, c) + Granted(next, calls[1..], lo, hi);
      }
    }
  }

  /** The first call inside the window finds at most a full bucket. */
  lemma WindowEntered(b: Bucket, calls: seq<Call>, lo: real, hi: real)
    requires Solvent(b) && Orderly(calls, b.lastRefill) && calls != [] && lo <= calls[0].at <= hi
    ensures Granted(b, calls, lo, hi) <= b.maxTokens + Accrued(b.refillRate, hi - lo)
  {
    hide Accrued;
    var c := calls[0];
    var next := Taken(b, c.n, c.at);
    TakenSolvent(b, c.n, c.at);
    GrantedFromHere(next, calls[1..], lo, hi);
    CallBudget(b, c, hi);
    MoreAccrues(b.refillRate, hi - c.at, hi - lo);
    assert Granted(b, calls, lo, hi) == Cost(b, c) + Granted(next, calls[1..], lo, hi);
  }

  /** Over any run of Allow calls and any window of time in it, the tokens granted
      are at most the capacity plus the refill rate times the window's length. */
  lemma {:induction false} WindowAccrual(b: Bucket, calls: seq<Call>, lo: real, hi: real)
    requires Solvent(b) && Orderly(calls, b.lastRefill) && lo <= hi
    ensures Granted(b, calls, lo, hi) <= b.maxTokens + Accrued(b.refillRate, hi - lo)
    decreases |calls|
  {
    hide Accrued;
    Accrual(b.refillRate, hi - lo, 0.0);
    if calls == [] {
      assert Granted(b, calls, lo, hi) == 0.0;
    } else {
      var c := calls[0];
      var next := Taken(b, c.n, c.at);
      TakenSolvent(b, c.n, c.at);
      if c.at < lo {
        WindowAccrual(next, calls[1..], lo, hi);
      } else if c.at > hi {
        NothingAfter(next, calls[1..], lo, hi);
      } else {
        WindowEntered(b, calls, lo, hi);
      }
    }
  }

  /** In numbers: over any run of Allow calls and any window of time in it, the tokens
      granted are at most the capacity plus the refill rate times the window's length. */
  lemma {:induction false} WindowBound(b: Bucket, calls: seq<Call>, lo: real, hi: real)
    requires Solvent(b) && Orderly(calls, b.lastRefill) && lo <= hi
    ensures Granted(b, calls, lo, hi) <= b.maxTokens + b.refillRate * (hi - lo)
  {
    WindowAccrual(b, calls, lo, hi);
    Product(b.refillRate, hi - lo);
    hide Accrued;
  }

  lemma Product(rate: real, d: real)
    ensures Accrued(rate, d) == rate * d
  {
  }

  // ----- The bound is reached ----------------------------------------------------------

  /** `k` calls for `n` tokens, a step apart. */
  function Drains(t: real, step: real, n: real, k: nat): seq<Call>
    decreases k
  {
    if k == 0 then [] else [Call(t + step, n)] + Drains(t + step, step, n, k - 1)
  }

  function Times(k: nat, x: real): real {
    if k == 0 then 0.0 else x + Times(k - 1, x)
  }

  lemma {:induction false} TimesProduct(k: nat, x: real)
    ensures Times(k, x) == k as real * x
  {
    if k > 0 {
      TimesProduct(k - 1, x);
    }
  }

  lemma {:induction false} TimesGrows(k: nat, x: real)
    requires x >= 0.0
    ensures Times(k, x) >= 0.0
  {
    if k > 0 {
      TimesGrows(k - 1, x);
    }
  }

  /** An empty bucket grants all that accrues, if each call asks for what accrued since
      the last and the bucket can hold that much. */
  lemma {:induction false} DrainsGranted(b: Bucket, step: real, k: nat, lo: real, hi: real)
    requires b.tokens == 0.0 && b.refillRate >= 0.0 && step >= 0.0
    requires 0.0 <= Accrued(b.refillRate, step) <= b.maxTokens
    requires lo <= b.lastRefill && b.lastRefill + Times(k, step) <= hi
    ensures var n := Accrued(b.refillRate, step);
            && Orderly(Drains(b.lastRefill, step, n, k), b.lastRefill)
            && Granted(b, Drains(b.lastRefill, step, n, k), lo, hi) == Times(k, n)
    decreases k
  {
    hide Accrued;
    if k > 0 {
      var n := Accrued(b.refillRate, step);
      var now := b.lastRefill + step;
      var next, rest := Taken(b, n, now), Drains(now, step, n, k - 1);
      TimesGrows(k - 1, step);
      assert now - b.lastRefill == step;
      assert Refilled(b, now).tokens == n && next == b.(lastRefill := now);
      DrainsGranted(next, step, k - 1, lo, hi);
      var calls := Drains(b.lastRefill, step, n, k);
      assert calls == [Call(now, n)] + rest && calls[1..] == rest;
    }
  }

  /** `k` equal parts of what accrues over `d`, each no more than `max`. */
  lemma EqualParts(rate: real, d: real, max: real) returns (k: nat, step: real)
    requires rate >= 0.0 && d >= 0.0 && max > 0.0
    ensures step >= 0.0 && Times(k, step) == d
    ensures 0.0 <= Accrued(rate, step) <= max && Times(k, Accrued(rate, step)) == Accrued(rate, d)
  {
    Accrual(rate, d, 0.0);
    var acc := Accrued(rate, d);
    hide Accrued;
    Ratio(acc, max);
    k := (acc / max).Floor + 1;
    step := d / k as real;
    assert acc <= max * k as real by { FloorBound(acc, max, k); }
    Parts(rate, d, max, k, step);
    TimesProduct(k, step);
    TimesProduct(k, Accrued(rate, step));
  }

  lemma Ratio(x: real, y: real)
    requires x >= 0.0 && y > 0.0
    ensures x / y >= 0.0
  {
  }

  lemma FloorBound(x: real, y: real, k: int)
    requires y > 0.0 && k == (x / y).Floor + 1
    ensures x <= y * k as real
  {
    var q := x / y;
    assert q <= k as real;
    assert x == y * q;
    Monotone(y, q, k as real);
  }

  lemma Monotone(y: real, p: real, q: real)
    requires y >= 0.0 && p <= q
    ensures y * p <= y * q
  {
  }

  lemma Parts(rate: real, d: real, max: real, k: nat, step: real)
    requires rate >= 0.0 && d >= 0.0 && k > 0 && step == d / k as real && Accrued(rate, d) <= max * k as real
    ensures step >= 0.0 && k as real * step == d
    ensures 0.0 <= Accrued(rate, step) <= max
    ensures k as real * Accrued(rate, step) == Accrued(rate, d)
  {
    var r := k as real;
    Ratio(d, r);
    Accrual(rate, step, 0.0);
    assert r * step == d;
    assert r * (step * rate) == (r * step) * rate;
    NoMore(r, Accrued(rate, step), max);
  }

  lemma NoMore(r: real, x: real, max: real)
    requires r > 0.0 && r * x <= max * r
    ensures x <= max
  {
  }

  lemma NothingAccrues(rate: real)
    ensures Accrued(rate, 0.0) == 0.0
  {
  }

  /** The bound is reached, for every window: a full bucket is drained as the window
      opens, and what accrues is drained in parts the bucket can hold. */
  lemma WindowDrained(max: real, rate: real, lo: real, hi: real) returns (calls: seq<Call>)
    requires max > 0.0 && rate >= 0.0 && lo <= hi
    ensures Orderly(calls, lo)
    ensures Granted(NewBucket(max, rate, lo), calls, lo, hi) == max + Accrued(rate, hi - lo)
  {
    hide Accrued;
    Accrual(rate, hi - lo, 0.0);
    var k, step := EqualParts(rate, hi - lo, max);
    var n := Accrued(rate, step);
    var b, rest := NewBucket(max, rate, lo), Drains(lo, step, n, k);
    var empty := Taken(b, max, lo);
    assert lo - b.lastRefill == 0.0;
    NothingAccrues(rate);
    assert empty == b.(tokens := 0.0);
    DrainsGranted(empty, step, k, lo, hi);
    calls := [Call(lo, max)] + rest;
    assert calls[1..] == rest;
  }

  /** In numbers: some run reaches the bound, for every window. */
  lemma WindowBoundReached(max: real, rate: real, lo: real, hi: real) returns (calls: seq<Call>)
    requires max > 0.0 && rate >= 0.0 && lo <= hi
    ensures Orderly(calls, lo)
    ensures Granted(NewBucket(max, rate, lo), calls, lo, hi) == max + rate * (hi - lo)
  {
    calls := WindowDrained(max, rate, lo, hi);
    Product(rate, hi - lo);
    hide Accrued;
  }

  lemma {:induction false} NoCapacity(b: Bucket, calls: seq<Call>, lo: real, hi: real)
    requires Solvent(b) && b.maxTokens == 0.0 && Orderly(calls, b.lastRefill)
    ensures Granted(b, calls, lo, hi) <= 0.0
    decreases |calls|
  {
    hide Accrued;
    if calls != [] {
      var c := calls[0];
      TakenSolvent(b, c.n, c.at);
      NoCapacity(Taken(b, c.n, c.at), calls[1..], lo, hi);
    }
  }

  ghost predicate Reaches(calls: seq<Call>, max: real, rate: real, lo: real, hi: real) {
    Orderly(calls, lo) && Granted(NewBucket(max, rate, lo), calls, lo, hi) == max + rate * (hi - lo)
  }

  /** The window bound is the best possible unless the bucket holds nothing at all. */
  lemma WindowBoundTight(max: real, rate: real, lo: real, hi: real)
    requires max >= 0.0 && rate >= 0.0 && lo <= hi
    ensures (exists calls :: Reaches(calls, max, rate, lo, hi)) <==> max > 0.0 || rate * (hi - lo) == 0.0
  {
    hide Accrued;
    Accrual(rate, hi - lo, 0.0);
    Product(rate, hi - lo);
    if max > 0.0 {
      var calls := WindowBoundReached(max, rate, lo, hi);
      assert Reaches(calls, max, rate, lo, hi);
    } else {
      forall calls | Reaches(calls, max, rate, lo, hi) ensures rate * (hi - lo) == 0.0 {
        NoCapacity(NewBucket(max, rate, lo), calls, lo, hi);
      }
      if rate * (hi - lo) == 0.0 {
        assert Granted(NewBucket(max, rate, lo), [], lo, hi) == 0.0;
        assert Reaches([], max, rate, lo, hi);
      }
    }
  }

  // ----- Looking changes nothing ---------------------------------------------------

  datatype Op = Take(at: real, n: real) | Look(at: real)

  function AfterOp(b: Bucket, op: Op): Bucket {
    match op
    case Take(at, n) => Taken(b, n, at)
    case Look(at) => Refilled(b, at)
  }

  /** What the calls of a run return: a decision for each Allow, the level for each
      Available. */
  datatype Answer = Decision(ok: bool) | Level(tokens: real)

  function AnswerTo(b: Bucket, op: Op): Answer {
    match op
    case Take(at, n) => Decision(Grants(b, n, at))
    case Look(at) => Level(Refilled(b, at).tokens)
  }

  function Answers(b: Bucket, ops: seq<Op>): seq<Answer>
    decreases |ops|
  {
    if ops == [] then [] else [AnswerTo(b, ops[0])] + Answers(AfterOp(b, ops[0]), ops[1..])
  }

  function AfterOps(b: Bucket, ops: seq<Op>): Bucket
    decreases |ops|
  {
    if ops == [] then b else AfterOps(AfterOp(b, ops[0]), ops[1..])
  }

  predicate Ordered(ops: seq<Op>, since: real) {
    ops == [] || (since <= ops[0].at && Ordered(ops[1..], ops[0].at))
  }

  /** An Available call, or an Allow that is refused. */
  predicate Idle(b: Bucket, op: Op) {
    op.Take? ==> !Grants(b, op.n, op.at)
  }

  /** Two buckets that no one can tell apart from time `t` on. */
  ghost predicate Alike(a: Bucket, b: Bucket, t: real) {
    Solvent(a) && Solvent(b) && a.lastRefill <= t && b.lastRefill <= t && Refilled(a, t) == Refilled(b, t)
  }

  lemma AlikeLater(a: Bucket, b: Bucket, t: real, u: real)
    requires Alike(a, b, t) && t <= u
    ensures Refilled(a, u) == Refilled(b, u)
  {
    hide Accrued;
    RefillComposes(a, t, u);
    RefillComposes(b, t, u);
  }

  lemma {:induction false} AlikeAnswers(a: Bucket, b: Bucket, t: real, ops: seq<Op>)
    requires Alike(a, b, t) && Ordered(ops, t)
    ensures Answers(a, ops) == Answers(b, ops)
    ensures ops != [] ==> AfterOps(a, ops) == AfterOps(b, ops)
    decreases |ops|
  {
    hide Accrued;
    if ops != [] {
      var op := ops[0];
      AlikeLater(a, b, t, op.at);
      RefillComposes(a, op.at, op.at);
      assert AfterOp(a, op) == AfterOp(b, op);
      assert AnswerTo(a, op) == AnswerTo(b, op);
    }
  }

  lemma IdleIsRefill(b: Bucket, op: Op)
    requires Solvent(b) && b.lastRefill <= op.at && Idle(b, op)
    ensures AfterOp(b, op) == Refilled(b, op.at)
    ensures Alike(AfterOp(b, op), b, op.at)
  {
    hide Accrued;
    RefillComposes(b, op.at, op.at);
  }

  /** An Available call or a refused Allow changes no later answer. */
  lemma IdleChangesNothing(b: Bucket, op: Op, later: seq<Op>)
    requires Solvent(b) && b.lastRefill <= op.at && Idle(b, op) && Ordered(later, op.at)
    ensures Answers(AfterOp(b, op), later) == Answers(b, later)
  {
    hide Accrued;
    IdleIsRefill(b, op);
    AlikeAnswers(AfterOp(b, op), b, op.at, later);
  }

  /** A run with every Available call and every refused Allow taken out. */
  function Effective(b: Bucket, ops: seq<Op>): seq<Op>
    decreases |ops|
  {
    if ops == [] then []
    else (if Idle(b, ops[0]) then [] else [ops[0]]) + Effective(AfterOp(b, ops[0]), ops[1..])
  }

  ghost function End(ops: seq<Op>, since: real): real {
    if ops == [] then since else End(ops[1..], ops[0].at)
  }

  /** Taking the idle calls out of a run leaves only grants, and a bucket no one can
      tell from the original one. */
  lemma {:induction false} EffectiveRun(b: Bucket, c: Bucket, t: real, ops: seq<Op>)
    requires Alike(b, c, t) && b.lastRefill == t && Ordered(ops, t)
    ensures Alike(AfterOps(b, ops), AfterOps(c, Effective(b, ops)), End(ops, t))
    ensures forall a :: a in Answers(c, Effective(b, ops)) ==> a == Decision(true)
    decreases |ops|
  {
    hide Accrued;
    if ops != [] {
      var op := ops[0];
      var b', rest := AfterOp(b, op), Effective(AfterOp(b, op), ops[1..]);
      AlikeLater(b, c, t, op.at);
      RefillComposes(b, op.at, op.at);
      RefillComposes(c, op.at, op.at);
      if Idle(b, op) {
        EffectiveRun(b', c, op.at, ops[1..]);
        assert Effective(b, ops) == rest;
      } else {
        var c' := AfterOp(c, op);
        assert b' == c';
        RefillComposes(b', op.at, op.at);
        EffectiveRun(b', c', op.at, ops[1..]);
        assert Effective(b, ops) == [op] + rest;
        assert ([op] + rest)[1..] == rest;
      }
    }
  }

  // ----- Waiting among others ----------------------------------------------------------

  /** The calls other callers got in up to poll `k`. */
  function OthersUpTo(others: nat -> seq<Call>, k: nat): seq<Call> {
    if k == 0 then others(0) else OthersUpTo(others, k - 1) + others(k)
  }

  /** Others call in the order of the clock, between the polls. */
  ghost predicate Between(since: real, clock: nat -> real, others: nat -> seq<Call>) {
    forall k: nat ::
      && Orderly(others(k), if k == 0 then since else clock(2 * k - 1))
      && forall c :: c in others(k) ==> c.at <= clock(2 * k + 1)
  }

  lemma {:induction false} CallsAppend(b: Bucket, a: seq<Call>, c: seq<Call>)
    ensures AfterCalls(b, a + c) == AfterCalls(AfterCalls(b, a), c)
    decreases |a|
  {
    hide Taken;
    if a == [] {
      assert a + c == c;
    } else {
      assert (a + c)[1..] == a[1..] + c;
      CallsAppend(Taken(b, a[0].n, a[0].at), a[1..], c);
    }
  }

  lemma {:induction false} CallsEnd(b: Bucket, calls: seq<Call>, t: real)
    requires Solvent(b) && b.lastRefill <= t && Orderly(calls, b.lastRefill) && forall c :: c in calls ==> c.at <= t
    ensures Solvent(AfterCalls(b, calls)) && AfterCalls(b, calls).lastRefill <= t
    decreases |calls|
  {
    hide Accrued;
    if calls != [] {
      assert calls[0] in calls;
      TakenSolvent(b, calls[0].n, calls[0].at);
      CallsEnd(Taken(b, calls[0].n, calls[0].at), calls[1..], t);
    }
  }

  /** The same calls on two buckets no one can tell apart. */
  lemma AlikeCalls(a: Bucket, b: Bucket, t: real, calls: seq<Call>, u: real)
    requires Alike(a, b, t) && a.lastRefill == t && Orderly(calls, t) && t <= u && forall c :: c in calls ==> c.at <= u
    ensures Alike(AfterCalls(a, calls), AfterCalls(b, calls), u)
  {
    hide Accrued;
    if calls == [] {
      AlikeLater(a, b, t, u);
    } else {
      var c := calls[0];
      assert c in calls;
      AlikeLater(a, b, t, c.at);
      assert Taken(a, c.n, c.at) == Taken(b, c.n, c.at);
      CallsEnd(a, calls, u);
    }
  }

  /** A refused Wait is invisible: however many other callers come between its polls, the
      bucket cannot be told from one that only they used. */
  lemma {:induction false} RefusedWaitInvisible(
    b: Bucket, n: real, clock: nat -> real, others: nat -> seq<Call>, m: nat)
    requires Solvent(b) && b.lastRefill <= clock(0) && PollClock(clock) && Between(b.lastRefill, clock, others)
    requires forall k: nat :: k <= m ==> !Grants(BeforePoll(b, n, clock, others, k), n, clock(2 * k + 1))
    ensures AfterPoll(b, n, clock, others, m).lastRefill == clock(2 * m + 1)
    ensures Alike(AfterPoll(b, n, clock, others, m), AfterCalls(b, OthersUpTo(others, m)), clock(2 * m + 1))
    decreases m
  {
    hide Accrued, Between;
    ClockGrows(clock, m);
    BetweenAt(b.lastRefill, clock, others, m);
    var now, calls := clock(2 * m + 1), others(m);
    var found := BeforePoll(b, n, clock, others, m);
    if m == 0 {
      CallsEnd(b, calls, now);
    } else {
      var prev := AfterPoll(b, n, clock, others, m - 1);
      ClockGrows(clock, m - 1);
      assert 2 * (m - 1) + 1 == 2 * m - 1;
      RefusedWaitInvisible(b, n, clock, others, m - 1);
      CallsAppend(b, OthersUpTo(others, m - 1), calls);
      AlikeCalls(prev, AfterCalls(b, OthersUpTo(others, m - 1)), clock(2 * m - 1), calls, now);
    }
    hide BeforePoll, AfterCalls, OthersUpTo;
    RefusedPoll(found, n, now, AfterCalls(b, OthersUpTo(others, m)));
  }

  lemma BetweenAt(since: real, clock: nat -> real, others: nat -> seq<Call>, k: nat)
    requires Between(since, clock, others)
    ensures Orderly(others(k), if k == 0 then since else clock(2 * k - 1))
    ensures forall c :: c in others(k) ==> c.at <= clock(2 * k + 1)
  {
    hide Orderly;
  }

  lemma RefusedPoll(found: Bucket, n: real, now: real, other: Bucket)
    requires Alike(found, other, now) && !Grants(found, n, now)
    ensures Taken(found, n, now).lastRefill == now && Alike(Taken(found, n, now), other, now)
  {
    hide Accrued;
    RefillComposes(found, now, now);
  }

  // ----- One key of a limiter ---------------------------------------------------------

  datatype LimiterOp = Allow(key: string, n: real, at: real) | Remove(key: string, at: real)

  function LimiterStep(c: Config, m: Buckets, op: LimiterOp): Buckets {
    match op
    case Allow(k, n, at) => LimiterTaken(c, m, k, n, at)
    case Remove(k, _) => m - {k}
  }

  /** The decisions about `key` in a run of the whole limiter. */
  function DecisionsFor(c: Config, m: Buckets, ops: seq<LimiterOp>, key: string): seq<bool>
    decreases |ops|
  {
    if ops == [] then []
    else
      (if ops[0].Allow? && ops[0].key == key then [LimiterGrants(c, m, key, ops[0].n, ops[0].at)] else [])
      + DecisionsFor(c, LimiterStep(c, m, ops[0]), ops[1..], key)
  }

  function OpsOf(ops: seq<LimiterOp>, key: string): seq<LimiterOp> {
    if ops == [] then [] else (if ops[0].key == key then [ops[0]] else []) + OpsOf(ops[1..], key)
  }

  /** The same key served by one bucket alone, remade after each removal. */
  function Alone(c: Config, b: Option<Bucket>, ops: seq<LimiterOp>): seq<bool>
    decreases |ops|
  {
    if ops == [] then []
    else
      match ops[0]
      case Remove(_, _) => Alone(c, None, ops[1..])
      case Allow(_, n, at) =>
        var bucket := if b.Some? then b.value else NewBucket(c.maxTokens, c.refillRate, at);
        [!c.enabled || Grants(bucket, n, at)]
        + Alone(c, if c.enabled then Some(Taken(bucket, n, at)) else b, ops[1..])
  }

  function Held(m: Buckets, key: string): Option<Bucket> {
    if key in m then Some(m[key]) else None
  }

  /** Keys do not influence each other: the decisions about one key in any run of the
      limiter are those of a single bucket given that key's calls alone. */
  lemma {:induction false} KeysIndependent(c: Config, m: Buckets, ops: seq<LimiterOp>, key: string)
    ensures DecisionsFor(c, m, ops, key) == Alone(c, Held(m, key), OpsOf(ops, key))
    decreases |ops|
  {
    hide Accrued;
    if ops != [] {
      var op := ops[0];
      KeysIndependent(c, LimiterStep(c, m, op), ops[1..], key);
      if op.key != key {
        assert Held(LimiterStep(c, m, op), key) == Held(m, key);
        assert OpsOf(ops, key) == OpsOf(ops[1..], key);
      } else {
        assert OpsOf(ops, key) == [op] + OpsOf(ops[1..], key);
        assert OpsOf(ops, key)[1..] == OpsOf(ops[1..], key);
      }
    }
  }

  // ----- The rate of one key -------------------------------------------------------------

  predicate InOrder(ops: seq<LimiterOp>, since: real) {
    ops == [] || (since <= ops[0].at && InOrder(ops[1..], ops[0].at))
  }

  /** The tokens granted to `key` between `lo` and `hi` in a run of the limiter. */
  function GrantedTo(c: Config, m: Buckets, ops: seq<LimiterOp>, key: string, lo: real, hi: real): real
    decreases |ops|
  {
    if ops == [] then 0.0
    else
      var op := ops[0];
      (if op.Allow? && op.key == key && lo <= op.at <= hi && LimiterGrants(c, m, key, op.n, op.at) then op.n else 0.0)
      + GrantedTo(c, LimiterStep(c, m, op), ops[1..], key, lo, hi)
  }

  /** How often `key` is removed between `lo` and `hi`. */
  function Removals(ops: seq<LimiterOp>, key: string, lo: real, hi: real): nat {
    if ops == [] then 0
    else
      (if ops[0].Remove? && ops[0].key == key && lo <= ops[0].at <= hi then 1 else 0)
      + Removals(ops[1..], key, lo, hi)
  }

  /** A bucket the limiter could have made by time `t`. */
  ghost predicate Fits(c: Config, b: Option<Bucket>, t: real) {
    b.Some? ==>
      && Solvent(b.value) && b.value.lastRefill <= t
      && b.value.maxTokens == c.maxTokens && b.value.refillRate == c.refillRate
  }

  ghost predicate Sane(c: Config) {
    c.enabled && c.maxTokens >= 0.0 && c.refillRate >= 0.0
  }

  /** What `key` could still be granted until `hi` if it were never removed. */
  function Credit(c: Config, b: Option<Bucket>, t: real, hi: real): real {
    match b
    case Some(bucket) => bucket.tokens + Accrued(c.refillRate, hi - bucket.lastRefill)
    case None => c.maxTokens + Accrued(c.refillRate, hi - t)
  }

  /** Everything one call of the limiter does to the bucket of `key`. */
  lemma LimiterStepFor(c: Config, m: Buckets, op: LimiterOp, key: string, t: real)
    requires Sane(c) && Fits(c, Held(m, key), t) && t <= op.at
    ensures Fits(c, Held(LimiterStep(c, m, op), key), op.at)
    ensures op.key != key ==> Held(LimiterStep(c, m, op), key) == Held(m, key)
    ensures op == Remove(key, op.at) ==> Held(LimiterStep(c, m, op), key) == None
  {
    hide Accrued;
    if op.Allow? && op.key == key {
      TakenSolvent(BucketFor(c, m, key, op.at), op.n, op.at);
    }
  }

  /** What the limiter grants `key` in one call inside the window comes out of its credit,
      which then is at most what a full bucket would have. */
  lemma CallForKey(c: Config, m: Buckets, op: LimiterOp, key: string, t: real, hi: real)
    requires Sane(c) && Fits(c, Held(m, key), t) && op.Allow? && op.key == key && t <= op.at <= hi
    ensures var cost := if LimiterGrants(c, m, key, op.n, op.at) then op.n else 0.0;
            var left := cost + Credit(c, Held(LimiterStep(c, m, op), key), op.at, hi);
            left <= Credit(c, Held(m, key), t, hi) && left <= c.maxTokens + Accrued(c.refillRate, hi - op.at)
  {
    hide Accrued;
    var b := BucketFor(c, m, key, op.at);
    CallBudget(b, Call(op.at, op.n), hi);
    MoreAccrues(c.refillRate, hi - op.at, hi - t);
  }

  lemma {:induction false} NothingGrantedAfter(
    c: Config, m: Buckets, ops: seq<LimiterOp>, key: string, t: real, lo: real, hi: real)
    requires InOrder(ops, t) && hi < t
    ensures GrantedTo(c, m, ops, key, lo, hi) == 0.0 && Removals(ops, key, lo, hi) == 0
    decreases |ops|
  {
    hide Accrued;
    if ops != [] {
      NothingGrantedAfter(c, LimiterStep(c, m, ops[0]), ops[1..], key, ops[0].at, lo, hi);
    }
  }

  lemma CreditNonNegative(c: Config, b: Option<Bucket>, t: real, hi: real)
    requires Sane(c) && Fits(c, b, t) && t <= hi
    ensures Credit(c, b, t, hi) >= 0.0 && Credit(c, b, t, hi) >= Accrued(c.refillRate, hi - t)
  {
    hide Accrued;
    Accrual(c.refillRate, hi - t, 0.0);
    if b.Some? {
      MoreAccrues(c.refillRate, hi - t, hi - b.value.lastRefill);
    }
  }

  /** Inside the window: what is still granted to the key is at most its credit, and
      another bucketful for each removal. */
  lemma {:induction false} KeyGrantedFromHere(
    c: Config, m: Buckets, ops: seq<LimiterOp>, key: string, t: real, lo: real, hi: real)
    requires Sane(c) && Fits(c, Held(m, key), t) && InOrder(ops, t) && lo <= t <= hi
    ensures GrantedTo(c, m, ops, key, lo, hi)
            <= Credit(c, Held(m, key), t, hi) + Times(Removals(ops, key, lo, hi), c.maxTokens)
    decreases |ops|
  {
    hide Accrued;
    CreditNonNegative(c, Held(m, key), t, hi);
    if ops != [] {
      var op := ops[0];
      var next := LimiterStep(c, m, op);
      LimiterStepFor(c, m, op, key, t);
      if op.at > hi {
        TimesGrows(Removals(ops, key, lo, hi), c.maxTokens);
        NothingGrantedAfter(c, next, ops[1..], key, op.at, lo, hi);
      } else {
        KeyGrantedFromHere(c, next, ops[1..], key, op.at, lo, hi);
        MoreAccrues(c.refillRate, hi - op.at, hi - t);
        if op.key == key && op.Allow? {
          CallForKey(c, m, op, key, t, hi);
        }
      }
    } else {
      TimesGrows(0, c.maxTokens);
    }
  }

  /** Over any run of the limiter and any window of time, the tokens granted to one key
      are at most a bucketful, another for each time the key is removed within the
      window, and what the rate yields over the window's length. */
  lemma {:induction false} KeyWindowAccrual(
    c: Config, m: Buckets, ops: seq<LimiterOp>, key: string, t: real, lo: real, hi: real)
    requires Sane(c) && Fits(c, Held(m, key), t) && InOrder(ops, t) && lo <= hi
    ensures GrantedTo(c, m, ops, key, lo, hi)
            <= c.maxTokens + Times(Removals(ops, key, lo, hi), c.maxTokens) + Accrued(c.refillRate, hi - lo)
    decreases |ops|
  {
    hide Accrued;
    Accrual(c.refillRate, hi - lo, 0.0);
    TimesGrows(Removals(ops, key, lo, hi), c.maxTokens);
    if ops != [] {
      var op := ops[0];
      var next := LimiterStep(c, m, op);
      LimiterStepFor(c, m, op, key, t);
      if op.at > hi {
        NothingGrantedAfter(c, next, ops[1..], key, op.at, lo, hi);
      } else if op.at < lo || op.key != key {
        KeyWindowAccrual(c, next, ops[1..], key, op.at, lo, hi);
      } else {
        KeyGrantedFromHere(c, next, ops[1..], key, op.at, lo, hi);
        MoreAccrues(c.refillRate, hi - op.at, hi - lo);
        if op.Allow? {
          CallForKey(c, m, op, key, t, hi);
        }
      }
    }
  }

  /** In numbers, for a limiter in any state it can be in. */
  lemma {:induction false} KeyWindowBound(
    c: Config, m: Buckets, ops: seq<LimiterOp>, key: string, t: real, lo: real, hi: real)
    requires Sane(c) && Fits(c, Held(m, key), t) && InOrder(ops, t) && lo <= hi
    ensures GrantedTo(c, m, ops, key, lo, hi)
            <= Allowance(1 + Removals(ops, key, lo, hi), c.maxTokens, c.refillRate, hi - lo)
  {
    hide Accrued, Times, Allowance;
    KeyWindowAccrual(c, m, ops, key, t, lo, hi);
    InNumbers(
      GrantedTo(c, m, ops, key, lo, hi), Removals(ops, key, lo, hi), c.maxTokens, c.refillRate, hi - lo);
  }

  /** `k` bucketfuls, and what the rate yields in `d` seconds. */
  function Allowance(k: nat, max: real, rate: real, d: real): real {
    k as real * max + rate * d
  }

  lemma InNumbers(granted: real, k: nat, max: real, rate: real, d: real)
    requires granted <= max + Times(k, max) + Accrued(rate, d)
    ensures granted <= Allowance(1 + k, max, rate, d)
  {
    TimesProduct(1 + k, max);
  }

  /** The bound for a new limiter, by the number of removals of the key in the window. */
  lemma KeyRate(c: Config, ops: seq<LimiterOp>, key: string, since: real, lo: real, hi: real)
    returns (removals: nat)
    requires Sane(c) && InOrder(ops, since) && lo <= hi
    ensures removals == Removals(ops, key, lo, hi)
    ensures GrantedTo(c, map[], ops, key, lo, hi)
            <= (1 + removals) as real * c.maxTokens + c.refillRate * (hi - lo)
  {
    NewFits(c, key, since);
    hide *;
    KeyWindowBound(c, map[], ops, key, since, lo, hi);
    removals := Removals(ops, key, lo, hi);
    Spelled(GrantedTo(c, map[], ops, key, lo, hi), removals, c.maxTokens, c.refillRate, lo, hi);
  }

  lemma Spelled(granted: real, removals: nat, max: real, rate: real, lo: real, hi: real)
    requires granted <= Allowance(1 + removals, max, rate, hi - lo)
    ensures granted <= (1 + removals) as real * max + rate * (hi - lo)
  {
  }

  lemma NewFits(c: Config, key: string, since: real)
    requires Sane(c)
    ensures Fits(c, Held(map[], key), since)
  {
  }

  /** Removals do hand out fresh buckets: removing the key after each full drain grants a
      bucketful every time, with no time passing. */
  function RemoveAndDrain(key: string, n: real, at: real, k: nat): seq<LimiterOp> {
    if k == 0 then [] else [Remove(key, at), Allow(key, n, at)] + RemoveAndDrain(key, n, at, k - 1)
  }

  lemma {:induction false} RemovalsRefill(c: Config, m: Buckets, key: string, at: real, k: nat)
    requires Sane(c)
    ensures var ops := RemoveAndDrain(key, c.maxTokens, at, k);
            && InOrder(ops, at) && Removals(ops, key, at, at) == k
            && GrantedTo(c, m, ops, key, at, at) == Times(k, c.maxTokens)
    decreases k
  {
    hide Accrued;
    if k > 0 {
      var rest := RemoveAndDrain(key, c.maxTokens, at, k - 1);
      var remove, drain := Remove(key, at), Allow(key, c.maxTokens, at);
      var ops := RemoveAndDrain(key, c.maxTokens, at, k);
      var m1 := LimiterStep(c, m, remove);
      var m2 := LimiterStep(c, m1, drain);
      assert ops[1..] == [drain] + rest && ops[1..][1..] == rest;
      RemovalsRefill(c, m2, key, at, k - 1);
      Accrual(c.refillRate, 0.0, 0.0);
      assert Refilled(NewBucket(c.maxTokens, c.refillRate, at), at).tokens == c.maxTokens by {
        assert at - at == 0.0;
        NothingAccrues(c.refillRate);
      }
      assert LimiterGrants(c, m1, key, c.maxTokens, at);
      assert GrantedTo(c, m1, ops[1..], key, at, at) == c.maxTokens + GrantedTo(c, m2, rest, key, at, at);
    }
  }
}
