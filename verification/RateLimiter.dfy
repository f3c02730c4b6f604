/**
 The combined limiter of backend/app/scraping/rate_limiter.py: a bucket of burst one, a breaker, and
 the retry loop around a call `fn`. What the world does during one attempt is an input: how long `fn`
 takes, how it ends, and how much the two sleeps overshoot. The caller is alone on its limiter.
 */
module RateLimiter {
  import opened Wrappers
  import opened TokenBucket
  import B = CircuitBreaker

  datatype RatePolicy = RatePolicy(
    rps: real, backoffBase: real, maxRetries: int, circuitThreshold: int, circuitCooldown: real)

  datatype Outcome = Returned | RaisedCircuitOpen | Raised(error: string)

  datatype Attempt = Attempt(oversleep: real, callTime: real, outcome: Outcome, backoffOversleep: real)

  datatype Ending = Value | CircuitOpenError | Failure(error: string) | NothingCaptured

  datatype Loop = Loop(attempt: nat, clock: real, backoff: real, lastError: Option<string>,
                       bucket: Bucket, breaker: B.Fields)

  datatype Report = Report(ending: Ending, calls: nat, final: Loop)

  function Pow2(n: nat): nat {
    if n == 0 then 1 else 2 * Pow2(n - 1)
  }

  function Limit(p: RatePolicy): Limits {
    Limits(p.rps, 1)
  }

  function Breaker(p: RatePolicy): B.Settings {
    B.Settings(p.circuitThreshold, p.circuitCooldown)
  }

  function Backoff(p: RatePolicy, attempt: nat): real {
    p.backoffBase * Pow2(attempt) as real
  }

  predicate Plausible(p: RatePolicy, world: seq<Attempt>) {
    && p.rps > 0.0 && p.backoffBase >= 0.0
    && p.maxRetries < |world|
    && forall w :: w in world ==> w.oversleep >= 0.0 && w.callTime >= 0.0 && w.backoffOversleep >= 0.0
  }

  // What the retry loop does from the top of an iteration on.
  function Retry(p: RatePolicy, world: seq<Attempt>, s: Loop): Report
    requires Plausible(p, world)
    decreases p.maxRetries + 1 - s.attempt
  {
    if s.attempt > p.maxRetries then
      Report(if s.lastError.Some? then Failure(s.lastError.value) else NothingCaptured, s.attempt, s)
    else
      if !B.Permits(Breaker(p), s.breaker, s.clock) then
        Report(CircuitOpenError, s.attempt, s)
      else
        var w := world[s.attempt];
        var done := Called(p, w, s);
        match w.outcome
        case Returned =>
          Report(Value, s.attempt + 1,
                 done.(breaker := B.After(Breaker(p), done.breaker, B.RecordSuccess(done.clock))))
        case RaisedCircuitOpen =>
          Report(CircuitOpenError, s.attempt + 1, done)
        case Raised(error) =>
          Retry(p, world, Failed(p, w, done, error))
  }

  // One permitted call: the breaker is asked, a token is acquired, and `fn` takes its time.
  function Called(p: RatePolicy, w: Attempt, s: Loop): Loop
    requires p.rps > 0.0
  {
    var c := Call(s.clock, w.oversleep);
    s.(breaker := B.After(Breaker(p), s.breaker, B.CanExecute(s.clock)),
       bucket := Acquired(Limit(p), s.bucket, c),
       clock := GrantTime(Limit(p), s.bucket, c) + w.callTime)
  }

  // A failed call is reported to the breaker and followed by a back-off, unless it was the last one.
  function Failed(p: RatePolicy, w: Attempt, s: Loop, error: string): Loop {
    var reported := s.(lastError := Some(error), attempt := s.attempt + 1,
                       breaker := B.After(Breaker(p), s.breaker, B.RecordFailure(s.clock)));
    if s.attempt < p.maxRetries then
      reported.(clock := s.clock + Backoff(p, s.attempt) + w.backoffOversleep,
                backoff := s.backoff + Backoff(p, s.attempt))
    else
      reported
  }

  lemma BackoffIsNonNegative(p: RatePolicy, attempt: nat)
    requires p.backoffBase >= 0.0
    ensures Backoff(p, attempt) >= 0.0
  {
  }

  class RateLimiter {
    const policy: RatePolicy
    const bucket: TokenBucketLimiter
    const breaker: B.CircuitBreaker

    ghost predicate Valid()
      reads this, bucket
    {
      bucket.Valid() && bucket.limits == Limit(policy) && breaker.settings == Breaker(policy)
    }

    constructor (policy: RatePolicy, now: real)
      requires policy.rps > 0.0
      ensures Valid() && this.policy == policy && fresh(bucket) && fresh(breaker)
      ensures bucket.State() == Bucket(1.0, now) && breaker.Values() == B.FRESH
    {
      this.policy := policy;
      bucket := new TokenBucketLimiter(policy.rps, 1, now);
      breaker := new B.CircuitBreaker(policy.circuitThreshold, policy.circuitCooldown);
    }

    ghost function At(attempt: nat, clock: real, backoff: real, lastError: Option<string>): Loop
      reads this, bucket, breaker
    {
      Loop(attempt, clock, backoff, lastError, bucket.State(), breaker.Values())
    }

    /** `with_retry`: how it ends, how often `fn` was called and how long the planned back-offs were. */
    method WithRetry(world: seq<Attempt>, start: real)
        returns (ending: Ending, calls: nat, backoff: real, clock: real)
      requires Valid() && Plausible(policy, world) && bucket.lastTime <= start
      modifies bucket, breaker
      ensures Valid()
      ensures var r := Retry(policy, world, old(At(0, start, 0.0, None)));
        && ending == r.ending && calls == r.calls
        && backoff == r.final.backoff && clock == r.final.clock
        && bucket.State() == r.final.bucket && breaker.Values() == r.final.breaker
    {
      hide Acquired, GrantTime, Backoff;
      var attempt := 0;
      var lastError := None;
      clock, backoff := start, 0.0;
      while attempt < policy.maxRetries + 1
        invariant Valid() && bucket.lastTime <= clock
        invariant 0 <= attempt && (attempt > 0 ==> attempt <= policy.maxRetries + 1)
        invariant Retry(policy, world, At(attempt, clock, backoff, lastError))
               == Retry(policy, world, old(At(0, start, 0.0, None)))
      {
        var w := world[attempt];
        assert w in world;
        var permitted := breaker.CanExecute(clock);
        if !permitted {
          return CircuitOpenError, attempt, backoff, clock;
        }
        var grant := bucket.Acquire(clock, w.oversleep);
        clock := grant + w.callTime;
        if w.outcome.Returned? {
          breaker.RecordSuccess(clock);
          return Value, attempt + 1, backoff, clock;
        }
        if w.outcome.RaisedCircuitOpen? {
          return CircuitOpenError, attempt + 1, backoff, clock;
        }
        lastError := Some(w.outcome.error);
        breaker.RecordFailure(clock);
        if attempt < policy.maxRetries {
          var wait := Backoff(policy, attempt);
          BackoffIsNonNegative(policy, attempt);
          clock := clock + wait + w.backoffOversleep;
          backoff := backoff + wait;
        }
        attempt := attempt + 1;
      }
      ending := if lastError.None? then NothingCaptured else Failure(lastError.value);
      calls := attempt;
    }
  }

  // ----- What the loop promises -----

  /** The loop goes on past failures only, and its ending says how the last call went. */
  lemma {:induction false} EndingTellsTheLastCall(p: RatePolicy, world: seq<Attempt>, s: Loop)
    requires Plausible(p, world)
    requires s.lastError == None <==> s.attempt == 0
    requires s.lastError.Some? ==> s.attempt <= |world| && world[s.attempt - 1].outcome == Raised(s.lastError.value)
    ensures var r := Retry(p, world, s);
      && s.attempt <= r.calls && (r.calls > s.attempt ==> r.calls <= p.maxRetries + 1)
      && (forall i :: s.attempt <= i < r.calls - 1 ==> world[i].outcome.Raised?)
      && (r.ending == Value <==> r.calls > s.attempt && world[r.calls - 1].outcome == Returned)
      && (r.ending == Value ==> r.final.breaker.state == B.Closed && r.final.breaker.failureCount == 0)
      && (r.ending.Failure? ==> r.calls > p.maxRetries && world[r.calls - 1].outcome == Raised(r.ending.error))
      && (r.ending == NothingCaptured <==> r.calls == 0 && p.maxRetries < 0)
    decreases p.maxRetries + 1 - s.attempt
  {
    if s.attempt <= p.maxRetries && B.Permits(Breaker(p), s.breaker, s.clock)
       && world[s.attempt].outcome.Raised? {
      var w := world[s.attempt];
      EndingTellsTheLastCall(p, world, Failed(p, w, Called(p, w, s), w.outcome.error));
    }
  }

  ghost predicate AlwaysFails(world: seq<Attempt>) {
    forall w :: w in world ==> w.outcome.Raised?
  }

  // The calls left until the breaker opens, or until the attempts run out.
  ghost function CallsLeft(p: RatePolicy, s: Loop): int {
    var attempts, failures := p.maxRetries + 1 - s.attempt, p.circuitThreshold - s.breaker.failureCount;
    if attempts <= failures then attempts else failures
  }

  ghost predicate BelowThreshold(p: RatePolicy, s: Loop) {
    s.breaker.state == B.Closed && s.breaker.failureCount < p.circuitThreshold
  }

  // The back-off that follows the call opening the breaker ends before the cooldown does.
  ghost predicate CutOff(p: RatePolicy, world: seq<Attempt>, s: Loop)
    requires Plausible(p, world)
    requires 0 <= p.circuitThreshold - s.breaker.failureCount - 1 + s.attempt < |world|
  {
    var last := s.attempt + (p.circuitThreshold - s.breaker.failureCount - 1);
    Backoff(p, last) + world[last].backoffOversleep < p.circuitCooldown
  }

  lemma BackoffsAdd(p: RatePolicy, from: nat, to: nat)
    requires from < to
    ensures Backoff(p, from) + (Backoff(p, to) - Backoff(p, from + 1)) == Backoff(p, to) - Backoff(p, from)
  {
    assert Pow2(from + 1) == 2 * Pow2(from);
    assert Backoff(p, from + 1) == 2.0 * Backoff(p, from);
  }

  lemma {:induction false} CallsNeverShrink(p: RatePolicy, world: seq<Attempt>, s: Loop)
    requires Plausible(p, world)
    ensures Retry(p, world, s).calls >= s.attempt
    ensures s.attempt <= p.maxRetries && B.Permits(Breaker(p), s.breaker, s.clock) ==>
      Retry(p, world, s).calls > s.attempt
    decreases p.maxRetries + 1 - s.attempt
  {
    if s.attempt <= p.maxRetries && B.Permits(Breaker(p), s.breaker, s.clock)
       && world[s.attempt].outcome.Raised? {
      var w := world[s.attempt];
      CallsNeverShrink(p, world, Failed(p, w, Called(p, w, s), w.outcome.error));
    }
  }

  /**
   A call that always fails, started on a closed breaker: `fn` is called until the attempts run out, or
   until the breaker opens if the back-off then ends before the cooldown. The back-offs double.
   */
  lemma {:induction false} FailingCallsFrom(p: RatePolicy, world: seq<Attempt>, s: Loop)
    requires Plausible(p, world) && AlwaysFails(world) && BelowThreshold(p, s) && s.attempt <= p.maxRetries
    ensures var failures := p.circuitThreshold - s.breaker.failureCount;
      failures > p.maxRetries - s.attempt || CutOff(p, world, s) ==>
        var r, n := Retry(p, world, s), CallsLeft(p, s);
        && r.calls == s.attempt + n
        && r.final.breaker.failureCount == s.breaker.failureCount + n
        && r.ending == (if failures <= p.maxRetries - s.attempt then CircuitOpenError
                        else Failure(world[p.maxRetries].outcome.error))
        && r.final.backoff == s.backoff + Backoff(p, if r.calls <= p.maxRetries then r.calls else p.maxRetries)
                                        - Backoff(p, s.attempt)
    ensures var failures := p.circuitThreshold - s.breaker.failureCount;
      failures <= p.maxRetries - s.attempt && !CutOff(p, world, s) ==>
        Retry(p, world, s).calls > s.attempt + failures
    decreases p.maxRetries + 1 - s.attempt
  {
    var w := world[s.attempt];
    assert w in world;
    var next := Failed(p, w, Called(p, w, s), w.outcome.error);
    assert Retry(p, world, s) == Retry(p, world, next);
    if s.attempt < p.maxRetries {
      if next.breaker.failureCount < p.circuitThreshold {
        FailingCallsFrom(p, world, next);
        BackoffsAdd(p, s.attempt, p.maxRetries);
        BackoffsAdd(p, s.attempt, s.attempt + CallsLeft(p, s));
      } else {
        BackoffsAdd(p, s.attempt, s.attempt + 1);
        if !CutOff(p, world, s) {
          CallsNeverShrink(p, world, next);
        }
      }
    }
  }

  /**
   `with_retry` on a call that always fails, with `f` failures already counted: it makes exactly
   min(maxRetries + 1, threshold - f) calls if and only if the attempts run out first or the back-off after
   the opening failure ends before the cooldown.
   */
  lemma FailingCallsExactly(p: RatePolicy, world: seq<Attempt>, s: Loop)
    requires Plausible(p, world) && AlwaysFails(world) && BelowThreshold(p, s) && s.attempt == 0 <= p.maxRetries
    ensures Retry(p, world, s).calls == CallsLeft(p, s) <==>
      (p.circuitThreshold - s.breaker.failureCount > p.maxRetries || CutOff(p, world, s))
  {
    FailingCallsFrom(p, world, s);
  }

  /** When all attempts are used, the planned back-offs add up to base * (2^maxRetries - 1). */
  lemma ExhaustedBackoff(p: RatePolicy, world: seq<Attempt>, s: Loop)
    requires Plausible(p, world) && AlwaysFails(world) && BelowThreshold(p, s) && s.attempt == 0 <= p.maxRetries
    requires p.circuitThreshold - s.breaker.failureCount > p.maxRetries && s.backoff == 0.0
    ensures var r := Retry(p, world, s);
      && r.ending == Failure(world[p.maxRetries].outcome.error)
      && r.final.backoff == p.backoffBase * (Pow2(p.maxRetries) - 1) as real
  {
    hide Backoff, Pow2, Retry;
    FailingCallsFrom(p, world, s);
    BackoffFromZero(p, p.maxRetries);
  }

  lemma BackoffFromZero(p: RatePolicy, n: nat)
    ensures Backoff(p, n) - Backoff(p, 0) == p.backoffBase * (Pow2(n) - 1) as real
  {
    assert (Pow2(n) - 1) as real == Pow2(n) as real - 1.0;
  }

  // ----- The loop and its bucket -----

  // The calls of `acquire` that the loop makes from the top of an iteration on.
  ghost function Acquires(p: RatePolicy, world: seq<Attempt>, s: Loop): seq<Call>
    requires Plausible(p, world)
    decreases p.maxRetries + 1 - s.attempt
  {
    if s.attempt > p.maxRetries || !B.Permits(Breaker(p), s.breaker, s.clock) then []
    else
      var w := world[s.attempt];
      [Call(s.clock, w.oversleep)]
      + if w.outcome.Raised? then Acquires(p, world, Failed(p, w, Called(p, w, s), w.outcome.error)) else []
  }

  /**
   Every call made takes a token first: the loop's acquisitions are as many as its calls, follow each other on the
   bucket, leave it as the loop does, and are all granted by the time the loop ends.
   */
  lemma {:induction false} EveryCallTakesAToken(p: RatePolicy, world: seq<Attempt>, s: Loop)
    requires Plausible(p, world) && Ready(Limit(p), s.bucket) && s.bucket.lastTime <= s.clock
    ensures var r, acquires := Retry(p, world, s), Acquires(p, world, s);
      && |acquires| == r.calls - s.attempt
      && Serialised(Limit(p), s.bucket, s.clock, acquires)
      && FinalBucket(Limit(p), s.bucket, acquires) == r.final.bucket
      && LastGrant(Limit(p), s.bucket, s.clock, acquires) <= r.final.clock
      && (acquires != [] ==> acquires[0].entry == s.clock)
    decreases p.maxRetries + 1 - s.attempt
  {
    hide Accrued;
    if s.attempt <= p.maxRetries && B.Permits(Breaker(p), s.breaker, s.clock) {
      var w := world[s.attempt];
      assert w in world;
      var c := Call(s.clock, w.oversleep);
      var acquires := Acquires(p, world, s);
      AcquireStep(Limit(p), s.bucket, s.clock, c);
      assert acquires[0] == c;
      if w.outcome.Raised? {
        var next := Failed(p, w, Called(p, w, s), w.outcome.error);
        BackoffIsNonNegative(p, s.attempt);
        EveryCallTakesAToken(p, world, next);
        EarlierStart(Limit(p), next.bucket, GrantTime(Limit(p), s.bucket, c), next.clock, Acquires(p, world, next));
        assert acquires[1..] == Acquires(p, world, next);
      } else {
        assert acquires[1..] == [];
      }
    }
  }

  // Serialised calls do not mind an earlier start.
  lemma EarlierStart(l: Limits, b: Bucket, from: real, later: real, calls: seq<Call>)
    requires l.rate > 0.0 && b.lastTime <= from <= later && Serialised(l, b, later, calls)
    ensures Serialised(l, b, from, calls)
    ensures calls != [] ==> LastGrant(l, b, from, calls) == LastGrant(l, b, later, calls)
  {
  }

  /** So the calls of a loop keep the rate that the bucket keeps, back-offs or not. */
  lemma CallsKeepTheRate(p: RatePolicy, world: seq<Attempt>, s: Loop)
    requires Plausible(p, world) && Ready(Limit(p), s.bucket) && s.bucket.lastTime <= s.clock
    ensures var r := Retry(p, world, s);
      r.calls > s.attempt ==>
        (r.calls - s.attempt) as real <= 1.0 + 2.0 * Accrued(Limit(p), r.final.clock - s.clock)
  {
    hide Accrued, Retry, Acquires;
    var r, acquires := Retry(p, world, s), Acquires(p, world, s);
    EveryCallTakesAToken(p, world, s);
    if acquires != [] {
      RateBound(Limit(p), s.bucket, s.clock, acquires);
      AccruedMonotone(Limit(p), LastGrant(Limit(p), s.bucket, s.clock, acquires) - s.clock, r.final.clock - s.clock);
    }
  }
}
