/**
 The lifecycle of a queued job: backend/app/runtime/job_lifecycle.py.

 The queue calls `run_with_lifecycle` once for each try, and again after a `Retry` as long as it allows another try;
 after that it abandons the job. How the job's own callback ends at each try is an input.
 */
module JobLifecycle {
  import opened Wrappers
  import W = WorkerMetrics
  import RateLimiter

  datatype Outcome = Returns | AsksForRetry(delay: int) | Raises

  datatype Ending = Completed | Retry(delay: int) | Failed

  const FIRST_DELAY := 30
  const MAX_DELAY := 300

  function RetryDelaySeconds(jobTry: int): int {
    var delay := FIRST_DELAY * RateLimiter.Pow2(if jobTry > 1 then jobTry - 1 else 0);
    if delay < MAX_DELAY then delay else MAX_DELAY
  }

  // A job that is not registered has no number of tries.
  predicate IsRetryable(maxTries: Option<int>) {
    maxTries.Some? && maxTries.value > 1
  }

  predicate SchedulesRetry(maxTries: Option<int>, jobTry: nat) {
    IsRetryable(maxTries) && jobTry < maxTries.value
  }

  function EndingOf(maxTries: Option<int>, jobTry: nat, outcome: Outcome): Ending {
    match outcome
    case Returns => Completed
    case AsksForRetry(delay) => Retry(delay)
    case Raises => if SchedulesRetry(maxTries, jobTry) then Retry(RetryDelaySeconds(jobTry)) else Failed
  }

  function CountersOf(maxTries: Option<int>, jobTry: nat, outcome: Outcome): seq<W.Counter> {
    match EndingOf(maxTries, jobTry, outcome)
    case Completed => [W.JobCompleted]
    case Retry(_) => [W.RetryScheduled]
    case Failed => [W.JobFailed] + if IsRetryable(maxTries) then [W.RetryExhausted] else []
  }

  ghost function AllIncremented(h: W.Hash, counters: seq<W.Counter>): W.Hash
    decreases |counters|
  {
    if counters == [] then h else AllIncremented(W.Incremented(h, counters[0]), counters[1..])
  }

  lemma IncrementedTwice(h: W.Hash, x: W.Counter, y: W.Counter)
    ensures AllIncremented(h, [x]) == W.Incremented(h, x)
    ensures AllIncremented(h, [x] + [y]) == W.Incremented(W.Incremented(h, x), y)
  {
    hide W.Incremented;
    assert [x][1..] == [] && ([x] + [y])[1..] == [y];
    assert AllIncremented(W.Incremented(h, x), [y]) == W.Incremented(W.Incremented(h, x), y);
  }

  /** `run_with_lifecycle`; an ending other than `Completed` is an exception raised to the queue. */
  method RunWithLifecycle(metrics: W.RoleMetrics, maxTries: Option<int>, jobTry: nat, outcome: Outcome)
      returns (ending: Ending)
    modifies metrics
    ensures ending == EndingOf(maxTries, jobTry, outcome)
    ensures metrics.hash == AllIncremented(old(metrics.hash), CountersOf(maxTries, jobTry, outcome))
  {
    hide W.Incremented, AllIncremented, RetryDelaySeconds;
    IncrementedTwice(metrics.hash, W.JobCompleted, W.RetryExhausted);
    IncrementedTwice(metrics.hash, W.RetryScheduled, W.RetryExhausted);
    IncrementedTwice(metrics.hash, W.JobFailed, W.RetryExhausted);
    assert [W.JobFailed] + [] == [W.JobFailed];
    match outcome
    case Returns =>
      var _ := metrics.Increment(W.JobCompleted);
      ending := Completed;
    case AsksForRetry(delay) =>
      var _ := metrics.Increment(W.RetryScheduled);
      ending := Retry(delay);
    case Raises =>
      if SchedulesRetry(maxTries, jobTry) {
        var _ := metrics.Increment(W.RetryScheduled);
        return Retry(RetryDelaySeconds(jobTry));
      }
      var _ := metrics.Increment(W.JobFailed);
      if IsRetryable(maxTries) {
        var _ := metrics.Increment(W.RetryExhausted);
      }
      ending := Failed;
  }

  function CountOf(counters: seq<W.Counter>, c: W.Counter): nat {
    if counters == [] then 0 else (if counters[0] == c then 1 else 0) + CountOf(counters[1..], c)
  }

  lemma {:induction false} EachIncrementCounts(h: W.Hash, counters: seq<W.Counter>, c: W.Counter)
    ensures W.Read(AllIncremented(h, counters), c) == W.Read(h, c) + CountOf(counters, c)
    decreases |counters|
  {
    if counters != [] {
      EachIncrementCounts(W.Incremented(h, counters[0]), counters[1..], c);
    }
  }

  // ----- The delays -----

  lemma {:induction false} PowersGrow(n: nat, m: nat)
    requires n <= m
    ensures 1 <= RateLimiter.Pow2(n) <= RateLimiter.Pow2(m)
    decreases m
  {
    if n < m {
      PowersGrow(n, m - 1);
    } else if m > 0 {
      PowersGrow(m - 1, m - 1);
    }
  }

  /** Delays start at 30 seconds, never shrink, and reach their cap of 300 seconds at the fifth try. */
  lemma DelaysGrow(first: int, later: int)
    requires first <= later
    ensures 30 <= RetryDelaySeconds(first) <= RetryDelaySeconds(later) <= 300
    ensures RetryDelaySeconds(first) == 300 <==> first >= 5
  {
    var a, b := if first > 1 then first - 1 else 0, if later > 1 then later - 1 else 0;
    PowersGrow(0, a);
    PowersGrow(a, b);
    assert RateLimiter.Pow2(3) == 8 && RateLimiter.Pow2(4) == 16;
    if a >= 4 {
      PowersGrow(4, a);
    } else {
      PowersGrow(a, 3);
    }
  }

  // ----- The life of a job -----

  // What becomes of a job from a try on: how many tries it still gets, what they count, and how it ends.
  datatype Fate = JobDone | JobFailed | Abandoned

  datatype Life = Life(tries: nat, counters: seq<W.Counter>, fate: Fate)

  ghost function LifeFrom(maxTries: Option<int>, allowed: nat, outcomes: nat -> Outcome, jobTry: nat): Life
    decreases allowed + 1 - jobTry
  {
    if jobTry > allowed then Life(0, [], Abandoned)
    else
      var counters := CountersOf(maxTries, jobTry, outcomes(jobTry));
      match EndingOf(maxTries, jobTry, outcomes(jobTry))
      case Completed => Life(1, counters, JobDone)
      case Failed => Life(1, counters, JobFailed)
      case Retry(_) =>
        var rest := LifeFrom(maxTries, allowed, outcomes, jobTry + 1);
        Life(1 + rest.tries, counters + rest.counters, rest.fate)
  }

  lemma CountsOfOneMore(x: W.Counter, rest: seq<W.Counter>)
    ensures forall c :: CountOf([], c) == 0
    ensures forall c :: CountOf([x] + rest, c) == (if x == c then 1 else 0) + CountOf(rest, c)
    ensures rest == [] ==> [x] + rest == [x]
  {
    assert ([x] + rest)[1..] == rest;
  }

  /**
   A registered job, from any try on. It is tried until the first try that returns, or else until its last; it is
   counted as completed or as failed once, unless its last try itself asked for another; every try but the settling
   one is counted as a retry; and exhaustion is counted exactly when a job with more than one try fails.
   */
  lemma {:induction false} LifeOfARegisteredJob(maxTries: nat, outcomes: nat -> Outcome, jobTry: nat)
    requires 1 <= jobTry <= maxTries
    ensures
      var life := LifeFrom(Some(maxTries), maxTries, outcomes, jobTry);
      var last := jobTry + life.tries - 1;
      && 1 <= life.tries && last <= maxTries
      && (forall t :: jobTry <= t < last ==> !outcomes(t).Returns?)
      && (outcomes(last).Returns? || last == maxTries)
      && life.fate == (if outcomes(last).Returns? then JobDone else if outcomes(last).Raises? then JobFailed else Abandoned)
      && CountOf(life.counters, W.JobCompleted) == (if life.fate == JobDone then 1 else 0)
      && CountOf(life.counters, W.JobFailed) == (if life.fate == JobFailed then 1 else 0)
      && CountOf(life.counters, W.RetryScheduled) == life.tries - (if life.fate == Abandoned then 0 else 1)
      && CountOf(life.counters, W.RetryExhausted) == (if life.fate == JobFailed && maxTries > 1 then 1 else 0)
    decreases maxTries - jobTry
  {
    hide RetryDelaySeconds, CountOf;
    CountsOfOneMore(W.RetryExhausted, []);
    CountsOfOneMore(W.JobCompleted, []);
    CountsOfOneMore(W.JobFailed, []);
    CountsOfOneMore(W.JobFailed, [W.RetryExhausted]);
    if EndingOf(Some(maxTries), jobTry, outcomes(jobTry)).Retry? {
      var rest := LifeFrom(Some(maxTries), maxTries, outcomes, jobTry + 1);
      CountsOfOneMore(W.RetryScheduled, rest.counters);
      if jobTry < maxTries {
        LifeOfARegisteredJob(maxTries, outcomes, jobTry + 1);
      }
    }
  }

  /** The delays of the first tries, and of all later ones. */
  lemma DelaysAre(jobTry: int)
    ensures RetryDelaySeconds(jobTry) ==
      if jobTry <= 1 then 30 else if jobTry == 2 then 60 else if jobTry == 3 then 120 else if jobTry == 4 then 240 else 300
  {
    assert RateLimiter.Pow2(0) == 1 && RateLimiter.Pow2(1) == 2 && RateLimiter.Pow2(2) == 4 && RateLimiter.Pow2(3) == 8;
    DelaysGrow(if jobTry < 5 then jobTry else 5, if jobTry < 5 then 5 else jobTry);
  }

  /** A try that raises is retried, after the delay of its number, exactly while the job has tries left. */
  lemma RaisingIsRetriedWhileTriesAreLeft(maxTries: Option<int>, jobTry: nat)
    requires jobTry >= 1
    ensures EndingOf(maxTries, jobTry, Raises) ==
      if maxTries.Some? && jobTry < maxTries.value then Retry(RetryDelaySeconds(jobTry)) else Failed
    ensures CountersOf(maxTries, jobTry, Raises) ==
      if maxTries.Some? && jobTry < maxTries.value then [W.RetryScheduled]
      else if maxTries.Some? && maxTries.value > 1 then [W.JobFailed, W.RetryExhausted]
      else [W.JobFailed]
  {
    hide RetryDelaySeconds;
  }
}
