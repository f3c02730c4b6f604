/**
 The token bucket of backend/app/scraping/rate_limiter.py.

 `asyncio.Lock` lets one `acquire` run at a time, so a history of the limiter is a list of
 calls, each entering the lock no earlier than the previous call was granted. The two clock
 effects the code cannot control are inputs of a call: when it reads the clock, and by how
 much `asyncio.sleep` overshoots the requested wait.
 */
module TokenBucket {

  datatype Bucket = Bucket(tokens: real, lastTime: real)

  datatype Call = Call(entry: real, oversleep: real)

  datatype Limits = Limits(rate: real, burst: nat)

  function Min(x: real, y: real): real {
    if x <= y then x else y
  }

  // The tokens that accrue in `dt` seconds.
  function Accrued(l: Limits, dt: real): real {
    dt * l.rate
  }

  // The tokens in the bucket once the time since the last stamp has been credited.
  function Refilled(l: Limits, b: Bucket, now: real): real {
    Min(l.burst as real, b.tokens + Accrued(l, now - b.lastTime))
  }

  predicate Sleeps(l: Limits, b: Bucket, c: Call) {
    Refilled(l, b, c.entry) < 1.0
  }

  function GrantTime(l: Limits, b: Bucket, c: Call): real
    requires l.rate > 0.0
  {
    if Sleeps(l, b, c) then c.entry + (1.0 - Refilled(l, b, c.entry)) / l.rate + c.oversleep else c.entry
  }

  // The stamp is the entry time even when the call sleeps, so slept time is credited again.
  function Acquired(l: Limits, b: Bucket, c: Call): Bucket {
    Bucket(if Sleeps(l, b, c) then 0.0 else Refilled(l, b, c.entry) - 1.0, c.entry)
  }

  class TokenBucketLimiter {
    const limits: Limits
    var tokens: real
    var lastTime: real

    ghost predicate Valid()
      reads this
    {
      limits.rate > 0.0 && 0.0 <= tokens <= limits.burst as real
    }

    function State(): Bucket
      reads this
    {
      Bucket(tokens, lastTime)
    }

    constructor (rate: real, burst: nat, now: real)
      requires rate > 0.0
      ensures Valid() && limits == Limits(rate, burst)
      ensures State() == Bucket(burst as real, now)
    {
      limits := Limits(rate, burst);
      tokens := burst as real;
      lastTime := now;
    }

    /** One call while the lock is held; `grant` is the time at which the caller goes on. */
    method Acquire(now: real, oversleep: real) returns (grant: real)
      requires Valid() && lastTime <= now && 0.0 <= oversleep
      modifies this`tokens, this`lastTime
      ensures Valid() && lastTime == now
      ensures State() == Acquired(limits, old(State()), Call(now, oversleep))
      ensures grant == GrantTime(limits, old(State()), Call(now, oversleep)) >= now
    {
      var elapsed := now - lastTime;
      AccruedMonotone(limits, 0.0, elapsed);
      tokens := Min(limits.burst as real, tokens + elapsed * limits.rate);
      lastTime := now;
      if tokens < 1.0 {
        var wait := (1.0 - tokens) / limits.rate;
        grant := now + wait + oversleep;
        tokens := 0.0;
      } else {
        grant := now;
        tokens := tokens - 1.0;
      }
    }
  }

  // ----- Histories of lock-serialised calls -----

  ghost predicate Ready(l: Limits, b: Bucket) {
    l.rate > 0.0 && 0.0 <= b.tokens <= l.burst as real
  }

  /** Calls that enter the lock one after the other, the first at or after `from`. */
  ghost predicate Serialised(l: Limits, b: Bucket, from: real, calls: seq<Call>)
    requires l.rate > 0.0
    decreases |calls|
  {
    calls == [] ||
    (&& b.lastTime <= from <= calls[0].entry
     && 0.0 <= calls[0].oversleep
     && Serialised(l, Acquired(l, b, calls[0]), GrantTime(l, b, calls[0]), calls[1..]))
  }

  ghost function FinalBucket(l: Limits, b: Bucket, calls: seq<Call>): Bucket
    decreases |calls|
  {
    if calls == [] then b else FinalBucket(l, Acquired(l, b, calls[0]), calls[1..])
  }

  // The time of the last grant, or `from` when there is none.
  ghost function LastGrant(l: Limits, b: Bucket, from: real, calls: seq<Call>): real
    requires l.rate > 0.0
    decreases |calls|
  {
    if calls == [] then from
    else LastGrant(l, Acquired(l, b, calls[0]), GrantTime(l, b, calls[0]), calls[1..])
  }

  // The time the calls spend asleep, all together.
  ghost function Slept(l: Limits, b: Bucket, calls: seq<Call>): real
    requires l.rate > 0.0
    decreases |calls|
  {
    if calls == [] then 0.0
    else GrantTime(l, b, calls[0]) - calls[0].entry + Slept(l, Acquired(l, b, calls[0]), calls[1..])
  }

  lemma AccruedAdds(l: Limits, x: real, y: real)
    ensures Accrued(l, x + y) == Accrued(l, x) + Accrued(l, y)
    ensures Accrued(l, 0.0) == 0.0
  {
  }

  lemma AccruedInPeriods(l: Limits, k: real)
    requires l.rate > 0.0
    ensures Accrued(l, k / l.rate) == k
    ensures k > 0.0 ==> k / l.rate > 0.0
  {
  }

  lemma AccruedMonotone(l: Limits, x: real, y: real)
    requires l.rate > 0.0 && x <= y
    ensures Accrued(l, x) <= Accrued(l, y)
  {
  }

  // What the bucket holds at time `at`, uncapped: its tokens and the time it has not credited yet.
  ghost function Credit(l: Limits, b: Bucket, at: real): real {
    b.tokens + Accrued(l, at - b.lastTime)
  }

  lemma AcquireStep(l: Limits, b: Bucket, from: real, c: Call)
    requires Ready(l, b) && b.lastTime <= from <= c.entry && 0.0 <= c.oversleep
    ensures Ready(l, Acquired(l, b, c))
    ensures GrantTime(l, b, c) >= c.entry
    ensures 1.0 + Credit(l, Acquired(l, b, c), GrantTime(l, b, c))
         <= Credit(l, b, from) + Accrued(l, GrantTime(l, b, c) - from) + Accrued(l, GrantTime(l, b, c) - c.entry)
  {
    hide Accrued;
    var t, g := Refilled(l, b, c.entry), GrantTime(l, b, c);
    AccruedAdds(l, from - b.lastTime, c.entry - from);
    AccruedMonotone(l, 0.0, c.entry - b.lastTime);
    AccruedAdds(l, g - c.entry, c.entry - from);
    if Sleeps(l, b, c) {
      AccruedInPeriods(l, 1.0 - t);
      AccruedAdds(l, (1.0 - t) / l.rate, c.oversleep);
      AccruedMonotone(l, 0.0, c.oversleep);
    }
  }

  /** Every reachable bucket holds between zero and `burst` tokens. */
  lemma {:induction false} TokensStayInRange(l: Limits, b: Bucket, from: real, calls: seq<Call>)
    requires Ready(l, b) && Serialised(l, b, from, calls)
    ensures Ready(l, FinalBucket(l, b, calls))
    ensures calls != [] ==> FinalBucket(l, b, calls).lastTime == calls[|calls| - 1].entry
    decreases |calls|
  {
    if calls != [] {
      AcquireStep(l, b, from, calls[0]);
      TokensStayInRange(l, Acquired(l, b, calls[0]), GrantTime(l, b, calls[0]), calls[1..]);
    }
  }

  lemma {:induction false} SleptWithinElapsed(l: Limits, b: Bucket, from: real, calls: seq<Call>)
    requires Ready(l, b) && Serialised(l, b, from, calls) && b.lastTime <= from
    ensures from <= LastGrant(l, b, from, calls)
    ensures 0.0 <= Slept(l, b, calls) <= LastGrant(l, b, from, calls) - from
    decreases |calls|
  {
    if calls != [] {
      AcquireStep(l, b, from, calls[0]);
      SleptWithinElapsed(l, Acquired(l, b, calls[0]), GrantTime(l, b, calls[0]), calls[1..]);
    }
  }

  /** The potential argument: grants plus what is left never exceed the credit, slept time counted twice. */
  lemma {:induction false} GrantsWithinCredit(l: Limits, b: Bucket, from: real, calls: seq<Call>)
    requires Ready(l, b) && Serialised(l, b, from, calls) && b.lastTime <= from
    ensures var end := LastGrant(l, b, from, calls);
      |calls| as real + Credit(l, FinalBucket(l, b, calls), end)
        <= Credit(l, b, from) + Accrued(l, end - from) + Accrued(l, Slept(l, b, calls))
    decreases |calls|
  {
    hide Accrued;
    if calls == [] {
      AccruedAdds(l, 0.0, 0.0);
    } else {
      var c := calls[0];
      var b', g := Acquired(l, b, c), GrantTime(l, b, c);
      AcquireStep(l, b, from, c);
      GrantsWithinCredit(l, b', g, calls[1..]);
      AccruedAdds(l, LastGrant(l, b, from, calls) - g, g - from);
      AccruedAdds(l, g - c.entry, Slept(l, b', calls[1..]));
    }
  }

  // The credit is capped when the first call enters, whatever the bucket was before.
  lemma FirstEntryCapsCredit(l: Limits, b: Bucket, from: real, calls: seq<Call>)
    requires Ready(l, b) && calls != [] && Serialised(l, b, from, calls)
    ensures var e := calls[0].entry;
      var full := Bucket(Refilled(l, b, e), e);
      && Ready(l, full) && Credit(l, full, e) <= l.burst as real
      && Serialised(l, full, e, calls)
      && FinalBucket(l, full, calls) == FinalBucket(l, b, calls)
      && LastGrant(l, full, e, calls) == LastGrant(l, b, from, calls)
      && Slept(l, full, calls) == Slept(l, b, calls)
  {
    var e := calls[0].entry;
    var full := Bucket(Refilled(l, b, e), e);
    hide Accrued;
    AccruedAdds(l, 0.0, 0.0);
    AccruedMonotone(l, 0.0, e - b.lastTime);
    assert e - full.lastTime == 0.0;
    assert Refilled(l, full, e) == Refilled(l, b, e);
    assert Acquired(l, full, calls[0]) == Acquired(l, b, calls[0]);
  }

  /**
   The grants of any history, from the first entry to the last grant, with the time asleep as the
   only excess over `burst + rate * time`.
   */
  lemma SleptTimeIsTheOnlyExcess(l: Limits, b: Bucket, from: real, calls: seq<Call>)
    requires Ready(l, b) && calls != [] && Serialised(l, b, from, calls)
    ensures 0.0 <= Slept(l, b, calls) <= LastGrant(l, b, from, calls) - calls[0].entry
    ensures var end := LastGrant(l, b, from, calls);
      |calls| as real + Accrued(l, end - calls[|calls| - 1].entry)
        <= l.burst as real + Accrued(l, end - calls[0].entry) + Accrued(l, Slept(l, b, calls))
  {
    hide Accrued;
    FirstEntryCapsCredit(l, b, from, calls);
    TokensStayInRange(l, b, from, calls);
    var e := calls[0].entry;
    var full := Bucket(Refilled(l, b, e), e);
    GrantsWithinCredit(l, full, e, calls);
    SleptWithinElapsed(l, full, e, calls);
  }

  /** The rate the bucket really keeps: n grants take at least (n - burst) / (2 * rate) seconds. */
  lemma RateBound(l: Limits, b: Bucket, from: real, calls: seq<Call>)
    requires Ready(l, b) && calls != [] && Serialised(l, b, from, calls)
    ensures |calls| as real
         <= l.burst as real + 2.0 * Accrued(l, LastGrant(l, b, from, calls) - calls[0].entry)
  {
    hide Accrued;
    var e, end := calls[0].entry, LastGrant(l, b, from, calls);
    SleptTimeIsTheOnlyExcess(l, b, from, calls);
    LastGrantAfterEntry(l, b, from, calls);
    AccruedAdds(l, 0.0, 0.0);
    AccruedMonotone(l, 0.0, end - calls[|calls| - 1].entry);
    AccruedMonotone(l, Slept(l, b, calls), end - e);
  }

  lemma {:induction false} LastGrantAfterEntry(l: Limits, b: Bucket, from: real, calls: seq<Call>)
    requires Ready(l, b) && calls != [] && Serialised(l, b, from, calls)
    ensures LastGrant(l, b, from, calls) >= calls[|calls| - 1].entry
    decreases |calls|
  {
    AcquireStep(l, b, from, calls[0]);
    if |calls| > 1 {
      LastGrantAfterEntry(l, Acquired(l, b, calls[0]), GrantTime(l, b, calls[0]), calls[1..]);
    }
  }

  // ----- The bound one would expect, and when it holds -----

  // No call but possibly the last one sleeps.
  ghost predicate OnlyLastSleeps(l: Limits, b: Bucket, calls: seq<Call>)
    decreases |calls|
  {
    |calls| <= 1 || (!Sleeps(l, b, calls[0]) && OnlyLastSleeps(l, Acquired(l, b, calls[0]), calls[1..]))
  }

  lemma {:induction false} OnlyLastSleepsSlept(l: Limits, b: Bucket, from: real, calls: seq<Call>)
    requires l.rate > 0.0 && calls != [] && OnlyLastSleeps(l, b, calls)
    ensures Slept(l, b, calls) == LastGrant(l, b, from, calls) - calls[|calls| - 1].entry
    decreases |calls|
  {
    if |calls| > 1 {
      OnlyLastSleepsSlept(l, Acquired(l, b, calls[0]), GrantTime(l, b, calls[0]), calls[1..]);
    }
  }

  /** As long as no call before the last one sleeps, the bucket keeps `burst + rate * time`. */
  lemma NominalBoundWithoutEarlySleep(l: Limits, b: Bucket, from: real, calls: seq<Call>)
    requires Ready(l, b) && calls != [] && Serialised(l, b, from, calls) && OnlyLastSleeps(l, b, calls)
    ensures |calls| as real
         <= l.burst as real + Accrued(l, LastGrant(l, b, from, calls) - calls[0].entry)
  {
    hide Accrued;
    SleptTimeIsTheOnlyExcess(l, b, from, calls);
    OnlyLastSleepsSlept(l, b, from, calls);
  }

  /** `n` callers that queue up at once, each entering as soon as the previous one is granted. */
  ghost function Saturated(l: Limits, b: Bucket, at: real, n: nat): (calls: seq<Call>)
    requires l.rate > 0.0
    ensures |calls| == n
    decreases n
  {
    if n == 0 then []
    else [Call(at, 0.0)] + Saturated(l, Acquired(l, b, Call(at, 0.0)), GrantTime(l, b, Call(at, 0.0)), n - 1)
  }

  lemma {:induction false} SaturatedIsSerialised(l: Limits, b: Bucket, at: real, n: nat)
    requires Ready(l, b) && b.lastTime <= at
    ensures Serialised(l, b, at, Saturated(l, b, at, n))
    decreases n
  {
    if n > 0 {
      var c := Call(at, 0.0);
      AcquireStep(l, b, at, c);
      SaturatedIsSerialised(l, Acquired(l, b, c), GrantTime(l, b, c), n - 1);
    }
  }

  // A bucket of m whole tokens serves m callers at once; then callers leave in pairs, one pair per 1/rate.
  lemma {:induction false} SaturatedGrants(l: Limits, m: nat, at: real, n: nat)
    requires l.rate > 0.0 && 1 <= l.burst && m <= l.burst
    ensures var b := Bucket(m as real, at);
      LastGrant(l, b, at, Saturated(l, b, at, n))
        == at + (if n <= m then 0.0 else ((n - m + 1) / 2) as real / l.rate)
    decreases n
  {
    var b := Bucket(m as real, at);
    var c := Call(at, 0.0);
    if n == 0 {
    } else if m > 0 {
      assert Acquired(l, b, c) == Bucket((m - 1) as real, at);
      SaturatedGrants(l, m - 1, at, n - 1);
    } else {
      SleepingCallRefillsOne(l, at);
      var g := at + 1.0 / l.rate;
      var b' := Bucket(0.0, at);
      assert Acquired(l, b, c) == b' && GrantTime(l, b, c) == g;
      if n > 1 {
        assert Acquired(l, b', Call(g, 0.0)) == Bucket(0.0, g) && GrantTime(l, b', Call(g, 0.0)) == g;
        assert Saturated(l, b, at, n)[1..] == Saturated(l, b', g, n - 1);
        assert Saturated(l, b', g, n - 1)[1..] == Saturated(l, Bucket(0.0, g), g, n - 2);
        SaturatedGrants(l, 0, g, n - 2);
        PairsTakeOnePeriod(l, n);
      } else {
        assert Saturated(l, b, at, n)[1..] == [];
      }
    }
  }

  lemma PairsTakeOnePeriod(l: Limits, n: nat)
    requires l.rate > 0.0 && n >= 2
    ensures 1.0 / l.rate + (if n == 2 then 0.0 else ((n - 1) / 2) as real / l.rate)
         == ((n + 1) / 2) as real / l.rate
  {
    assert (n + 1) / 2 == (n - 1) / 2 + 1;
  }

  lemma SleepingCallRefillsOne(l: Limits, at: real)
    requires l.rate > 0.0 && 1 <= l.burst
    ensures var g := at + 1.0 / l.rate;
      && GrantTime(l, Bucket(0.0, at), Call(at, 0.0)) == g
      && Refilled(l, Bucket(0.0, at), g) == 1.0
  {
    hide Accrued;
    var g := at + 1.0 / l.rate;
    AccruedAdds(l, 0.0, 0.0);
    AccruedInPeriods(l, 1.0);
    assert g - at == 1.0 / l.rate && at - at == 0.0;
  }

  /**
   The factor 2 cannot be improved: on every limiter, for every k, burst + 2k callers that queue up on a
   full bucket are all served within k / rate seconds.
   */
  lemma RateBoundIsAttained(l: Limits, at: real, k: nat)
    requires l.rate > 0.0 && 1 <= l.burst
    ensures var b := Bucket(l.burst as real, at);
      var calls := Saturated(l, b, at, l.burst + 2 * k);
      && Serialised(l, b, at, calls) && calls[0].entry == at
      && |calls| as real == l.burst as real + 2.0 * Accrued(l, LastGrant(l, b, at, calls) - at)
  {
    var b := Bucket(l.burst as real, at);
    SaturatedIsSerialised(l, b, at, l.burst + 2 * k);
    SaturatedGrants(l, l.burst, at, l.burst + 2 * k);
    assert (l.burst + 2 * k - l.burst + 1) / 2 == k;
    AccruedInPeriods(l, k as real);
    hide Accrued;
  }

  /** On callers that queue up on a full bucket, `burst + rate * time` holds for burst + 1 grants and fails from then on. */
  lemma NominalBoundWhenSaturated(l: Limits, at: real, n: nat)
    requires l.rate > 0.0 && 1 <= l.burst
    ensures var b := Bucket(l.burst as real, at);
      var end := LastGrant(l, b, at, Saturated(l, b, at, n));
      n as real <= l.burst as real + Accrued(l, end - at) <==> n <= l.burst + 1
  {
    hide Accrued;
    SaturatedGrants(l, l.burst, at, n);
    AccruedAdds(l, 0.0, 0.0);
    if n > l.burst {
      AccruedInPeriods(l, ((n - l.burst + 1) / 2) as real);
    }
  }

  ghost predicate KeepsNominalBound(l: Limits, b: Bucket, from: real, calls: seq<Call>)
    requires l.rate > 0.0 && calls != []
  {
    |calls| as real <= l.burst as real + Accrued(l, LastGrant(l, b, from, calls) - calls[0].entry)
  }

  // A call that sleeps leaves an empty bucket stamped with its entry, so the next grant is a period after that.
  lemma GrantAfterSleeper(l: Limits, b: Bucket, c: Call, d: Call)
    requires Ready(l, b) && Sleeps(l, b, c)
    requires GrantTime(l, b, c) <= d.entry && 0.0 <= d.oversleep
    ensures Accrued(l, GrantTime(l, Acquired(l, b, c), d) - c.entry) >= 1.0
  {
    hide Accrued;
    var slept := Acquired(l, b, c);
    if Sleeps(l, slept, d) {
      var missing := 1.0 - Refilled(l, slept, d.entry);
      AccruedInPeriods(l, missing);
      AccruedAdds(l, d.entry - c.entry, missing / l.rate + d.oversleep);
      AccruedAdds(l, missing / l.rate, d.oversleep);
      AccruedAdds(l, 0.0, 0.0);
      AccruedMonotone(l, 0.0, d.oversleep);
    }
  }

  lemma {:induction false} EarlySleepTakesAPeriod(l: Limits, b: Bucket, from: real, calls: seq<Call>)
    requires Ready(l, b) && calls != [] && Serialised(l, b, from, calls) && !OnlyLastSleeps(l, b, calls)
    ensures Accrued(l, LastGrant(l, b, from, calls) - calls[0].entry) >= 1.0
    decreases |calls|
  {
    hide Accrued;
    var c, d := calls[0], calls[1];
    var b', g := Acquired(l, b, c), GrantTime(l, b, c);
    AcquireStep(l, b, from, c);
    if Sleeps(l, b, c) {
      GrantAfterSleeper(l, b, c, d);
      AcquireStep(l, b', g, d);
      SleptWithinElapsed(l, Acquired(l, b', d), GrantTime(l, b', d), calls[1..][1..]);
      AccruedMonotone(l, GrantTime(l, b', d) - c.entry, LastGrant(l, b, from, calls) - c.entry);
    } else {
      EarlySleepTakesAPeriod(l, b', g, calls[1..]);
      AccruedMonotone(l, LastGrant(l, b, from, calls) - d.entry, LastGrant(l, b, from, calls) - c.entry);
    }
  }

  // Up to burst + 1 grants keep the bound, whatever the bucket was and whoever sleeps.
  lemma FewGrantsKeepNominalBound(l: Limits, b: Bucket, from: real, calls: seq<Call>)
    requires Ready(l, b) && 1 <= |calls| <= l.burst + 1 && Serialised(l, b, from, calls)
    ensures KeepsNominalBound(l, b, from, calls)
  {
    if OnlyLastSleeps(l, b, calls) {
      NominalBoundWithoutEarlySleep(l, b, from, calls);
    } else {
      EarlySleepTakesAPeriod(l, b, from, calls);
    }
  }

  // Without a burst the bucket is always empty, and every call waits for a period of its own.
  lemma {:induction false} NoBurstKeepsNominalBound(l: Limits, b: Bucket, from: real, calls: seq<Call>)
    requires Ready(l, b) && l.burst == 0 && calls != [] && Serialised(l, b, from, calls)
    ensures KeepsNominalBound(l, b, from, calls)
    decreases |calls|
  {
    hide Accrued;
    var c := calls[0];
    var b', g := Acquired(l, b, c), GrantTime(l, b, c);
    AcquireStep(l, b, from, c);
    AccruedAdds(l, 0.0, 0.0);
    AccruedMonotone(l, 0.0, c.entry - b.lastTime);
    AccruedInPeriods(l, 1.0);
    AccruedMonotone(l, 1.0 / l.rate, g - c.entry);
    if |calls| > 1 {
      NoBurstKeepsNominalBound(l, b', g, calls[1..]);
      var end := LastGrant(l, b, from, calls);
      AccruedMonotone(l, end - calls[1].entry, end - g);
      AccruedAdds(l, end - g, g - c.entry);
    }
  }

  ghost predicate AllKeepNominalBound(l: Limits, n: nat)
    requires l.rate > 0.0 && n >= 1
  {
    forall b, from, calls |
      |calls| == n && Ready(l, b) && Serialised(l, b, from, calls) :: KeepsNominalBound(l, b, from, calls)
  }

  /**
   When `burst + rate * time` is kept: every history of n grants keeps it if and only if n is at most burst + 1, or
   there is no burst at all.
   */
  lemma NominalBoundIff(l: Limits, n: nat)
    requires l.rate > 0.0 && n >= 1
    ensures AllKeepNominalBound(l, n) <==> n <= l.burst + 1 || l.burst == 0
  {
    if n <= l.burst + 1 || l.burst == 0 {
      forall b, from, calls | |calls| == n && Ready(l, b) && Serialised(l, b, from, calls)
        ensures KeepsNominalBound(l, b, from, calls)
      {
        if l.burst == 0 {
          NoBurstKeepsNominalBound(l, b, from, calls);
        } else {
          FewGrantsKeepNominalBound(l, b, from, calls);
        }
      }
    } else {
      var b := Bucket(l.burst as real, 0.0);
      SaturatedIsSerialised(l, b, 0.0, n);
      NominalBoundWhenSaturated(l, 0.0, n);
      assert !KeepsNominalBound(l, b, 0.0, Saturated(l, b, 0.0, n));
    }
  }
}
