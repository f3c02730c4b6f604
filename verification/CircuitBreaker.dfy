/**
 The circuit breaker of backend/app/scraping/rate_limiter.py.

 The breaker keeps three fields. The main result is that, for a threshold of at least one and a
 clock that does not go back, its three-state machine gives exactly the permissions of a rule that
 looks only at what was reported: how many failures since the last success, and when the latest was.
 */
module CircuitBreaker {
  import opened Wrappers

  datatype State = Closed | Open | HalfOpen

  datatype Settings = Settings(failureThreshold: int, recoveryTimeout: real)

  datatype Fields = Fields(failureCount: int, lastFailureTime: Option<real>, state: State)

  const FRESH := Fields(0, None, Closed)

  datatype Event =
    | CanExecute(now: real)
    | RecordSuccess(now: real)
    | RecordFailure(now: real)

  predicate Permits(cfg: Settings, f: Fields, now: real) {
    match f.state
    case Closed => true
    case Open => f.lastFailureTime.Some? && now - f.lastFailureTime.value >= cfg.recoveryTimeout
    case HalfOpen => true
  }

  function After(cfg: Settings, f: Fields, e: Event): Fields {
    match e
    case CanExecute(now) =>
      if f.state.Open? && Permits(cfg, f, now) then f.(state := HalfOpen) else f
    case RecordSuccess(_) =>
      f.(failureCount := 0, state := Closed)
    case RecordFailure(now) =>
      Fields(f.failureCount + 1, Some(now),
             if f.failureCount + 1 >= cfg.failureThreshold then Open else f.state)
  }

  class CircuitBreaker {
    const settings: Settings
    var failureCount: int
    var lastFailureTime: Option<real>
    var state: State

    function Values(): Fields
      reads this
    {
      Fields(failureCount, lastFailureTime, state)
    }

    constructor (failureThreshold: int, recoveryTimeout: real)
      ensures settings == Settings(failureThreshold, recoveryTimeout) && Values() == FRESH
    {
      settings := Settings(failureThreshold, recoveryTimeout);
      failureCount := 0;
      lastFailureTime := None;
      state := Closed;
    }

    method CanExecute(now: real) returns (permitted: bool)
      modifies this`state
      ensures permitted == Permits(settings, old(Values()), now)
      ensures Values() == After(settings, old(Values()), Event.CanExecute(now))
    {
      if state == Closed {
        return true;
      }
      if state == Open {
        if lastFailureTime.Some? && now - lastFailureTime.value >= settings.recoveryTimeout {
          state := HalfOpen;
          return true;
        }
        return false;
      }
      return true;
    }

    method RecordSuccess(now: real)
      modifies this`failureCount, this`state
      ensures Values() == After(settings, old(Values()), Event.RecordSuccess(now))
    {
      failureCount := 0;
      state := Closed;
    }

    method RecordFailure(now: real)
      modifies this
      ensures Values() == After(settings, old(Values()), Event.RecordFailure(now))
    {
      failureCount := failureCount + 1;
      lastFailureTime := Some(now);
      if failureCount >= settings.failureThreshold {
        state := Open;
      }
    }
  }

  // ----- Runs: any mix of callers, in the order the events reach the breaker -----

  ghost function Run(cfg: Settings, events: seq<Event>): Fields {
    if events == [] then FRESH
    else After(cfg, Run(cfg, events[..|events| - 1]), events[|events| - 1])
  }

  // The clock of the process does not go back.
  ghost predicate Timed(events: seq<Event>) {
    forall i, j :: 0 <= i < j < |events| ==> events[i].now <= events[j].now
  }

  // What the callers reported: the failures since the last success, and when the latest failure came.
  ghost function FailuresSinceSuccess(events: seq<Event>): nat {
    if events == [] then 0
    else
      var before := FailuresSinceSuccess(events[..|events| - 1]);
      match events[|events| - 1]
      case CanExecute(_) => before
      case RecordSuccess(_) => 0
      case RecordFailure(_) => before + 1
  }

  ghost function LatestFailure(events: seq<Event>): Option<real> {
    if events == [] then None
    else if events[|events| - 1].RecordFailure? then Some(events[|events| - 1].now)
    else LatestFailure(events[..|events| - 1])
  }

  lemma {:induction false} LatestFailureIsOneOfTheEvents(events: seq<Event>)
    ensures LatestFailure(events).None? ==> FailuresSinceSuccess(events) == 0
    ensures LatestFailure(events).Some? ==>
      exists i :: 0 <= i < |events| && events[i] == RecordFailure(LatestFailure(events).value)
    ensures forall i :: 0 <= i < |events| && events[i].RecordFailure? ==> LatestFailure(events).Some?
  {
    if events != [] {
      var before := events[..|events| - 1];
      LatestFailureIsOneOfTheEvents(before);
      assert forall i :: 0 <= i < |before| ==> events[i] == before[i];
      if events[|events| - 1].RecordFailure? {
        assert events[|events| - 1] == RecordFailure(LatestFailure(events).value);
      }
    }
  }

  /** After every run: the counter and stamp are the reported ones, and closed means below the threshold. */
  lemma {:induction false} StateReflectsReports(cfg: Settings, events: seq<Event>)
    requires cfg.failureThreshold >= 1 && Timed(events)
    ensures var f := Run(cfg, events);
      && f.failureCount == FailuresSinceSuccess(events)
      && f.lastFailureTime == LatestFailure(events)
      && (f.state == Closed <==> FailuresSinceSuccess(events) < cfg.failureThreshold)
      && (f.state == HalfOpen ==>
            && LatestFailure(events).Some? && events != []
            && events[|events| - 1].now - LatestFailure(events).value >= cfg.recoveryTimeout)
  {
    if events != [] {
      var before := events[..|events| - 1];
      StateReflectsReports(cfg, before);
      if before != [] {
        assert before[|before| - 1] == events[|events| - 2];
      }
    }
  }

  /** The rule: too few failures since the last success, or long enough since the latest one. */
  ghost predicate AllowedByReports(cfg: Settings, events: seq<Event>, now: real) {
    || FailuresSinceSuccess(events) < cfg.failureThreshold
    || (LatestFailure(events).Some? && now - LatestFailure(events).value >= cfg.recoveryTimeout)
  }

  /** Every permission of every run is decided by the reports alone. */
  lemma PermissionRule(cfg: Settings, events: seq<Event>, now: real)
    requires cfg.failureThreshold >= 1 && Timed(events + [CanExecute(now)])
    ensures Permits(cfg, Run(cfg, events), now) <==> AllowedByReports(cfg, events, now)
  {
    var longer := events + [CanExecute(now)];
    assert forall i :: 0 <= i < |events| ==> events[i] == longer[i];
    StateReflectsReports(cfg, events);
    if events != [] {
      assert longer[|events| - 1].now <= longer[|events|].now;
    }
  }

  ghost predicate RuleDecides(cfg: Settings, events: seq<Event>, now: real) {
    Timed(events + [CanExecute(now)]) ==>
      (Permits(cfg, Run(cfg, events), now) <==> AllowedByReports(cfg, events, now))
  }

  /** The rule decides every run exactly when the threshold is at least one: below, the fresh breaker permits. */
  lemma RuleDecidesIffThresholdPositive(cfg: Settings)
    ensures (forall events, now :: RuleDecides(cfg, events, now)) <==> cfg.failureThreshold >= 1
  {
    if cfg.failureThreshold >= 1 {
      forall events: seq<Event>, now | Timed(events + [CanExecute(now)])
        ensures RuleDecides(cfg, events, now)
      {
        PermissionRule(cfg, events, now);
      }
    } else {
      assert !RuleDecides(cfg, [], 0.0);
    }
  }
}
