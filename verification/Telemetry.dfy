/**
 The queue telemetry of backend/app/runtime/telemetry.py: a hash with the last known levels of every scope,
 and a stream of the transitions published between them. The names and depths that travel along with a
 transition are left out, and so is the trimming of the stream.
 */
module Telemetry {
  import opened Wrappers
  import opened QueueState
  import opened SchedulerHealth

  // What is watched: all queues together, or one of them.
  datatype Scope = Overall | Queue(name: string)

  datatype Levels = Levels(pressure: string, alert: string)

  datatype Transition = Transition(scope: Scope, previous: Levels, current: Levels)

  type StateHash = map<string, string>

  function PressureField(scope: Scope): string {
    match scope
    case Overall => "overall_pressure"
    case Queue(name) => name + ":pressure"
  }

  function AlertField(scope: Scope): string {
    match scope
    case Overall => "overall_alert"
    case Queue(name) => name + ":alert"
  }

  // hash.get(field, "")
  function Get(hash: StateHash, field: string): string {
    if field in hash then hash[field] else ""
  }

  function LevelsAt(hash: StateHash, scope: Scope): Levels {
    Levels(Get(hash, PressureField(scope)), Get(hash, AlertField(scope)))
  }

  function LevelsOf(s: QueueSnapshot): Levels {
    Levels(PressureName(s.queuePressure), AlertName(s.queueAlert))
  }

  function OverallLevels(snapshots: seq<QueueSnapshot>): Levels {
    Levels(PressureName(DeriveOverallPressure(set s | s in snapshots :: s.queuePressure)),
           AlertName(DeriveOverallAlert(set s | s in snapshots :: s.queueAlert)))
  }

  function WithLevels(hash: StateHash, scope: Scope, levels: Levels): StateHash {
    hash[PressureField(scope) := levels.pressure][AlertField(scope) := levels.alert]
  }

  /** `_current_state_mapping` */
  function CurrentState(snapshots: seq<QueueSnapshot>, n: nat): StateHash
    requires n <= |snapshots|
  {
    if n == 0 then WithLevels(map[], Overall, OverallLevels(snapshots))
    else
      var s := snapshots[n - 1];
      WithLevels(CurrentState(snapshots, n - 1), Queue(s.queueName), LevelsOf(s))
  }

  function Change(hash: StateHash, scope: Scope, current: Levels): seq<Transition> {
    if LevelsAt(hash, scope) == current then [] else [Transition(scope, LevelsAt(hash, scope), current)]
  }

  function QueueChanges(hash: StateHash, snapshots: seq<QueueSnapshot>): seq<Transition> {
    if snapshots == [] then []
    else
      var n := |snapshots| - 1;
      QueueChanges(hash, snapshots[..n]) + Change(hash, Queue(snapshots[n].queueName), LevelsOf(snapshots[n]))
  }

  // What one tick publishes, given the hash it finds.
  function Transitions(hash: StateHash, snapshots: seq<QueueSnapshot>): seq<Transition> {
    if hash == map[] || snapshots == [] then []
    else Change(hash, Overall, OverallLevels(snapshots)) + QueueChanges(hash, snapshots)
  }

  function Updated(hash: StateHash, snapshots: seq<QueueSnapshot>): StateHash {
    if snapshots == [] then hash else hash + CurrentState(snapshots, |snapshots|)
  }

  class TelemetryStore {
    var stateHash: StateHash
    var alerts: seq<Transition>

    constructor ()
      ensures stateHash == map[] && alerts == []
    {
      stateHash, alerts := map[], [];
    }

    /** `record_queue_telemetry`, run to its end. */
    method RecordQueueTelemetry(snapshots: seq<QueueSnapshot>)
      modifies this
      ensures alerts == old(alerts) + Transitions(old(stateHash), snapshots)
      ensures stateHash == Updated(old(stateHash), snapshots)
    {
      hide LevelsAt, LevelsOf, CurrentState, OverallLevels;
      if snapshots == [] {
        return;
      }
      var previous := stateHash;
      var current := ReadCurrentState(snapshots);
      if previous != map[] {
        var overall := OverallLevels(snapshots);
        if LevelsAt(previous, Overall) != overall {
          alerts := alerts + [Transition(Overall, LevelsAt(previous, Overall), overall)];
        }
        PublishQueueChanges(previous, snapshots);
      }
      stateHash := stateHash + current;
    }

    // The loop over the queues.
    method PublishQueueChanges(previous: StateHash, snapshots: seq<QueueSnapshot>)
      modifies this`alerts
      ensures alerts == old(alerts) + QueueChanges(previous, snapshots)
    {
      hide LevelsAt, LevelsOf;
      for i := 0 to |snapshots|
        invariant alerts == old(alerts) + QueueChanges(previous, snapshots[..i])
      {
        var scope := Queue(snapshots[i].queueName);
        assert snapshots[..i + 1][..i] == snapshots[..i];
        if LevelsAt(previous, scope) != LevelsOf(snapshots[i]) {
          alerts := alerts + [Transition(scope, LevelsAt(previous, scope), LevelsOf(snapshots[i]))];
        }
      }
      assert snapshots[..|snapshots|] == snapshots;
    }

    // The loop that fills the local dictionary.
    method ReadCurrentState(snapshots: seq<QueueSnapshot>) returns (state: StateHash)
      ensures state == CurrentState(snapshots, |snapshots|)
    {
      var overall := OverallLevels(snapshots);
      state := map["overall_pressure" := overall.pressure, "overall_alert" := overall.alert];
      for i := 0 to |snapshots|
        invariant state == CurrentState(snapshots, i)
      {
        var s := snapshots[i];
        state := state[s.queueName + ":pressure" := PressureName(s.queuePressure)];
        state := state[s.queueName + ":alert" := AlertName(s.queueAlert)];
      }
    }
  }

  // ----- Runs, in which the process may die inside a tick -----

  // A tick that crashes has published a prefix of its transitions and has not written the hash.
  datatype Tick = Tick(snapshots: seq<QueueSnapshot>, crashedAfter: Option<nat>)

  datatype Store = Store(hash: StateHash, alerts: seq<Transition>)

  // The snapshots are the values of a dictionary keyed by queue name.
  ghost predicate DistinctQueues(snapshots: seq<QueueSnapshot>) {
    forall i, j :: 0 <= i < j < |snapshots| ==> snapshots[i].queueName != snapshots[j].queueName
  }

  ghost predicate Proper(ticks: seq<Tick>) {
    forall t :: t in ticks ==> DistinctQueues(t.snapshots)
  }

  ghost function Next(s: Store, t: Tick): Store {
    var published := Transitions(s.hash, t.snapshots);
    match t.crashedAfter
    case None => Store(Updated(s.hash, t.snapshots), s.alerts + published)
    case Some(k) => Store(s.hash, s.alerts + if k < |published| then published[..k] else published)
  }

  ghost function After(ticks: seq<Tick>): Store {
    if ticks == [] then Store(map[], []) else Next(After(ticks[..|ticks| - 1]), ticks[|ticks| - 1])
  }

  ghost predicate NoCrash(ticks: seq<Tick>) {
    forall t :: t in ticks ==> t.crashedAfter == None
  }

  // The part of a log that is about one scope.
  ghost function About(scope: Scope, log: seq<Transition>): seq<Transition> {
    if log == [] then []
    else
      var n := |log| - 1;
      About(scope, log[..n]) + if log[n].scope == scope then [log[n]] else []
  }

  // A log that starts at `from`, in which every transition starts where the one before ended and moves.
  ghost predicate IsChain(log: seq<Transition>, from: Levels) {
    forall i :: 0 <= i < |log| ==>
      log[i].previous == EndOf(log[..i], from) && log[i].previous != log[i].current
  }

  ghost function EndOf(log: seq<Transition>, from: Levels): Levels {
    if log == [] then from else log[|log| - 1].current
  }

  // What a tick says about a scope, if anything.
  ghost function Reported(snapshots: seq<QueueSnapshot>, scope: Scope): Option<Levels> {
    if snapshots == [] then None
    else if scope == Overall then Some(OverallLevels(snapshots))
    else
      var n := |snapshots| - 1;
      if Queue(snapshots[n].queueName) == scope then Some(LevelsOf(snapshots[n]))
      else Reported(snapshots[..n], scope)
  }

  ghost function OrElse(levels: Option<Levels>, default: Levels): Levels {
    if levels.Some? then levels.value else default
  }

  const UNKNOWN := Levels("", "")

  // The silent baseline of a scope: what the first tick with any queue said about it, or nothing.
  ghost function Baseline(ticks: seq<Tick>, scope: Scope): Levels {
    if ticks == [] then UNKNOWN
    else if ticks[0].snapshots == [] then Baseline(ticks[1..], scope)
    else OrElse(Reported(ticks[0].snapshots, scope), UNKNOWN)
  }

  // The latest report on a scope.
  ghost function Latest(ticks: seq<Tick>, scope: Scope): Levels {
    if ticks == [] then UNKNOWN
    else
      var n := |ticks| - 1;
      OrElse(Reported(ticks[n].snapshots, scope), Latest(ticks[..n], scope))
  }

  lemma FieldsAreDistinct(a: Scope, b: Scope)
    ensures PressureField(a) != AlertField(b)
    ensures a != b ==> PressureField(a) != PressureField(b) && AlertField(a) != AlertField(b)
  {
    var p, q := PressureField(a), AlertField(b);
    assert p[|p| - 1] == 'e' && q[|q| - 1] == 't';
    if a.Queue? && b.Queue? {
      assert (a.name + ":pressure")[..|a.name|] == a.name && (b.name + ":pressure")[..|b.name|] == b.name;
      assert (a.name + ":alert")[..|a.name|] == a.name && (b.name + ":alert")[..|b.name|] == b.name;
    } else if a.Queue? {
      QueueFieldsAreNotOverall(a.name);
    } else if b.Queue? {
      QueueFieldsAreNotOverall(b.name);
    }
  }

  lemma QueueFieldsAreNotOverall(name: string)
    ensures name + ":pressure" != "overall_pressure" && name + ":alert" != "overall_alert"
  {
    assert (name + ":pressure")[|name|] == ':' && "overall_pressure"[7] == '_';
    assert (name + ":alert")[|name|] == ':' && "overall_alert"[7] == '_';
  }

  lemma LevelsAfterWrite(hash: StateHash, scope: Scope, levels: Levels, other: Scope)
    ensures LevelsAt(WithLevels(hash, scope, levels), other)
         == if scope == other then levels else LevelsAt(hash, other)
    ensures PressureField(other) in WithLevels(hash, scope, levels) <==>
      scope == other || PressureField(other) in hash
    ensures AlertField(other) in WithLevels(hash, scope, levels) <==>
      scope == other || AlertField(other) in hash
  {
    FieldsAreDistinct(scope, other);
    FieldsAreDistinct(other, scope);
  }

  lemma {:induction false} LevelsOfCurrentState(snapshots: seq<QueueSnapshot>, n: nat, scope: Scope)
    requires n <= |snapshots| && snapshots != []
    ensures var reported := if scope == Overall then Some(OverallLevels(snapshots)) else Reported(snapshots[..n], scope);
      && (PressureField(scope) in CurrentState(snapshots, n) <==> reported.Some?)
      && (AlertField(scope) in CurrentState(snapshots, n) <==> reported.Some?)
      && (reported.Some? ==> LevelsAt(CurrentState(snapshots, n), scope) == reported.value)
  {
    hide LevelsAt, LevelsOf, OverallLevels, WithLevels;
    if n == 0 {
      NothingKnown(scope);
      LevelsAfterWrite(map[], Overall, OverallLevels(snapshots), scope);
    } else {
      LevelsOfCurrentState(snapshots, n - 1, scope);
      var s := snapshots[n - 1];
      assert snapshots[..n][..n - 1] == snapshots[..n - 1];
      LevelsAfterWrite(CurrentState(snapshots, n - 1), Queue(s.queueName), LevelsOf(s), scope);
    }
  }

  lemma NothingKnown(scope: Scope)
    ensures LevelsAt(map[], scope) == UNKNOWN
    ensures forall hash: StateHash :: hash == map[] ==> PressureField(scope) !in hash && AlertField(scope) !in hash
  {
  }

  // A completed tick leaves every scope at what it reported, and the others alone.
  lemma LevelsAfterTick(hash: StateHash, snapshots: seq<QueueSnapshot>, scope: Scope)
    ensures LevelsAt(Updated(hash, snapshots), scope) == OrElse(Reported(snapshots, scope), LevelsAt(hash, scope))
    ensures snapshots != [] ==> Updated(hash, snapshots) != map[]
  {
    hide OverallLevels, LevelsOf;
    if snapshots != [] {
      assert snapshots[..|snapshots|] == snapshots;
      LevelsOfCurrentState(snapshots, |snapshots|, scope);
      LevelsOfCurrentState(snapshots, |snapshots|, Overall);
      assert PressureField(Overall) in Updated(hash, snapshots);
    }
  }

  lemma {:induction false} AboutAppend(scope: Scope, a: seq<Transition>, b: seq<Transition>)
    ensures About(scope, a + b) == About(scope, a) + About(scope, b)
  {
    if b == [] {
      assert a + b == a;
    } else {
      assert (a + b)[..|a + b| - 1] == a + b[..|b| - 1];
      AboutAppend(scope, a, b[..|b| - 1]);
    }
  }

  lemma AboutChange(hash: StateHash, scope: Scope, current: Levels, other: Scope)
    ensures About(other, Change(hash, scope, current)) == if scope == other then Change(hash, scope, current) else []
  {
    var change := Change(hash, scope, current);
    if change != [] {
      assert change[..0] == [];
    }
  }

  lemma {:induction false} AboutQueueChanges(hash: StateHash, snapshots: seq<QueueSnapshot>, scope: Scope)
    requires DistinctQueues(snapshots) && scope.Queue?
    ensures var reported := Reported(snapshots, scope);
      About(scope, QueueChanges(hash, snapshots))
        == if reported.Some? then Change(hash, scope, reported.value) else []
    ensures Reported(snapshots, scope).Some? ==> exists s :: s in snapshots && s.queueName == scope.name
  {
    hide Change, LevelsOf;
    if snapshots != [] {
      hide About;
      var n := |snapshots| - 1;
      AboutQueueChanges(hash, snapshots[..n], scope);
      AboutAppend(scope, QueueChanges(hash, snapshots[..n]), Change(hash, Queue(snapshots[n].queueName), LevelsOf(snapshots[n])));
      AboutChange(hash, Queue(snapshots[n].queueName), LevelsOf(snapshots[n]), scope);
    }
  }

  lemma {:induction false} OverallIsNotAQueueChange(hash: StateHash, snapshots: seq<QueueSnapshot>)
    ensures About(Overall, QueueChanges(hash, snapshots)) == []
  {
    hide Change, LevelsOf;
    if snapshots != [] {
      var n := |snapshots| - 1;
      OverallIsNotAQueueChange(hash, snapshots[..n]);
      AboutAppend(Overall, QueueChanges(hash, snapshots[..n]), Change(hash, Queue(snapshots[n].queueName), LevelsOf(snapshots[n])));
      AboutChange(hash, Queue(snapshots[n].queueName), LevelsOf(snapshots[n]), Overall);
    }
  }

  // On a known hash, a tick publishes one transition for each scope it reports as changed, and no other.
  lemma AboutTick(hash: StateHash, snapshots: seq<QueueSnapshot>, scope: Scope)
    requires DistinctQueues(snapshots) && hash != map[]
    ensures var reported := Reported(snapshots, scope);
      About(scope, Transitions(hash, snapshots))
        == if reported.Some? then Change(hash, scope, reported.value) else []
  {
    hide Change, LevelsOf, OverallLevels;
    if snapshots != [] {
      var overall := Change(hash, Overall, OverallLevels(snapshots));
      AboutAppend(scope, overall, QueueChanges(hash, snapshots));
      AboutChange(hash, Overall, OverallLevels(snapshots), scope);
      if scope == Overall {
        OverallIsNotAQueueChange(hash, snapshots);
      } else {
        AboutQueueChanges(hash, snapshots, scope);
      }
    }
  }

  // ----- What a tick writes and publishes, in the snapshots' own terms -----

  // The two texts of a level, by severity.
  ghost predicate Says(levels: Levels, p: Pressure, a: Alert) {
    levels.pressure == PRESSURE_TEXTS[PressureRank(p)] && levels.alert == ALERT_TEXTS[AlertRank(a)]
  }

  lemma {:induction false} ReportedOf(snapshots: seq<QueueSnapshot>, s: QueueSnapshot)
    requires DistinctQueues(snapshots) && s in snapshots
    ensures Reported(snapshots, Queue(s.queueName)) == Some(LevelsOf(s))
  {
    hide LevelsOf;
    var n := |snapshots| - 1;
    if s != snapshots[n] {
      assert s in snapshots[..n];
      ReportedOf(snapshots[..n], s);
    }
  }

  lemma OverallLevelsSay(snapshots: seq<QueueSnapshot>) returns (p: Pressure, a: Alert)
    requires snapshots != []
    ensures IsMostSevere(snapshots, p, a) && Says(OverallLevels(snapshots), p, a)
  {
    p := DeriveOverallPressure(set s | s in snapshots :: s.queuePressure);
    a := DeriveOverallAlert(set s | s in snapshots :: s.queueAlert);
    OverallIsMaximal(snapshots);
    LevelTexts(p, a);
  }

  /** After a tick the fields of every queue it saw, and the two overall ones, hold its levels as texts. */
  lemma TickWritesTheLevels(hash: StateHash, snapshots: seq<QueueSnapshot>, s: QueueSnapshot)
      returns (p: Pressure, a: Alert)
    requires DistinctQueues(snapshots) && s in snapshots
    ensures var after := Updated(hash, snapshots);
      && s.queueName + ":pressure" in after && s.queueName + ":alert" in after
      && Says(Levels(after[s.queueName + ":pressure"], after[s.queueName + ":alert"]), s.queuePressure, s.queueAlert)
      && "overall_pressure" in after && "overall_alert" in after && IsMostSevere(snapshots, p, a)
      && Says(Levels(after["overall_pressure"], after["overall_alert"]), p, a)
  {
    p, a := OverallLevelsSay(snapshots);
    ReportedOf(snapshots, s);
    assert Says(LevelsOf(s), s.queuePressure, s.queueAlert);
    hide LevelsOf, OverallLevels, IsMostSevere, Says, CurrentState;
    assert snapshots[..|snapshots|] == snapshots;
    LevelsOfCurrentState(snapshots, |snapshots|, Queue(s.queueName));
    LevelsOfCurrentState(snapshots, |snapshots|, Overall);
  }

  // The texts in two fields, "" for a missing one.
  ghost function Texts(hash: StateHash, pressure: string, alert: string): Levels {
    Levels(if pressure in hash then hash[pressure] else "", if alert in hash then hash[alert] else "")
  }

  // One transition if the texts differ, and none if they do not.
  ghost predicate Shows(log: seq<Transition>, scope: Scope, before: Levels, after: Levels) {
    log == if before == after then [] else [Transition(scope, before, after)]
  }

  /**
   On a known hash, a tick publishes one transition for each queue whose fields it changes, from the texts before, ""
   where there were none, to the texts after; and none for the others. So it does for all queues together.
   */
  lemma TickPublishesTheChanges(hash: StateHash, snapshots: seq<QueueSnapshot>, s: QueueSnapshot)
    requires DistinctQueues(snapshots) && s in snapshots && hash != map[]
    ensures var after, published := Updated(hash, snapshots), Transitions(hash, snapshots);
      && Shows(About(Queue(s.queueName), published), Queue(s.queueName),
               Texts(hash, s.queueName + ":pressure", s.queueName + ":alert"),
               Texts(after, s.queueName + ":pressure", s.queueName + ":alert"))
      && Shows(About(Overall, published), Overall,
               Texts(hash, "overall_pressure", "overall_alert"), Texts(after, "overall_pressure", "overall_alert"))
  {
    ReportedOf(snapshots, s);
    hide LevelsOf, OverallLevels, Transitions, Updated;
    AboutTick(hash, snapshots, Queue(s.queueName));
    AboutTick(hash, snapshots, Overall);
    LevelsAfterTick(hash, snapshots, Queue(s.queueName));
    LevelsAfterTick(hash, snapshots, Overall);
    assert Reported(snapshots, Overall) == Some(OverallLevels(snapshots));
  }

  lemma {:induction false} OnlyReportedQueuesChange(hash: StateHash, snapshots: seq<QueueSnapshot>)
    ensures forall t :: t in QueueChanges(hash, snapshots) ==> exists s :: s in snapshots && t.scope == Queue(s.queueName)
  {
    if snapshots != [] {
      OnlyReportedQueuesChange(hash, snapshots[..|snapshots| - 1]);
      assert snapshots[|snapshots| - 1] in snapshots;
    }
  }

  /** Nothing is published about any other queue, nor at all while the hash is empty. */
  lemma NothingElseIsPublished(hash: StateHash, snapshots: seq<QueueSnapshot>)
    ensures forall t :: t in Transitions(hash, snapshots) ==>
      hash != map[] && (t.scope == Overall || exists s :: s in snapshots && t.scope == Queue(s.queueName))
  {
    hide QueueChanges;
    OnlyReportedQueuesChange(hash, snapshots);
  }

  // ----- The log agrees with the hash -----

  lemma {:induction false} HashIsLatest(ticks: seq<Tick>, scope: Scope)
    requires NoCrash(ticks)
    ensures LevelsAt(After(ticks).hash, scope) == Latest(ticks, scope)
    ensures After(ticks).hash == map[] <==> forall t :: t in ticks ==> t.snapshots == []
    ensures After(ticks).hash == map[] ==> After(ticks).alerts == []
  {
    hide LevelsAt, Updated;
    if ticks == [] {
      NothingKnown(scope);
    } else {
      var n := |ticks| - 1;
      HashIsLatest(ticks[..n], scope);
      assert ticks == ticks[..n] + [ticks[n]];
      LevelsAfterTick(After(ticks[..n]).hash, ticks[n].snapshots, scope);
      UpdatedByNothing(After(ticks[..n]).hash);
    }
  }

  lemma UpdatedByNothing(hash: StateHash)
    ensures Updated(hash, []) == hash
  {
  }

  lemma {:induction false} BaselineIsFirstKnown(ticks: seq<Tick>, t: Tick, scope: Scope)
    ensures (exists u :: u in ticks && u.snapshots != []) ==> Baseline(ticks + [t], scope) == Baseline(ticks, scope)
    ensures (forall u :: u in ticks ==> u.snapshots == []) ==>
      Baseline(ticks + [t], scope) == OrElse(Reported(t.snapshots, scope), UNKNOWN)
  {
    if ticks != [] {
      assert (ticks + [t])[1..] == ticks[1..] + [t];
      assert ticks == [ticks[0]] + ticks[1..];
      BaselineIsFirstKnown(ticks[1..], t, scope);
    } else {
      assert [t][1..] == [];
    }
  }

  // A chain stays one when a report that differs from its end is appended as a transition.
  lemma ExtendChain(log: seq<Transition>, from: Levels, scope: Scope, reported: Option<Levels>)
    requires IsChain(log, from)
    ensures var now := EndOf(log, from);
      var longer := log + if reported.Some? && now != reported.value then [Transition(scope, now, reported.value)] else [];
      IsChain(longer, from) && EndOf(longer, from) == OrElse(reported, now)
  {
    var now := EndOf(log, from);
    if reported.Some? && now != reported.value {
      var longer := log + [Transition(scope, now, reported.value)];
      forall i | 0 <= i < |longer|
        ensures longer[i].previous == EndOf(longer[..i], from) && longer[i].previous != longer[i].current
      {
        if i < |log| {
          assert longer[..i] == log[..i] && longer[i] == log[i];
        } else {
          assert longer[..i] == log;
        }
      }
    } else {
      assert log + [] == log;
    }
  }

  lemma FirstTickIsSilent(snapshots: seq<QueueSnapshot>)
    ensures Transitions(map[], snapshots) == []
  {
  }

  /**
   Over every run without crashes, the transitions published about a scope lead from its silent baseline, each
   from where the one before ended and never standing still, to what the hash says, which is the latest report.
   */
  lemma {:induction false} LogLeadsToHash(ticks: seq<Tick>, scope: Scope)
    requires Proper(ticks) && NoCrash(ticks)
    ensures IsChain(About(scope, After(ticks).alerts), Baseline(ticks, scope))
    ensures EndOf(About(scope, After(ticks).alerts), Baseline(ticks, scope)) == LevelsAt(After(ticks).hash, scope)
    ensures LevelsAt(After(ticks).hash, scope) == Latest(ticks, scope)
  {
    hide LevelsAt, Updated, Transitions, Reported, IsChain, EndOf;
    HashIsLatest(ticks, scope);
    if ticks == [] {
      NothingKnown(scope);
      EmptyIsChain(UNKNOWN);
    } else {
      var n := |ticks| - 1;
      var before, t := ticks[..n], ticks[n];
      var hash, reported := After(before).hash, Reported(t.snapshots, scope);
      assert ticks == before + [t];
      HashIsLatest(before, scope);
      LogLeadsToHash(before, scope);
      BaselineIsFirstKnown(before, t, scope);
      LevelsAfterTick(hash, t.snapshots, scope);
      if hash == map[] {
        FirstTickIsSilent(t.snapshots);
        NothingKnown(scope);
        EmptyIsChain(Baseline(ticks, scope));
      } else {
        AboutAppend(scope, After(before).alerts, Transitions(hash, t.snapshots));
        AboutTick(hash, t.snapshots, scope);
        ExtendChain(About(scope, After(before).alerts), Baseline(before, scope), scope, reported);
      }
    }
  }

  lemma EmptyIsChain(from: Levels)
    ensures IsChain([], from) && EndOf([], from) == from
  {
  }

  // ----- With crashes -----

  // The ticks that ran to their end.
  ghost function Completed(ticks: seq<Tick>): seq<Tick> {
    if ticks == [] then []
    else
      var n := |ticks| - 1;
      Completed(ticks[..n]) + if ticks[n].crashedAfter.None? then [ticks[n]] else []
  }

  ghost predicate IsSubsequence<T>(part: seq<T>, whole: seq<T>) {
    if part == [] then true
    else if whole == [] then false
    else if part[|part| - 1] == whole[|whole| - 1] && IsSubsequence(part[..|part| - 1], whole[..|whole| - 1]) then true
    else IsSubsequence(part, whole[..|whole| - 1])
  }

  lemma {:induction false} SubsequenceAppend<T>(part: seq<T>, whole: seq<T>, more: seq<T>)
    requires IsSubsequence(part, whole)
    ensures IsSubsequence(part, whole + more)
    ensures IsSubsequence(part + more, whole + more)
  {
    if more == [] {
      assert part + more == part && whole + more == whole;
    } else {
      var fewer := more[..|more| - 1];
      SubsequenceAppend(part, whole, fewer);
      assert (whole + more)[..|whole + more| - 1] == whole + fewer;
      assert (part + more)[..|part + more| - 1] == part + fewer;
    }
  }

  lemma OneTickMore(ticks: seq<Tick>, t: Tick)
    ensures After(ticks + [t]) == Next(After(ticks), t)
    ensures Completed(ticks + [t]) == if t.crashedAfter.None? then Completed(ticks) + [t] else Completed(ticks)
  {
    hide Next;
    assert (ticks + [t])[..|ticks|] == ticks;
  }

  ghost predicate Within(part: Store, whole: Store) {
    part.hash == whole.hash && IsSubsequence(part.alerts, whole.alerts)
  }

  lemma TickKeepsWithin(part: Store, whole: Store, t: Tick)
    requires Within(part, whole)
    ensures Within(if t.crashedAfter.None? then Next(part, t) else part, Next(whole, t))
  {
    hide Transitions, Updated, IsSubsequence;
    var published := Transitions(whole.hash, t.snapshots);
    var made := if t.crashedAfter.Some? && t.crashedAfter.value < |published| then published[..t.crashedAfter.value] else published;
    SubsequenceAppend(part.alerts, whole.alerts, made);
  }

  lemma NothingRan()
    ensures Completed([]) == [] && Within(After([]), After([]))
  {
    hide Next;
  }

  /**
   Crashed ticks never touch the hash, and only repeat transitions: the log of the completed ticks alone, which
   leads from the baselines to the hash, is contained in the log of the whole run.
   */
  lemma {:induction false} CrashesOnlyRepeat(ticks: seq<Tick>)
    ensures Within(After(Completed(ticks)), After(ticks))
    ensures NoCrash(Completed(ticks))
  {
    hide After, Completed, Within, Next;
    if ticks == [] {
      NothingRan();
    } else {
      var before, t := ticks[..|ticks| - 1], ticks[|ticks| - 1];
      assert before + [t] == ticks;
      CrashesOnlyRepeat(before);
      OneTickMore(before, t);
      OneTickMore(Completed(before), t);
      TickKeepsWithin(After(Completed(before)), After(before), t);
    }
  }

  /** Whatever crashed before: when a tick changes a known hash, the matching transition is in the log already. */
  lemma ChangeIsAlreadyLogged(ticks: seq<Tick>, snapshots: seq<QueueSnapshot>, scope: Scope)
    requires DistinctQueues(snapshots) && After(ticks).hash != map[]
    ensures var before, after := After(ticks).hash, Updated(After(ticks).hash, snapshots);
      LevelsAt(before, scope) != LevelsAt(after, scope) ==>
        Transition(scope, LevelsAt(before, scope), LevelsAt(after, scope)) in
          After(ticks + [Tick(snapshots, Some(|Transitions(before, snapshots)|))]).alerts
  {
    hide LevelsAt, Updated, Transitions, Reported;
    var before := After(ticks).hash;
    var died := Tick(snapshots, Some(|Transitions(before, snapshots)|));
    assert (ticks + [died])[..|ticks|] == ticks;
    LevelsAfterTick(before, snapshots, scope);
    AboutTick(before, snapshots, scope);
    AboutIsInLog(scope, Transitions(before, snapshots));
  }

  lemma {:induction false} AboutIsInLog(scope: Scope, log: seq<Transition>)
    ensures forall t :: t in About(scope, log) ==> t in log
  {
    if log != [] {
      AboutIsInLog(scope, log[..|log| - 1]);
    }
  }

  /** Over every run, crashes included, each scope's log contains a chain from its baseline to the hash. */
  lemma LogContainsTheChain(ticks: seq<Tick>, scope: Scope)
    requires Proper(ticks)
    ensures exists chain ::
      && IsSubsequence(chain, After(ticks).alerts)
      && IsChain(About(scope, chain), Baseline(Completed(ticks), scope))
      && EndOf(About(scope, chain), Baseline(Completed(ticks), scope)) == LevelsAt(After(ticks).hash, scope)
  {
    hide IsSubsequence, IsChain, EndOf, LevelsAt, After;
    CrashesOnlyRepeat(ticks);
    CompletedAreTicks(ticks);
    LogLeadsToHash(Completed(ticks), scope);
  }

  lemma {:induction false} CompletedAreTicks(ticks: seq<Tick>)
    ensures forall t :: t in Completed(ticks) ==> t in ticks
  {
    if ticks != [] {
      CompletedAreTicks(ticks[..|ticks| - 1]);
    }
  }
}
