/**
 The worker counters of backend/app/runtime/worker_metrics.py.

 The hash of one worker role lives in Redis and is shared by several processes. `hincrby` is atomic, but a
 sync reads the four counters, and later writes them back next to the queue snapshot. A run is any
 interleaving of increments, of the two halves of syncs (named by an id), and of the key expiring.
 */
module WorkerMetrics {
  import opened Wrappers

  datatype Counter = RetryExhausted | RetryScheduled | JobCompleted | JobFailed

  const COUNTER_FIELDS: seq<Counter> := [RetryExhausted, RetryScheduled, JobCompleted, JobFailed]

  // The fields of the hash other than the counters, as one value.
  datatype Snapshot = Snapshot(queueName: string, queueDepth: int, queuePressure: string,
                               oldestJobAgeSeconds: int, queueAlert: string)

  // What Redis holds for one role; an expired or never written key is the empty hash.
  datatype Hash = Hash(counters: map<Counter, int>, snapshot: Option<Snapshot>)

  const ABSENT := Hash(map[], None)

  function Read(h: Hash, c: Counter): int {
    if c in h.counters then h.counters[c] else 0
  }

  ghost function AllRead(h: Hash): (all: map<Counter, int>)
    ensures forall c :: c in all && all[c] == Read(h, c)
  {
    assert forall c: Counter :: c in COUNTER_FIELDS by {
      forall c: Counter
        ensures c in COUNTER_FIELDS
      {
        EveryCounterIsListed(c);
      }
    }
    map c | c in COUNTER_FIELDS :: Read(h, c)
  }

  ghost function Incremented(h: Hash, c: Counter): Hash {
    h.(counters := h.counters[c := Read(h, c) + 1])
  }

  ghost function Written(h: Hash, counters: map<Counter, int>, snapshot: Snapshot): Hash {
    Hash(h.counters + counters, Some(snapshot))
  }

  class RoleMetrics {
    var hash: Hash

    constructor ()
      ensures hash == ABSENT
    {
      hash := ABSENT;
    }

    /** `increment_worker_counter`: one atomic `hincrby`, which creates the field when it is missing. */
    method Increment(c: Counter) returns (value: int)
      modifies this
      ensures hash == Incremented(old(hash), c) && value == Read(hash, c)
    {
      value := Read(hash, c) + 1;
      hash := hash.(counters := hash.counters[c := value]);
    }

    /** `_get_counter_values`: the first half of a sync. */
    method GetCounterValues() returns (counters: map<Counter, int>)
      ensures counters == AllRead(hash)
    {
      counters := map[];
      for i := 0 to |COUNTER_FIELDS|
        invariant forall k :: 0 <= k < i ==> COUNTER_FIELDS[k] in counters
        invariant forall c :: c in counters ==> counters[c] == Read(hash, c)
      {
        var c := COUNTER_FIELDS[i];
        counters := counters[c := if c in hash.counters then hash.counters[c] else 0];
      }
      forall c: Counter
        ensures c in counters && counters[c] == AllRead(hash)[c]
      {
        EveryCounterIsListed(c);
      }
      assert counters.Keys == AllRead(hash).Keys;
    }

    /** The `hset` that ends `sync_worker_queue_metrics`: the snapshot and the counters read before. */
    method WriteBack(counters: map<Counter, int>, snapshot: Snapshot)
      modifies this
      ensures hash == Written(old(hash), counters, snapshot)
    {
      hash := Hash(hash.counters + counters, Some(snapshot));
    }

    method Expire()
      modifies this
      ensures hash == ABSENT
    {
      hash := ABSENT;
    }
  }

  lemma EveryCounterIsListed(c: Counter)
    ensures c in COUNTER_FIELDS
  {
    assert COUNTER_FIELDS[0] == RetryExhausted && COUNTER_FIELDS[1] == RetryScheduled;
    assert COUNTER_FIELDS[2] == JobCompleted && COUNTER_FIELDS[3] == JobFailed;
  }

  // ----- Interleavings -----

  datatype Step =
    | Inc(c: Counter)
    | SyncRead(id: nat)
    | SyncWrite(id: nat, snapshot: Snapshot)
    | Expire

  datatype System = System(hash: Hash, pending: map<nat, map<Counter, int>>)

  const START := System(ABSENT, map[])

  // A sync reads once and writes once, in that order.
  ghost predicate Enabled(s: System, step: Step) {
    match step
    case Inc(_) => true
    case SyncRead(id) => id !in s.pending
    case SyncWrite(id, _) => id in s.pending
    case Expire => true
  }

  ghost function Next(s: System, step: Step): System
    requires Enabled(s, step)
  {
    match step
    case Inc(c) => s.(hash := Incremented(s.hash, c))
    case SyncRead(id) => s.(pending := s.pending[id := AllRead(s.hash)])
    case SyncWrite(id, snapshot) => System(Written(s.hash, s.pending[id], snapshot), s.pending - {id})
    case Expire => s.(hash := ABSENT)
  }

  ghost predicate Possible(steps: seq<Step>)
    decreases |steps|, 0
  {
    steps == [] ||
    (Possible(Front(steps)) && Enabled(After(Front(steps)), Last(steps)))
  }

  ghost function After(steps: seq<Step>): System
    requires Possible(steps)
    decreases |steps|, 1
  {
    if steps == [] then START else Next(After(Front(steps)), Last(steps))
  }

  ghost function Front(steps: seq<Step>): seq<Step>
    requires steps != []
  {
    steps[..|steps| - 1]
  }

  ghost function Last(steps: seq<Step>): Step
    requires steps != []
  {
    steps[|steps| - 1]
  }

  // All increments of `c`, and those made while no sync was between its read and its write.
  ghost function Made(steps: seq<Step>, c: Counter): nat {
    if steps == [] then 0 else Made(Front(steps), c) + if Last(steps) == Inc(c) then 1 else 0
  }

  ghost function MadeOutsideSyncs(steps: seq<Step>, c: Counter): nat
    requires Possible(steps)
  {
    if steps == [] then 0
    else MadeOutsideSyncs(Front(steps), c)
         + if Last(steps) == Inc(c) && After(Front(steps)).pending == map[] then 1 else 0
  }

  ghost predicate NeverExpires(steps: seq<Step>) {
    Expire !in steps
  }

  /** Whatever the interleaving and however often the key expires, no counter exceeds its increments. */
  lemma {:induction false} CounterNeverExceedsIncrements(steps: seq<Step>, c: Counter)
    requires Possible(steps)
    ensures 0 <= Read(After(steps).hash, c) <= Made(steps, c)
    ensures forall id :: id in After(steps).pending ==>
      c in After(steps).pending[id] && 0 <= After(steps).pending[id][c] <= Made(steps, c)
  {
    if steps != [] {
      CounterNeverExceedsIncrements(Front(steps), c);
    }
  }

  /** Without expiry, an increment made while no sync is pending is never lost. */
  lemma {:induction false} QuietIncrementsSurvive(steps: seq<Step>, c: Counter)
    requires Possible(steps) && NeverExpires(steps)
    ensures MadeOutsideSyncs(steps, c) <= Read(After(steps).hash, c)
    ensures forall id :: id in After(steps).pending ==>
      c in After(steps).pending[id] && MadeOutsideSyncs(steps, c) <= After(steps).pending[id][c]
  {
    if steps != [] {
      QuietIncrementsSurvive(Front(steps), c);
    }
  }

  /** The two-sided bound on every interleaving. */
  lemma CounterBounds(steps: seq<Step>, c: Counter)
    requires Possible(steps) && NeverExpires(steps)
    ensures MadeOutsideSyncs(steps, c) <= Read(After(steps).hash, c) <= Made(steps, c)
  {
    CounterNeverExceedsIncrements(steps, c);
    QuietIncrementsSurvive(steps, c);
  }

  // ----- What is lost -----

  // The increments that the stored counter lacks. A write brings back what its read lacked, without the increments
  // since; an expiry loses everything.
  ghost function Lost(steps: seq<Step>, c: Counter): nat
    requires Possible(steps)
    decreases |steps|, 0
  {
    if steps == [] then 0
    else
      match Last(steps)
      case SyncWrite(id, _) => LostIfWritten(Front(steps), c, id)
      case Expire => Made(steps, c)
      case _ => Lost(Front(steps), c)
  }

  // The increments that the counters read by a pending sync lack.
  ghost function LostIfWritten(steps: seq<Step>, c: Counter, id: nat): nat
    requires Possible(steps) && id in After(steps).pending
    decreases |steps|, 1
  {
    if Last(steps) == SyncRead(id) then Lost(Front(steps), c)
    else LostIfWritten(Front(steps), c, id) + if Last(steps) == Inc(c) then 1 else 0
  }

  /** On every interleaving, overlapping syncs and expiries included, the counter is its increments less the lost. */
  lemma {:induction false} CounterIsMadeLessLost(steps: seq<Step>, c: Counter)
    requires Possible(steps)
    ensures Read(After(steps).hash, c) == Made(steps, c) - Lost(steps, c)
    ensures forall id :: id in After(steps).pending ==>
      c in After(steps).pending[id] && After(steps).pending[id][c] == Made(steps, c) - LostIfWritten(steps, c, id)
  {
    if steps != [] {
      CounterIsMadeLessLost(Front(steps), c);
    }
  }

  // Of the syncs whose writes still tell, none has an increment between its read and its write: neither the last
  // one to write, nor the last one to have written before that one's read, and so on. An expiry must find nothing.
  ghost predicate SurvivingSyncsAreQuiet(steps: seq<Step>, c: Counter)
    requires Possible(steps)
    decreases |steps|, 0
  {
    steps == [] ||
    match Last(steps)
    case SyncWrite(id, _) => QuietSinceRead(Front(steps), c, id)
    case Expire => Inc(c) !in steps
    case _ => SurvivingSyncsAreQuiet(Front(steps), c)
  }

  ghost predicate QuietSinceRead(steps: seq<Step>, c: Counter, id: nat)
    requires Possible(steps) && id in After(steps).pending
    decreases |steps|, 1
  {
    if Last(steps) == SyncRead(id) then SurvivingSyncsAreQuiet(Front(steps), c)
    else Last(steps) != Inc(c) && QuietSinceRead(Front(steps), c, id)
  }

  lemma {:induction false} NoneMadeIff(steps: seq<Step>, c: Counter)
    ensures Made(steps, c) == 0 <==> Inc(c) !in steps
  {
    if steps != [] {
      NoneMadeIff(Front(steps), c);
      assert steps == Front(steps) + [Last(steps)];
    }
  }

  lemma {:induction false} NothingLostIff(steps: seq<Step>, c: Counter)
    requires Possible(steps)
    ensures Lost(steps, c) == 0 <==> SurvivingSyncsAreQuiet(steps, c)
    ensures forall id :: id in After(steps).pending ==>
      (LostIfWritten(steps, c, id) == 0 <==> QuietSinceRead(steps, c, id))
  {
    if steps != [] {
      NothingLostIff(Front(steps), c);
      NoneMadeIff(steps, c);
    }
  }

  /** Whatever the interleaving, the counter is exact if and only if no surviving sync has an increment inside it. */
  lemma CounterIsExactIff(steps: seq<Step>, c: Counter)
    requires Possible(steps)
    ensures Read(After(steps).hash, c) == Made(steps, c) <==> SurvivingSyncsAreQuiet(steps, c)
  {
    CounterIsMadeLessLost(steps, c);
    NothingLostIff(steps, c);
  }

  // ----- Syncs that take turns -----

  // Syncs take turns: a sync starts only after the one before has written.
  ghost predicate OneSyncAtATime(steps: seq<Step>)
    requires Possible(steps)
  {
    steps == [] ||
    (OneSyncAtATime(Front(steps)) && (Last(steps).SyncRead? ==> After(Front(steps)).pending == map[]))
  }

  // The increments since the pending sync read the counters.
  ghost function MadeInOpenSync(steps: seq<Step>, c: Counter): nat
    requires Possible(steps)
  {
    if steps == [] || After(steps).pending == map[] then 0
    else MadeInOpenSync(Front(steps), c) + if Last(steps) == Inc(c) then 1 else 0
  }

  /**
   Syncs that take turns lose exactly the increments that fall between their read and their write. The counter
   is ahead of what a write would store by the increments of the sync still open.
   */
  lemma {:induction false} SerialSyncsLoseTheirWindows(steps: seq<Step>, c: Counter)
    requires Possible(steps)
    ensures NeverExpires(steps) && OneSyncAtATime(steps) ==>
      && Read(After(steps).hash, c) == MadeOutsideSyncs(steps, c) + MadeInOpenSync(steps, c)
      && (forall id, other :: id in After(steps).pending && other in After(steps).pending ==> id == other)
      && (forall id :: id in After(steps).pending ==>
            c in After(steps).pending[id] && After(steps).pending[id][c] == MadeOutsideSyncs(steps, c))
  {
    if steps != [] {
      SerialSyncsLoseTheirWindows(Front(steps), c);
      if Last(steps).SyncWrite? && NeverExpires(steps) && OneSyncAtATime(steps) {
        assert After(steps).pending == map[];
      }
    }
  }

  ghost predicate NoIncrementInsideASync(steps: seq<Step>, c: Counter)
    requires Possible(steps)
  {
    steps == [] ||
    (&& NoIncrementInsideASync(Front(steps), c)
     && (Last(steps) == Inc(c) ==> After(Front(steps)).pending == map[]))
  }

  lemma {:induction false} QuietMeansAllOutside(steps: seq<Step>, c: Counter)
    requires Possible(steps)
    ensures NoIncrementInsideASync(steps, c) <==> MadeOutsideSyncs(steps, c) == Made(steps, c)
    ensures MadeOutsideSyncs(steps, c) <= Made(steps, c)
  {
    if steps != [] {
      QuietMeansAllOutside(Front(steps), c);
    }
  }

  /** With no increment inside a sync, overlapping syncs included, the counter is exact at every moment. */
  lemma QuietRunsAreExact(steps: seq<Step>, c: Counter)
    requires Possible(steps) && NeverExpires(steps) && NoIncrementInsideASync(steps, c)
    ensures Read(After(steps).hash, c) == Made(steps, c)
  {
    CounterBounds(steps, c);
    QuietMeansAllOutside(steps, c);
  }

  // Of syncs that take turns, all survive.
  lemma {:induction false} SerialSyncsSurvive(steps: seq<Step>, c: Counter)
    requires Possible(steps) && NeverExpires(steps) && OneSyncAtATime(steps)
    ensures After(steps).pending == map[] ==> (SurvivingSyncsAreQuiet(steps, c) <==> NoIncrementInsideASync(steps, c))
    ensures forall id :: id in After(steps).pending ==>
      After(steps).pending.Keys == {id} && (QuietSinceRead(steps, c, id) <==> NoIncrementInsideASync(steps, c))
  {
    if steps != [] {
      SerialSyncsSurvive(Front(steps), c);
      if Last(steps).SyncWrite? {
        assert After(steps).pending == map[];
      }
    }
  }

  /** For syncs that take turns, the counter is exact between syncs just when no increment fell inside one. */
  lemma SerialRunsAreExactIffQuiet(steps: seq<Step>, c: Counter)
    requires Possible(steps)
    ensures NeverExpires(steps) && OneSyncAtATime(steps) && After(steps).pending == map[] ==>
      (Read(After(steps).hash, c) == Made(steps, c) <==> NoIncrementInsideASync(steps, c))
  {
    CounterIsExactIff(steps, c);
    if NeverExpires(steps) && OneSyncAtATime(steps) {
      SerialSyncsSurvive(steps, c);
    }
  }

  /** The shortest run that loses an increment: it falls between the two halves of a sync. */
  lemma AnIncrementCanBeLost(c: Counter, snapshot: Snapshot)
    ensures var steps := [SyncRead(0), Inc(c), SyncWrite(0, snapshot)];
      && Possible(steps) && NeverExpires(steps)
      && Made(steps, c) == 1 && Read(After(steps).hash, c) == 0
  {
    var read := [SyncRead(0)];
    var counted := read + [Inc(c)];
    var steps := [SyncRead(0), Inc(c), SyncWrite(0, snapshot)];
    assert Front(read) == [] && Front(counted) == read && Front(steps) == counted;
    assert Possible(read) && After(read).pending == map[0 := AllRead(ABSENT)];
    assert Possible(counted) && After(counted).pending == After(read).pending;
    assert Made(read, c) == 0;
  }

  /** An increment inside a sync need not be lost: one that reads later and writes last has it. */
  lemma AnOverlapCanSaveAnIncrement(c: Counter, snapshot: Snapshot)
    ensures var steps := [SyncRead(0), Inc(c), SyncRead(1), SyncWrite(0, snapshot), SyncWrite(1, snapshot)];
      && Possible(steps) && !NoIncrementInsideASync(steps, c)
      && Read(After(steps).hash, c) == Made(steps, c) == 1
  {
    hide AllRead, Incremented, Written, Read;
    var s1 := [SyncRead(0)];
    var s2 := s1 + [Inc(c)];
    var s3 := s2 + [SyncRead(1)];
    var s4 := s3 + [SyncWrite(0, snapshot)];
    var s5 := [SyncRead(0), Inc(c), SyncRead(1), SyncWrite(0, snapshot), SyncWrite(1, snapshot)];
    assert Front(s1) == [] && Front(s2) == s1 && Front(s3) == s2 && Front(s4) == s3 && Front(s5) == s4;
    assert Possible(s1) && 0 in After(s1).pending && Possible(s2) && After(s2).pending == After(s1).pending;
    assert Possible(s3) && 0 in After(s3).pending && 1 in After(s3).pending;
    assert Possible(s4) && After(s4).pending == After(s3).pending - {0};
    assert Possible(s5);
    assert Made(s1, c) == 0 && Made(s2, c) == Made(s3, c) == Made(s4, c) == 1;
    assert !NoIncrementInsideASync(s2, c) && !NoIncrementInsideASync(s3, c) && !NoIncrementInsideASync(s4, c);
    assert SurvivingSyncsAreQuiet(s1, c) && SurvivingSyncsAreQuiet(s2, c);
    assert QuietSinceRead(s3, c, 1);
    assert QuietSinceRead(s4, c, 1);
    CounterIsExactIff(s5, c);
  }

  // ----- The snapshot -----

  // What the latest write since the key last expired wrote beside the counters.
  ghost function LatestSnapshot(steps: seq<Step>): Option<Snapshot> {
    if steps == [] then None
    else
      match Last(steps)
      case SyncWrite(_, snapshot) => Some(snapshot)
      case Expire => None
      case _ => LatestSnapshot(Front(steps))
  }

  /** The hash shows the queue as the latest write saw it. */
  lemma {:induction false} SnapshotIsTheLatest(steps: seq<Step>)
    requires Possible(steps)
    ensures After(steps).hash.snapshot == LatestSnapshot(steps)
  {
    if steps != [] {
      SnapshotIsTheLatest(Front(steps));
    }
  }
}
