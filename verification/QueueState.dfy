/** The queue classification of backend/app/runtime/queue_state.py. */
module QueueState {

  datatype Pressure = Nominal | Elevated | Saturated

  datatype Alert = Clear | Watch | Backlog | Stalled

  const SCRAPING_QUEUE := "arq:queue:scraping"
  const ANALYSIS_QUEUE := "arq:queue:analysis"
  const OPS_QUEUE := "arq:queue:ops"

  // The depths at which a queue counts as elevated and as saturated.
  function PressureThresholds(queueName: string): (int, int) {
    if queueName == SCRAPING_QUEUE then (10, 25)
    else if queueName == ANALYSIS_QUEUE then (20, 50)
    else if queueName == OPS_QUEUE then (5, 15)
    else (10, 25)
  }

  // The ages, in seconds, at which a queue is watched and at which it counts as stalled.
  function AlertAgeThresholds(queueName: string): (int, int) {
    if queueName == SCRAPING_QUEUE then (300, 1200)
    else if queueName == ANALYSIS_QUEUE then (180, 900)
    else if queueName == OPS_QUEUE then (120, 600)
    else (180, 900)
  }

  datatype QueueSnapshot = QueueSnapshot(queueName: string, queueDepth: int, queuePressure: Pressure,
                                         oldestJobAgeSeconds: int, queueAlert: Alert)

  function ClassifyQueuePressure(queueName: string, depth: int): Pressure {
    var (elevated, saturated) := PressureThresholds(queueName);
    if depth >= saturated then Saturated else if depth >= elevated then Elevated else Nominal
  }

  function ClassifyQueueAlert(queueName: string, pressure: Pressure, oldestJobAgeSeconds: int): Alert {
    var (watch, stalled) := AlertAgeThresholds(queueName);
    if oldestJobAgeSeconds >= stalled then Stalled
    else if pressure == Saturated then Backlog
    else if pressure == Elevated || oldestJobAgeSeconds >= watch then Watch
    else Clear
  }

  /** `capture_queue_snapshot`, for the depth and age that Redis reports. */
  function Capture(queueName: string, depth: int, oldestJobAgeSeconds: int): QueueSnapshot {
    var pressure := ClassifyQueuePressure(queueName, depth);
    QueueSnapshot(queueName, depth, pressure, oldestJobAgeSeconds,
                  ClassifyQueueAlert(queueName, pressure, oldestJobAgeSeconds))
  }

  function DeriveOverallPressure(pressures: set<Pressure>): Pressure {
    if Saturated in pressures then Saturated
    else if Elevated in pressures then Elevated
    else Nominal
  }

  function DeriveOverallAlert(alerts: set<Alert>): Alert {
    if Stalled in alerts then Stalled
    else if Backlog in alerts then Backlog
    else if Watch in alerts then Watch
    else Clear
  }

  // ----- Severity -----

  function PressureRank(p: Pressure): nat {
    match p
    case Nominal => 0
    case Elevated => 1
    case Saturated => 2
  }

  function AlertRank(a: Alert): nat {
    match a
    case Clear => 0
    case Watch => 1
    case Backlog => 2
    case Stalled => 3
  }

  /** The overall alert and pressure are the most severe ones of the queues, and the mildest for no queue. */
  lemma OverallIsMostSevere(alerts: set<Alert>, pressures: set<Pressure>)
    ensures forall a :: a in alerts ==> AlertRank(a) <= AlertRank(DeriveOverallAlert(alerts))
    ensures if alerts == {} then DeriveOverallAlert(alerts) == Clear else DeriveOverallAlert(alerts) in alerts
    ensures forall p :: p in pressures ==> PressureRank(p) <= PressureRank(DeriveOverallPressure(pressures))
    ensures if pressures == {} then DeriveOverallPressure(pressures) == Nominal
            else DeriveOverallPressure(pressures) in pressures
  {
    if alerts != {} {
      var a :| a in alerts;
      assert a.Clear? || a.Watch? || a.Backlog? || a.Stalled?;
    }
    if pressures != {} {
      var p :| p in pressures;
      assert p.Nominal? || p.Elevated? || p.Saturated?;
    }
  }

  /** Classification never gets milder as a queue grows deeper or its oldest job older. */
  lemma ClassificationIsMonotone(queueName: string, depth: int, age: int, depth': int, age': int)
    requires depth <= depth' && age <= age'
    ensures PressureRank(ClassifyQueuePressure(queueName, depth)) <= PressureRank(ClassifyQueuePressure(queueName, depth'))
    ensures AlertRank(Capture(queueName, depth, age).queueAlert) <= AlertRank(Capture(queueName, depth', age').queueAlert)
  {
  }

  // From which depth a queue is elevated and saturated, and from which age it is watched and stalled.
  datatype Limits = Limits(elevated: int, saturated: int, watched: int, stalled: int)

  ghost predicate HasLimits(queueName: string, l: Limits) {
    && (queueName == "arq:queue:scraping" ==> l == Limits(10, 25, 300, 1200))
    && (queueName == "arq:queue:analysis" ==> l == Limits(20, 50, 180, 900))
    && (queueName == "arq:queue:ops" ==> l == Limits(5, 15, 120, 600))
    && (queueName !in ["arq:queue:scraping", "arq:queue:analysis", "arq:queue:ops"] ==> l == Limits(10, 25, 180, 900))
  }

  /** Exactly when a captured queue has each pressure and each alert. */
  lemma CapturedLevelsIff(queueName: string, depth: int, age: int, l: Limits)
    requires HasLimits(queueName, l)
    ensures var s := Capture(queueName, depth, age);
      && s.queueName == queueName && s.queueDepth == depth && s.oldestJobAgeSeconds == age
      && (s.queuePressure == Saturated <==> depth >= l.saturated)
      && (s.queuePressure == Elevated <==> l.elevated <= depth < l.saturated)
      && (s.queueAlert == Stalled <==> age >= l.stalled)
      && (s.queueAlert == Backlog <==> age < l.stalled && depth >= l.saturated)
      && (s.queueAlert == Watch <==> age < l.stalled && depth < l.saturated && (depth >= l.elevated || age >= l.watched))
  {
    assert SCRAPING_QUEUE == "arq:queue:scraping" && ANALYSIS_QUEUE == "arq:queue:analysis" && OPS_QUEUE == "arq:queue:ops";
  }
}
