/**
 The scheduler heartbeat: the text written by `_record_health` of backend/app/runtime/scheduler.py, and
 the reader and checks of backend/app/runtime/healthcheck.py.
 */
module SchedulerHealth {
  import opened Wrappers
  import opened Text
  import opened Decimal
  import opened QueueState

  function PressureName(p: Pressure): string {
    match p
    case Nominal => "nominal"
    case Elevated => "elevated"
    case Saturated => "saturated"
  }

  function AlertName(a: Alert): string {
    match a
    case Clear => "clear"
    case Watch => "watch"
    case Backlog => "backlog"
    case Stalled => "stalled"
  }

  // Membership in VALID_QUEUE_PRESSURES and VALID_QUEUE_ALERTS.
  function ReadPressure(s: string): Option<Pressure> {
    if s == "nominal" then Some(Nominal)
    else if s == "elevated" then Some(Elevated)
    else if s == "saturated" then Some(Saturated)
    else None
  }

  function ReadAlert(s: string): Option<Alert> {
    if s == "clear" then Some(Clear)
    else if s == "watch" then Some(Watch)
    else if s == "backlog" then Some(Backlog)
    else if s == "stalled" then Some(Stalled)
    else None
  }

  // ----- Writing -----

  datatype Entry = Entry(key: string, value: string)

  function Depths(snapshots: seq<QueueSnapshot>): seq<Entry>
    requires forall s :: s in snapshots ==> s.queueDepth >= 0
  {
    seq(|snapshots|, i requires 0 <= i < |snapshots| =>
      Entry(snapshots[i].queueName, Print(snapshots[i].queueDepth)))
  }

  function Pressures(snapshots: seq<QueueSnapshot>): seq<Entry> {
    seq(|snapshots|, i requires 0 <= i < |snapshots| =>
      Entry(PressureKey(snapshots[i].queueName), PressureName(snapshots[i].queuePressure)))
  }

  function Alerts(snapshots: seq<QueueSnapshot>): seq<Entry> {
    seq(|snapshots|, i requires 0 <= i < |snapshots| =>
      Entry(AlertKey(snapshots[i].queueName), AlertName(snapshots[i].queueAlert)))
  }

  function Ages(snapshots: seq<QueueSnapshot>): seq<Entry>
    requires forall s :: s in snapshots ==> s.oldestJobAgeSeconds >= 0
  {
    seq(|snapshots|, i requires 0 <= i < |snapshots| =>
      Entry(AgeKey(snapshots[i].queueName), Print(snapshots[i].oldestJobAgeSeconds)))
  }

  function PressureKey(queueName: string): string {
    queueName + ".pressure"
  }

  function AlertKey(queueName: string): string {
    queueName + ".alert"
  }

  function AgeKey(queueName: string): string {
    queueName + ".oldest_job_age_seconds"
  }

  ghost predicate Measured(snapshots: seq<QueueSnapshot>) {
    forall s :: s in snapshots ==> s.queueDepth >= 0 && s.oldestJobAgeSeconds >= 0
  }

  function Entries(snapshots: seq<QueueSnapshot>): seq<Entry>
    requires Measured(snapshots)
  {
    [Entry("scheduler_running", "1"),
     Entry("overall_pressure", PressureName(DeriveOverallPressure(set s | s in snapshots :: s.queuePressure))),
     Entry("overall_alert", AlertName(DeriveOverallAlert(set s | s in snapshots :: s.queueAlert)))]
    + Depths(snapshots) + Pressures(snapshots) + Alerts(snapshots) + Ages(snapshots)
  }

  function Token(e: Entry): string {
    e.key + "=" + e.value
  }

  function Tokens(entries: seq<Entry>): seq<string> {
    seq(|entries|, i requires 0 <= i < |entries| => Token(entries[i]))
  }

  /** The heartbeat text. */
  function Payload(capturedAt: string, snapshots: seq<QueueSnapshot>): string
    requires Measured(snapshots)
  {
    Join([capturedAt] + Tokens(Entries(snapshots)))
  }

  // ----- Reading -----

  // One token put into the dictionary; a later token with the same key wins.
  function WithToken(fields: map<string, string>, token: string): map<string, string> {
    if '=' !in token then fields
    else fields[token[..IndexOf(token, '=')] := AfterEquals(token)]
  }

  function AfterEquals(token: string): string
    requires '=' in token
  {
    IndexOfMember(token, '=');
    token[IndexOf(token, '=') + 1..]
  }

  lemma {:induction false} IndexOfMember(s: string, c: char)
    ensures c in s <==> IndexOf(s, c) < |s|
  {
    if s != "" && s[0] != c {
      IndexOfMember(s[1..], c);
      assert s == [s[0]] + s[1..];
    }
  }

  function FieldsOf(tokens: seq<string>): map<string, string> {
    if tokens == [] then map[] else WithToken(FieldsOf(tokens[..|tokens| - 1]), tokens[|tokens| - 1])
  }

  method ParseHealthFields(text: string) returns (fields: map<string, string>)
    ensures fields == FieldsOf(SplitWords(text))
  {
    fields := map[];
    var tokens := SplitWords(text);
    for i := 0 to |tokens|
      invariant fields == FieldsOf(tokens[..i])
    {
      assert tokens[..i + 1][..i] == tokens[..i];
      var token := tokens[i];
      if '=' !in token {
        continue;
      }
      fields := fields[token[..IndexOf(token, '=')] := AfterEquals(token)];
    }
    assert tokens[..|tokens|] == tokens;
  }

  // ----- Checking -----

  datatype Problem =
    | NotRunning
    | MissingOverallPressure | InvalidOverallPressure
    | MissingOverallAlert | InvalidOverallAlert
    | MissingDepth(queue: string)
    | NotAnInteger(field: string) | Negative(field: string)
    | MissingPressure(queue: string) | InvalidPressure(queue: string)
    | MissingAge(queue: string)
    | MissingAlert(queue: string) | InvalidAlert(queue: string) | InconsistentAlert(queue: string)
    | OverallPressureMismatch | OverallAlertMismatch

  function Field(fields: map<string, string>, key: string): Option<string> {
    if key in fields then Some(fields[key]) else None
  }

  function ParseNonNegativeInt(value: string, field: string): Result<nat, Problem> {
    match ParseInt(value)
    case None => Err(NotAnInteger(field))
    case Some(n) => if n < 0 then Err(Negative(field)) else Ok(n)
  }

  // What one queue's fields amount to, checked in the order of the code.
  function CheckQueue(fields: map<string, string>, q: string): Result<(Pressure, Alert), Problem> {
    if q !in fields then Err(MissingDepth(q))
    else
      match ParseNonNegativeInt(fields[q], q)
      case Err(e) => Err(e)
      case Ok(_) =>
        if PressureKey(q) !in fields then Err(MissingPressure(q))
        else
          match ReadPressure(fields[PressureKey(q)])
          case None => Err(InvalidPressure(q))
          case Some(pressure) =>
            if AgeKey(q) !in fields then Err(MissingAge(q))
            else
              match ParseNonNegativeInt(fields[AgeKey(q)], AgeKey(q))
              case Err(e) => Err(e)
              case Ok(age) =>
                if AlertKey(q) !in fields then Err(MissingAlert(q))
                else
                  match ReadAlert(fields[AlertKey(q)])
                  case None => Err(InvalidAlert(q))
                  case Some(alert) =>
                    if alert != ClassifyQueueAlert(q, pressure, age) then Err(InconsistentAlert(q))
                    else Ok((pressure, alert))
  }

  /** `_check_scheduler`, on the parsed fields and the registered queue names. */
  method CheckScheduler(fields: map<string, string>, queueNames: seq<string>) returns (problem: Option<Problem>)
    ensures problem == FirstProblem(fields, queueNames)
  {
    hide CheckQueue, ReadPressure, ReadAlert;
    if Field(fields, "scheduler_running") != Some("1") {
      return Some(NotRunning);
    }
    var overallPressure := Field(fields, "overall_pressure");
    if overallPressure.None? {
      return Some(MissingOverallPressure);
    }
    if ReadPressure(overallPressure.value).None? {
      return Some(InvalidOverallPressure);
    }
    var overallAlert := Field(fields, "overall_alert");
    if overallAlert.None? {
      return Some(MissingOverallAlert);
    }
    if ReadAlert(overallAlert.value).None? {
      return Some(InvalidOverallAlert);
    }
    var pressures, alerts;
    problem, pressures, alerts := CheckQueues(fields, queueNames);
    if problem.Some? {
      return;
    }
    if ReadPressure(overallPressure.value) != Some(DeriveOverallPressure(pressures.Values)) {
      return Some(OverallPressureMismatch);
    }
    if ReadAlert(overallAlert.value) != Some(DeriveOverallAlert(alerts.Values)) {
      return Some(OverallAlertMismatch);
    }
  }

  // The loop over the queues, which fills the two dictionaries.
  method CheckQueues(fields: map<string, string>, queueNames: seq<string>)
      returns (problem: Option<Problem>, pressures: map<string, Pressure>, alerts: map<string, Alert>)
    ensures problem == QueueProblem(fields, queueNames)
    ensures problem.None? ==>
      pressures.Values == QueuePressures(fields, queueNames) && alerts.Values == QueueAlerts(fields, queueNames)
  {
    hide CheckQueue;
    pressures, alerts := map[], map[];
    for i := 0 to |queueNames|
      invariant forall k :: 0 <= k < i ==> CheckQueue(fields, queueNames[k]).Ok?
      invariant forall q :: q in pressures <==> q in queueNames[..i]
      invariant forall q :: q in alerts <==> q in queueNames[..i]
      invariant forall q :: q in queueNames[..i] ==> CheckQueue(fields, q) == Ok((pressures[q], alerts[q]))
    {
      var q := queueNames[i];
      var checked := CheckQueue(fields, q);
      if checked.Err? {
        FirstFailingQueue(fields, queueNames, i);
        return Some(checked.error), pressures, alerts;
      }
      pressures := pressures[q := checked.value.0];
      alerts := alerts[q := checked.value.1];
    }
    NoFailingQueue(fields, queueNames);
    assert queueNames[..|queueNames|] == queueNames;
    ValuesAreTheQueues(fields, queueNames, pressures, alerts);
    problem := None;
  }

  // What a heartbeat must say to be accepted.
  ghost predicate Healthy(fields: map<string, string>, queueNames: seq<string>) {
    && Field(fields, "scheduler_running") == Some("1")
    && "overall_pressure" in fields && "overall_alert" in fields
    && (forall q :: q in queueNames ==> CheckQueue(fields, q).Ok?)
    && ReadPressure(fields["overall_pressure"]) == Some(DeriveOverallPressure(QueuePressures(fields, queueNames)))
    && ReadAlert(fields["overall_alert"]) == Some(DeriveOverallAlert(QueueAlerts(fields, queueNames)))
  }

  ghost function QueuePressures(fields: map<string, string>, queueNames: seq<string>): set<Pressure> {
    set q | q in queueNames && CheckQueue(fields, q).Ok? :: CheckQueue(fields, q).value.0
  }

  ghost function QueueAlerts(fields: map<string, string>, queueNames: seq<string>): set<Alert> {
    set q | q in queueNames && CheckQueue(fields, q).Ok? :: CheckQueue(fields, q).value.1
  }

  // The problem reported: the first check that fails, queue by queue.
  ghost function FirstProblem(fields: map<string, string>, queueNames: seq<string>): Option<Problem> {
    var pressure, alert := Field(fields, "overall_pressure"), Field(fields, "overall_alert");
    if Field(fields, "scheduler_running") != Some("1") then Some(NotRunning)
    else if pressure.None? then Some(MissingOverallPressure)
    else if ReadPressure(pressure.value).None? then Some(InvalidOverallPressure)
    else if alert.None? then Some(MissingOverallAlert)
    else if ReadAlert(alert.value).None? then Some(InvalidOverallAlert)
    else if QueueProblem(fields, queueNames).Some? then QueueProblem(fields, queueNames)
    else if ReadPressure(pressure.value) != Some(DeriveOverallPressure(QueuePressures(fields, queueNames))) then
      Some(OverallPressureMismatch)
    else if ReadAlert(alert.value) != Some(DeriveOverallAlert(QueueAlerts(fields, queueNames))) then
      Some(OverallAlertMismatch)
    else None
  }

  ghost function QueueProblem(fields: map<string, string>, queueNames: seq<string>): Option<Problem> {
    if queueNames == [] then None
    else
      match CheckQueue(fields, queueNames[0])
      case Err(e) => Some(e)
      case Ok(_) => QueueProblem(fields, queueNames[1..])
  }

  lemma {:induction false} FirstFailingQueue(fields: map<string, string>, queueNames: seq<string>, i: nat)
    requires i < |queueNames| && CheckQueue(fields, queueNames[i]).Err?
    requires forall k :: 0 <= k < i ==> CheckQueue(fields, queueNames[k]).Ok?
    ensures QueueProblem(fields, queueNames) == Some(CheckQueue(fields, queueNames[i]).error)
  {
    hide CheckQueue;
    if i > 0 {
      FirstFailingQueue(fields, queueNames[1..], i - 1);
    }
  }

  lemma {:induction false} NoFailingQueue(fields: map<string, string>, queueNames: seq<string>)
    requires forall k :: 0 <= k < |queueNames| ==> CheckQueue(fields, queueNames[k]).Ok?
    ensures QueueProblem(fields, queueNames) == None
  {
    hide CheckQueue;
    if queueNames != [] {
      NoFailingQueue(fields, queueNames[1..]);
    }
  }

  lemma ValuesAreTheQueues(fields: map<string, string>, queueNames: seq<string>,
                           pressures: map<string, Pressure>, alerts: map<string, Alert>)
    requires forall q :: q in pressures <==> q in queueNames
    requires forall q :: q in alerts <==> q in queueNames
    requires forall q :: q in queueNames ==> CheckQueue(fields, q) == Ok((pressures[q], alerts[q]))
    ensures pressures.Values == QueuePressures(fields, queueNames)
    ensures alerts.Values == QueueAlerts(fields, queueNames)
  {
    hide CheckQueue;
    forall p | p in pressures.Values
      ensures p in QueuePressures(fields, queueNames)
    {
      var q :| q in pressures && pressures[q] == p;
      assert q in queueNames;
    }
    forall a | a in alerts.Values
      ensures a in QueueAlerts(fields, queueNames)
    {
      var q :| q in alerts && alerts[q] == a;
      assert q in queueNames;
    }
  }

  lemma {:induction false} NoQueueProblemIff(fields: map<string, string>, queueNames: seq<string>)
    ensures QueueProblem(fields, queueNames).None? <==> forall q :: q in queueNames ==> CheckQueue(fields, q).Ok?
  {
    hide CheckQueue;
    if queueNames != [] {
      NoQueueProblemIff(fields, queueNames[1..]);
      assert queueNames == [queueNames[0]] + queueNames[1..];
    }
  }

  /** The check passes exactly the healthy heartbeats. */
  lemma PassesIffHealthy(fields: map<string, string>, queueNames: seq<string>)
    ensures FirstProblem(fields, queueNames).None? <==> Healthy(fields, queueNames)
  {
    hide CheckQueue, ReadPressure, ReadAlert;
    NoQueueProblemIff(fields, queueNames);
  }

  // What the heartbeat records about one queue.
  function RecordedPressure(fields: map<string, string>, q: string): Option<Pressure> {
    if PressureKey(q) in fields then ReadPressure(fields[PressureKey(q)]) else None
  }

  function RecordedAlert(fields: map<string, string>, q: string): Option<Alert> {
    if AlertKey(q) in fields then ReadAlert(fields[AlertKey(q)]) else None
  }

  function RecordedAge(fields: map<string, string>, q: string): Option<int> {
    if AgeKey(q) in fields then ParseInt(fields[AgeKey(q)]) else None
  }

  lemma CheckedQueueRecords(fields: map<string, string>, q: string)
    ensures CheckQueue(fields, q).Ok? <==>
      (&& q in fields && ParseInt(fields[q]).Some? && ParseInt(fields[q]).value >= 0
       && RecordedPressure(fields, q).Some?
       && RecordedAge(fields, q).Some? && RecordedAge(fields, q).value >= 0
       && RecordedAlert(fields, q) == Some(ClassifyQueueAlert(
            q, RecordedPressure(fields, q).value, RecordedAge(fields, q).value)))
    ensures CheckQueue(fields, q).Ok? ==>
      CheckQueue(fields, q).value == (RecordedPressure(fields, q).value, RecordedAlert(fields, q).value)
  {
    hide ReadPressure, ReadAlert, ParseInt, ClassifyQueueAlert;
  }

  /** A heartbeat that passes names the most severe alert of its queues, and each of those alerts is the right one. */
  lemma AcceptedOverallAlertIsMaximal(fields: map<string, string>, queueNames: seq<string>)
    requires FirstProblem(fields, queueNames).None?
    ensures "overall_alert" in fields && ReadAlert(fields["overall_alert"]).Some?
    ensures forall q :: q in queueNames ==>
      && RecordedPressure(fields, q).Some? && RecordedAge(fields, q).Some?
      && RecordedAlert(fields, q) == Some(ClassifyQueueAlert(
           q, RecordedPressure(fields, q).value, RecordedAge(fields, q).value))
      && AlertRank(RecordedAlert(fields, q).value) <= AlertRank(ReadAlert(fields["overall_alert"]).value)
    ensures queueNames != [] ==>
      exists q :: q in queueNames && RecordedAlert(fields, q) == ReadAlert(fields["overall_alert"])
  {
    hide CheckQueue, ReadPressure, ReadAlert, ParseInt, ClassifyQueueAlert, AlertRank, DeriveOverallAlert;
    PassesIffHealthy(fields, queueNames);
    var alerts := QueueAlerts(fields, queueNames);
    OverallIsMostSevere(alerts, {});
    forall q | q in queueNames
      ensures CheckQueue(fields, q).value.1 in alerts
      ensures RecordedAlert(fields, q) == Some(CheckQueue(fields, q).value.1)
    {
      CheckedQueueRecords(fields, q);
    }
    forall q | q in queueNames
      ensures RecordedPressure(fields, q).Some? && RecordedAge(fields, q).Some?
      ensures RecordedAlert(fields, q) == Some(ClassifyQueueAlert(
        q, RecordedPressure(fields, q).value, RecordedAge(fields, q).value))
    {
      CheckedQueueRecords(fields, q);
    }
    if queueNames != [] {
      assert CheckQueue(fields, queueNames[0]).value.1 in alerts;
    }
  }

  // ----- The round trip -----

  ghost predicate DistinctKeys(entries: seq<Entry>) {
    forall i, j :: 0 <= i < j < |entries| ==> entries[i].key != entries[j].key
  }

  // A token that `split` leaves in one piece and whose first '=' is the one that was written.
  ghost predicate Readable(e: Entry) {
    IsWord(Token(e)) && '=' !in e.key
  }

  lemma TokenReadsBack(e: Entry)
    requires '=' !in e.key
    ensures '=' in Token(e)
    ensures Token(e)[..IndexOf(Token(e), '=')] == e.key && AfterEquals(Token(e)) == e.value
  {
    assert Token(e) == e.key + ['='] + e.value;
    IndexOfSeparator('=', e.key, e.value);
    assert Token(e)[|e.key|] == '=';
  }

  lemma FieldsWithEntry(tokens: seq<string>, e: Entry)
    requires '=' !in e.key
    ensures FieldsOf(tokens + [Token(e)]) == FieldsOf(tokens)[e.key := e.value]
  {
    assert (tokens + [Token(e)])[..|tokens|] == tokens;
    TokenReadsBack(e);
  }

  lemma {:induction false} EntriesReadBack(first: string, entries: seq<Entry>)
    requires '=' !in first && DistinctKeys(entries)
    requires forall e :: e in entries ==> '=' !in e.key
    ensures var fields := FieldsOf([first] + Tokens(entries));
      && (forall e :: e in entries ==> e.key in fields && fields[e.key] == e.value)
      && (forall k :: k in fields ==> exists e :: e in entries && e.key == k)
  {
    if entries == [] {
      assert [first] + Tokens(entries) == [first];
      assert [first][..0] == [];
    } else {
      hide FieldsOf, Token;
      var n := |entries| - 1;
      var shorter, last := entries[..n], entries[n];
      assert [first] + Tokens(entries) == [first] + Tokens(shorter) + [Token(last)];
      assert entries == shorter + [last];
      EntriesReadBack(first, shorter);
      FieldsWithEntry([first] + Tokens(shorter), last);
    }
  }

  // Queue names that the text form can carry: no white space, no '=', and no two fields with one key.
  ghost predicate Carriable(snapshots: seq<QueueSnapshot>)
    requires Measured(snapshots)
  {
    && (forall s :: s in snapshots ==> IsWord(s.queueName) && '=' !in s.queueName)
    && DistinctKeys(Entries(snapshots))
  }

  lemma EntryIsReadable(key: string, value: string)
    requires '=' !in key && (forall c :: c in key ==> !IsSpace(c)) && (forall c :: c in value ==> !IsSpace(c))
    ensures Readable(Entry(key, value))
  {
  }

  lemma NamesHaveNoSpaces(p: Pressure, a: Alert, n: nat)
    ensures forall c :: c in PressureName(p) ==> !IsSpace(c)
    ensures forall c :: c in AlertName(a) ==> !IsSpace(c)
    ensures forall c :: c in Print(n) ==> !IsSpace(c)
  {
  }

  lemma NamesReadBack(p: Pressure, a: Alert)
    ensures ReadPressure(PressureName(p)) == Some(p) && ReadAlert(AlertName(a)) == Some(a)
  {
  }

  lemma SuffixesAreReadable(q: string)
    requires IsWord(q) && '=' !in q
    ensures forall k :: k in {PressureKey(q), AlertKey(q), AgeKey(q)} ==>
      '=' !in k && forall c :: c in k ==> !IsSpace(c)
  {
    assert forall c :: c in ".pressure" || c in ".alert" || c in ".oldest_job_age_seconds" ==>
      c == '.' || c == '_' || 'a' <= c <= 'z';
    forall k, c | k in {PressureKey(q), AlertKey(q), AgeKey(q)} && c in k
      ensures c != '=' && !IsSpace(c)
    {
      assert c in q || c in ".pressure" || c in ".alert" || c in ".oldest_job_age_seconds";
    }
  }

  lemma EntriesAreReadable(snapshots: seq<QueueSnapshot>)
    requires Measured(snapshots)
    requires forall s :: s in snapshots ==> IsWord(s.queueName) && '=' !in s.queueName
    ensures forall e :: e in Entries(snapshots) ==> Readable(e)
  {
    hide Readable, PressureKey, AlertKey, AgeKey, Print, PressureName, AlertName, IsSpace;
    var p := DeriveOverallPressure(set s | s in snapshots :: s.queuePressure);
    var a := DeriveOverallAlert(set s | s in snapshots :: s.queueAlert);
    HeaderIsReadable(p, a);
    forall i | 0 <= i < |snapshots|
      ensures Readable(Depths(snapshots)[i]) && Readable(Pressures(snapshots)[i])
      ensures Readable(Alerts(snapshots)[i]) && Readable(Ages(snapshots)[i])
    {
      var s := snapshots[i];
      SuffixesAreReadable(s.queueName);
      NamesHaveNoSpaces(s.queuePressure, s.queueAlert, s.queueDepth);
      NamesHaveNoSpaces(s.queuePressure, s.queueAlert, s.oldestJobAgeSeconds);
      EntryIsReadable(s.queueName, Print(s.queueDepth));
      EntryIsReadable(PressureKey(s.queueName), PressureName(s.queuePressure));
      EntryIsReadable(AlertKey(s.queueName), AlertName(s.queueAlert));
      EntryIsReadable(AgeKey(s.queueName), Print(s.oldestJobAgeSeconds));
    }
  }

  lemma HeaderIsReadable(p: Pressure, a: Alert)
    ensures Readable(Entry("scheduler_running", "1"))
    ensures Readable(Entry("overall_pressure", PressureName(p)))
    ensures Readable(Entry("overall_alert", AlertName(a)))
  {
    NamesHaveNoSpaces(p, a, 1);
    assert Print(1) == "1";
    assert {"scheduler_running", "overall_pressure", "overall_alert"} == HEADER_KEYS;
    HeaderKeysArePlain("scheduler_running");
    HeaderKeysArePlain("overall_pressure");
    HeaderKeysArePlain("overall_alert");
    hide Readable, Print, IsSpace, PressureName, AlertName, HEADER_KEYS;
    EntryIsReadable("scheduler_running", "1");
    EntryIsReadable("overall_pressure", PressureName(p));
    EntryIsReadable("overall_alert", AlertName(a));
  }

  const HEADER_KEYS: set<string> := {"scheduler_running", "overall_pressure", "overall_alert"}

  lemma HeaderKeysArePlain(k: string)
    requires k in HEADER_KEYS
    ensures '.' !in k && '=' !in k && forall c :: c in k ==> !IsSpace(c)
  {
    assert k == "scheduler_running" || k == "overall_pressure" || k == "overall_alert";
    assert forall c :: c in k ==> 'a' <= c <= 'z' || c == '_';
  }

  lemma PayloadSplits(capturedAt: string, snapshots: seq<QueueSnapshot>)
    requires IsWord(capturedAt) && Measured(snapshots)
    requires forall s :: s in snapshots ==> IsWord(s.queueName) && '=' !in s.queueName
    ensures SplitWords(Payload(capturedAt, snapshots)) == [capturedAt] + Tokens(Entries(snapshots))
  {
    hide Entries;
    var entries := Entries(snapshots);
    EntriesAreReadable(snapshots);
    forall w | w in [capturedAt] + Tokens(entries)
      ensures IsWord(w)
    {
      if w != capturedAt {
        var i :| 0 <= i < |entries| && Tokens(entries)[i] == w;
        assert Readable(entries[i]);
      }
    }
    SplitOfJoin([capturedAt] + Tokens(entries));
  }

  /** Parsing the heartbeat gives back every field that was written, and no other. */
  lemma PayloadReadsBack(capturedAt: string, snapshots: seq<QueueSnapshot>)
    requires IsWord(capturedAt) && '=' !in capturedAt
    requires Measured(snapshots) && Carriable(snapshots)
    ensures var fields := FieldsOf(SplitWords(Payload(capturedAt, snapshots)));
      && (forall e :: e in Entries(snapshots) ==> e.key in fields && fields[e.key] == e.value)
      && (forall k :: k in fields ==> exists e :: e in Entries(snapshots) && e.key == k)
  {
    hide Entries;
    PayloadSplits(capturedAt, snapshots);
    EntriesAreReadable(snapshots);
    EntriesReadBack(capturedAt, Entries(snapshots));
  }

  // A snapshot whose alert is the one its pressure and age call for, as every captured one is.
  ghost predicate Consistent(s: QueueSnapshot) {
    s.queueAlert == ClassifyQueueAlert(s.queueName, s.queuePressure, s.oldestJobAgeSeconds)
  }

  function Names(snapshots: seq<QueueSnapshot>): seq<string> {
    seq(|snapshots|, i requires 0 <= i < |snapshots| => snapshots[i].queueName)
  }

  // What the reader finds about one queue, once the fields read back.
  lemma QueueReadsBack(fields: map<string, string>, snapshots: seq<QueueSnapshot>, i: nat)
    requires Measured(snapshots) && i < |snapshots| && Consistent(snapshots[i])
    requires forall e :: e in Entries(snapshots) ==> e.key in fields && fields[e.key] == e.value
    ensures var s := snapshots[i];
      CheckQueue(fields, s.queueName) == Ok((s.queuePressure, s.queueAlert))
  {
    hide ReadPressure, ReadAlert, PressureName, AlertName, PressureKey, AlertKey, AgeKey, ClassifyQueueAlert, Print, ParseInt;
    var s := snapshots[i];
    assert Depths(snapshots)[i] in Entries(snapshots) && Pressures(snapshots)[i] in Entries(snapshots);
    assert Alerts(snapshots)[i] in Entries(snapshots) && Ages(snapshots)[i] in Entries(snapshots);
    ParseOfPrint(s.queueDepth);
    ParseOfPrint(s.oldestJobAgeSeconds);
    NamesReadBack(s.queuePressure, s.queueAlert);
  }

  /** The heartbeat written for consistent snapshots passes the health check. */
  lemma WrittenPayloadPasses(capturedAt: string, snapshots: seq<QueueSnapshot>)
    requires IsWord(capturedAt) && '=' !in capturedAt
    requires Measured(snapshots) && Carriable(snapshots) && forall s :: s in snapshots ==> Consistent(s)
    ensures FirstProblem(FieldsOf(SplitWords(Payload(capturedAt, snapshots))), Names(snapshots)).None?
  {
    hide CheckQueue, ReadPressure, ReadAlert, PressureName, AlertName, Consistent, Carriable, Payload;
    var fields, names := FieldsOf(SplitWords(Payload(capturedAt, snapshots))), Names(snapshots);
    PayloadReadsBack(capturedAt, snapshots);
    forall i | 0 <= i < |snapshots|
      ensures CheckQueue(fields, names[i]) == Ok((snapshots[i].queuePressure, snapshots[i].queueAlert))
    {
      QueueReadsBack(fields, snapshots, i);
    }
    OverallsReadBack(fields, snapshots);
    PassesIffHealthy(fields, names);
  }

  lemma OverallsReadBack(fields: map<string, string>, snapshots: seq<QueueSnapshot>)
    requires Measured(snapshots)
    requires forall e :: e in Entries(snapshots) ==> e.key in fields && fields[e.key] == e.value
    requires forall i :: 0 <= i < |snapshots| ==>
      CheckQueue(fields, Names(snapshots)[i]) == Ok((snapshots[i].queuePressure, snapshots[i].queueAlert))
    ensures Healthy(fields, Names(snapshots))
  {
    hide CheckQueue, ReadPressure, ReadAlert, PressureName, AlertName, DeriveOverallPressure, DeriveOverallAlert;
    var names := Names(snapshots);
    var pressures, alerts := set s | s in snapshots :: s.queuePressure, set s | s in snapshots :: s.queueAlert;
    assert Entries(snapshots)[0] in Entries(snapshots);
    assert Entries(snapshots)[1] in Entries(snapshots);
    assert Entries(snapshots)[2] in Entries(snapshots);
    NamesReadBack(DeriveOverallPressure(pressures), DeriveOverallAlert(alerts));
    CollectedAreWritten(fields, snapshots);
    hide QueuePressures, QueueAlerts;
    assert forall q :: q in names ==> CheckQueue(fields, q).Ok?;
  }

  lemma CollectedAreWritten(fields: map<string, string>, snapshots: seq<QueueSnapshot>)
    requires forall i :: 0 <= i < |snapshots| ==>
      CheckQueue(fields, Names(snapshots)[i]) == Ok((snapshots[i].queuePressure, snapshots[i].queueAlert))
    ensures QueuePressures(fields, Names(snapshots)) == set s | s in snapshots :: s.queuePressure
    ensures QueueAlerts(fields, Names(snapshots)) == set s | s in snapshots :: s.queueAlert
  {
    hide CheckQueue;
    var names := Names(snapshots);
    forall s | s in snapshots
      ensures s.queuePressure in QueuePressures(fields, names) && s.queueAlert in QueueAlerts(fields, names)
    {
      var i :| 0 <= i < |snapshots| && snapshots[i] == s;
      assert names[i] in names;
    }
  }

  // ----- Which queue names can be carried -----

  ghost predicate Apart(a: seq<Entry>, b: seq<Entry>) {
    forall i, j :: 0 <= i < |a| && 0 <= j < |b| ==> a[i].key != b[j].key
  }

  lemma DistinctAppend(a: seq<Entry>, b: seq<Entry>)
    ensures DistinctKeys(a + b) <==> DistinctKeys(a) && DistinctKeys(b) && Apart(a, b)
  {
    var s := a + b;
    if DistinctKeys(s) {
      forall i, j | 0 <= i < j < |a| ensures a[i].key != a[j].key {
        assert s[i] == a[i] && s[j] == a[j];
      }
      forall i, j | 0 <= i < j < |b| ensures b[i].key != b[j].key {
        assert s[|a| + i] == b[i] && s[|a| + j] == b[j];
      }
      forall i, j | 0 <= i < |a| && 0 <= j < |b| ensures a[i].key != b[j].key {
        assert s[i] == a[i] && s[|a| + j] == b[j];
      }
    }
  }

  lemma ApartAppend(a: seq<Entry>, b: seq<Entry>, c: seq<Entry>)
    ensures Apart(a + b, c) <==> Apart(a, c) && Apart(b, c)
  {
    var s := a + b;
    if Apart(s, c) {
      forall i, j | 0 <= i < |a| && 0 <= j < |c| ensures a[i].key != c[j].key {
        assert s[i] == a[i];
      }
      forall i, j | 0 <= i < |b| && 0 <= j < |c| ensures b[i].key != c[j].key {
        assert s[|a| + i] == b[i];
      }
    }
  }

  // Keys of different fields differ whatever the queues, and keys of one field differ for different queues.
  lemma FieldKeysDiffer(q: string, r: string)
    ensures PressureKey(q) != AlertKey(r) && PressureKey(q) != AgeKey(r) && AlertKey(q) != AgeKey(r)
    ensures q != r ==> PressureKey(q) != PressureKey(r) && AlertKey(q) != AlertKey(r) && AgeKey(q) != AgeKey(r)
  {
    SameTail(q, ".pressure", r, ".alert");
    SameTail(q, ".pressure", r, ".oldest_job_age_seconds");
    SameTail(q, ".alert", r, ".oldest_job_age_seconds");
    SameTail(q, ".pressure", r, ".pressure");
    SameTail(q, ".alert", r, ".alert");
    SameTail(q, ".oldest_job_age_seconds", r, ".oldest_job_age_seconds");
  }

  lemma SameTail(q: string, x: string, r: string, y: string)
    requires x != "" && y != ""
    ensures q + x == r + y ==> x[|x| - 1] == y[|y| - 1] && (x == y ==> q == r)
  {
    if q + x == r + y {
      var t := q + x;
      assert t[|t| - 1] == x[|x| - 1] && t[|t| - 1] == y[|y| - 1];
      if x == y {
        assert q == t[..|t| - |x|] == r;
      }
    }
  }

  lemma FieldKeysAreNotHeaders(q: string)
    ensures PressureKey(q) !in HEADER_KEYS && AlertKey(q) !in HEADER_KEYS && AgeKey(q) !in HEADER_KEYS
  {
    assert PressureKey(q)[|q|] == '.' && AlertKey(q)[|q|] == '.' && AgeKey(q)[|q|] == '.';
    forall k | k in HEADER_KEYS ensures '.' !in k {
      HeaderKeysArePlain(k);
    }
  }

  // No queue is called like another one, like a field of another one, or like a field of the header.
  ghost predicate NamesDoNotCollide(snapshots: seq<QueueSnapshot>) {
    && NamesDiffer(snapshots)
    && (forall s :: s in snapshots ==> s.queueName !in HEADER_KEYS)
    && NoNameIsAField(snapshots)
  }

  predicate NoFieldOf(q: string, r: string) {
    q != PressureKey(r) && q != AlertKey(r) && q != AgeKey(r)
  }

  function Header(snapshots: seq<QueueSnapshot>): seq<Entry>
    requires Measured(snapshots)
  {
    Entries(snapshots)[..3]
  }

  lemma HeaderApartIff(snapshots: seq<QueueSnapshot>)
    requires Measured(snapshots)
    ensures DistinctKeys(Header(snapshots))
    ensures Apart(Header(snapshots), Depths(snapshots)) <==> forall s :: s in snapshots ==> s.queueName !in HEADER_KEYS
    ensures Apart(Header(snapshots), Pressures(snapshots))
    ensures Apart(Header(snapshots), Alerts(snapshots)) && Apart(Header(snapshots), Ages(snapshots))
  {
    hide PressureKey, AlertKey, AgeKey, Print, PressureName, AlertName;
    var header := Header(snapshots);
    assert header[0].key == "scheduler_running" && header[1].key == "overall_pressure" && header[2].key == "overall_alert";
    forall i | 0 <= i < |snapshots|
      ensures snapshots[i].queueName in HEADER_KEYS <==> exists k :: 0 <= k < 3 && header[k].key == Depths(snapshots)[i].key
    {
      assert Depths(snapshots)[i].key == snapshots[i].queueName;
      FieldKeysAreNotHeaders(snapshots[i].queueName);
    }
    forall i | 0 <= i < |snapshots|
      ensures forall k :: 0 <= k < 3 ==>
        header[k].key != Pressures(snapshots)[i].key && header[k].key != Alerts(snapshots)[i].key
        && header[k].key != Ages(snapshots)[i].key
    {
      FieldKeysAreNotHeaders(snapshots[i].queueName);
    }
  }

  lemma FieldsAreApart(snapshots: seq<QueueSnapshot>)
    requires Measured(snapshots)
    ensures Apart(Pressures(snapshots), Alerts(snapshots))
    ensures Apart(Pressures(snapshots), Ages(snapshots)) && Apart(Alerts(snapshots), Ages(snapshots))
  {
    hide PressureKey, AlertKey, AgeKey, Print, PressureName, AlertName;
    forall i, j | 0 <= i < |snapshots| && 0 <= j < |snapshots|
      ensures Pressures(snapshots)[i].key != Alerts(snapshots)[j].key
      ensures Pressures(snapshots)[i].key != Ages(snapshots)[j].key && Alerts(snapshots)[i].key != Ages(snapshots)[j].key
    {
      FieldKeysDiffer(snapshots[i].queueName, snapshots[j].queueName);
    }
  }

  ghost predicate NamesDiffer(snapshots: seq<QueueSnapshot>) {
    forall i, j :: 0 <= i < j < |snapshots| ==> snapshots[i].queueName != snapshots[j].queueName
  }

  lemma BlocksAreDistinctIff(snapshots: seq<QueueSnapshot>)
    requires Measured(snapshots)
    ensures DistinctKeys(Depths(snapshots)) <==> NamesDiffer(snapshots)
    ensures NamesDiffer(snapshots) ==>
      DistinctKeys(Pressures(snapshots)) && DistinctKeys(Alerts(snapshots)) && DistinctKeys(Ages(snapshots))
  {
    hide PressureKey, AlertKey, AgeKey, Print, PressureName, AlertName;
    var depths := Depths(snapshots);
    assert forall i :: 0 <= i < |snapshots| ==> depths[i].key == snapshots[i].queueName;
    forall i, j | 0 <= i < j < |snapshots| && snapshots[i].queueName != snapshots[j].queueName
      ensures Pressures(snapshots)[i].key != Pressures(snapshots)[j].key
      ensures Alerts(snapshots)[i].key != Alerts(snapshots)[j].key && Ages(snapshots)[i].key != Ages(snapshots)[j].key
    {
      FieldKeysDiffer(snapshots[i].queueName, snapshots[j].queueName);
    }
  }

  ghost predicate NoNameIsAField(snapshots: seq<QueueSnapshot>) {
    forall i, j :: 0 <= i < |snapshots| && 0 <= j < |snapshots| ==>
      NoFieldOf(snapshots[i].queueName, snapshots[j].queueName)
  }

  lemma DepthsAreApartIff(snapshots: seq<QueueSnapshot>)
    requires Measured(snapshots)
    ensures var depths := Depths(snapshots);
      Apart(depths, Pressures(snapshots)) && Apart(depths, Alerts(snapshots)) && Apart(depths, Ages(snapshots)) <==>
      NoNameIsAField(snapshots)
  {
    hide PressureKey, AlertKey, AgeKey, Print, PressureName, AlertName;
    var depths, pressures, alerts, ages := Depths(snapshots), Pressures(snapshots), Alerts(snapshots), Ages(snapshots);
    forall i, j | 0 <= i < |snapshots| && 0 <= j < |snapshots|
      ensures NoFieldOf(snapshots[i].queueName, snapshots[j].queueName) <==>
        depths[i].key != pressures[j].key && depths[i].key != alerts[j].key && depths[i].key != ages[j].key
    {
    }
  }

  /** Exactly which queue names the text can carry. */
  lemma CarriableIff(snapshots: seq<QueueSnapshot>)
    requires Measured(snapshots)
    ensures Carriable(snapshots) <==>
      (forall s :: s in snapshots ==> IsWord(s.queueName) && '=' !in s.queueName) && NamesDoNotCollide(snapshots)
  {
    hide Depths, Pressures, Alerts, Ages, DistinctKeys, Apart, NamesDiffer, NoNameIsAField;
    var header := Header(snapshots);
    var depths, pressures, alerts, ages := Depths(snapshots), Pressures(snapshots), Alerts(snapshots), Ages(snapshots);
    assert Entries(snapshots) == header + depths + pressures + alerts + ages;
    HeaderApartIff(snapshots);
    FieldsAreApart(snapshots);
    BlocksAreDistinctIff(snapshots);
    DepthsAreApartIff(snapshots);
    DistinctAppend(header, depths);
    ApartAppend(header, depths, pressures);
    DistinctAppend(header + depths, pressures);
    ApartAppend(header, depths, alerts);
    ApartAppend(header + depths, pressures, alerts);
    DistinctAppend(header + depths + pressures, alerts);
    ApartAppend(header, depths, ages);
    ApartAppend(header + depths, pressures, ages);
    ApartAppend(header + depths + pressures, alerts, ages);
    DistinctAppend(header + depths + pressures + alerts, ages);
  }

  // ----- What becomes of a queue that is called like a field of another -----

  // The last entry of a key is the one that is read.
  lemma {:induction false} LastEntryWins(first: string, before: seq<Entry>, e: Entry, after: seq<Entry>)
    requires '=' !in first && '=' !in e.key
    requires forall x :: x in before || x in after ==> '=' !in x.key
    requires forall x :: x in after ==> x.key != e.key
    ensures var fields := FieldsOf([first] + Tokens(before + [e] + after));
      e.key in fields && fields[e.key] == e.value
    decreases |after|
  {
    hide FieldsOf, Token;
    if after == [] {
      assert [first] + Tokens(before + [e] + after) == [first] + Tokens(before) + [Token(e)];
      FieldsWithEntry([first] + Tokens(before), e);
    } else {
      var n := |after| - 1;
      LastEntryWins(first, before, e, after[..n]);
      assert before + [e] + after == before + [e] + after[..n] + [after[n]];
      assert [first] + Tokens(before + [e] + after) == [first] + Tokens(before + [e] + after[..n]) + [Token(after[n])];
      FieldsWithEntry([first] + Tokens(before + [e] + after[..n]), after[n]);
    }
  }

  // Within a block of distinct keys, if the entries after the block have others.
  lemma BlockEntryWins(first: string, before: seq<Entry>, block: seq<Entry>, next: seq<Entry>, last: seq<Entry>, i: nat)
    requires '=' !in first && i < |block|
    requires forall e :: e in before + block + next + last ==> '=' !in e.key
    requires DistinctKeys(block) && Apart(block, next) && Apart(block, last)
    ensures var fields := FieldsOf([first] + Tokens(before + block + next + last));
      block[i].key in fields && fields[block[i].key] == block[i].value
  {
    hide FieldsOf, Tokens;
    var all, e := before + block + next + last, block[i];
    var head, tail := before + block[..i], block[i + 1..] + next + last;
    assert all == head + [e] + tail;
    forall x | x in tail ensures x.key != e.key {
      var k :| 0 <= k < |tail| && tail[k] == x;
      assert k < |block[i + 1..]| ==> x == block[i + 1 + k];
    }
    forall x | x in head || x == e || x in tail ensures '=' !in x.key {
      assert x in all;
    }
    LastEntryWins(first, head, e, tail);
  }

  lemma LevelsAreNoIntegers(p: Pressure, a: Alert)
    ensures ParseInt(PressureName(p)).None? && ParseInt(AlertName(a)).None?
  {
    var names := ["nominal", "elevated", "saturated", "clear", "watch", "backlog", "stalled"];
    assert forall i :: 0 <= i < |names| ==> 'a' <= names[i][0] <= 'z' && 'a' <= names[i][|names[i]| - 1] <= 'z';
    assert PressureName(p) in names && AlertName(a) in names;
  }

  lemma NotAnIntegerFails(fields: map<string, string>, q: string)
    requires q in fields && ParseInt(fields[q]).None?
    ensures CheckQueue(fields, q) == Err(NotAnInteger(q))
  {
    hide ParseInt;
  }

  /**
   The reader cannot make out the depth of a queue that is called like the pressure or the alert of another one: that
   level is written later, under the same key.
   */
  lemma NameOfAFieldFails(capturedAt: string, snapshots: seq<QueueSnapshot>, i: nat, j: nat)
    requires IsWord(capturedAt) && '=' !in capturedAt && Measured(snapshots)
    requires forall s :: s in snapshots ==> IsWord(s.queueName) && '=' !in s.queueName
    requires NamesDiffer(snapshots)
    requires i < |snapshots| && j < |snapshots|
    requires snapshots[j].queueName in {PressureKey(snapshots[i].queueName), AlertKey(snapshots[i].queueName)}
    ensures var fields, q := FieldsOf(SplitWords(Payload(capturedAt, snapshots))), snapshots[j].queueName;
      && CheckQueue(fields, q) == Err(NotAnInteger(q))
      && FirstProblem(fields, Names(snapshots)).Some?
  {
    hide PressureKey, AlertKey, AgeKey, Print, PressureName, AlertName, Payload, CheckQueue, FieldsOf, ParseInt;
    var q := snapshots[j].queueName;
    var header, depths := Header(snapshots), Depths(snapshots);
    var pressures, alerts, ages := Pressures(snapshots), Alerts(snapshots), Ages(snapshots);
    var fields := FieldsOf(SplitWords(Payload(capturedAt, snapshots)));
    assert Entries(snapshots) == header + depths + pressures + alerts + ages;
    assert Entries(snapshots) == header + depths + pressures + alerts + ages + [];
    FieldsAreApart(snapshots);
    BlocksAreDistinctIff(snapshots);
    PayloadSplits(capturedAt, snapshots);
    EntriesAreReadable(snapshots);
    LevelsAreNoIntegers(snapshots[i].queuePressure, snapshots[i].queueAlert);
    if q == PressureKey(snapshots[i].queueName) {
      BlockEntryWins(capturedAt, header + depths, pressures, alerts, ages, i);
    } else {
      BlockEntryWins(capturedAt, header + depths + pressures, alerts, ages, [], i);
    }
    NotAnIntegerFails(fields, q);
    assert Names(snapshots)[j] == q;
    PassesIffHealthy(fields, Names(snapshots));
  }

  /** So with the queues "a" and "a.alert". */
  lemma DottedNamesCanCollide(capturedAt: string, a: QueueSnapshot, b: QueueSnapshot)
    requires IsWord(capturedAt) && '=' !in capturedAt
    requires a.queueName == "a" && b.queueName == "a.alert" && Measured([a, b])
    ensures !Carriable([a, b])
    ensures CheckQueue(FieldsOf(SplitWords(Payload(capturedAt, [a, b]))), "a.alert") == Err(NotAnInteger("a.alert"))
  {
    hide Payload, CheckQueue, FieldsOf, Carriable;
    var snapshots := [a, b];
    assert AlertKey("a") == "a.alert";
    assert IsWord("a") && IsWord("a.alert");
    CarriableIff(snapshots);
    assert !NoFieldOf(snapshots[1].queueName, snapshots[0].queueName);
    NameOfAFieldFails(capturedAt, snapshots, 0, 1);
  }

  // ----- The payload, field by field -----

  const PRESSURE_TEXTS := ["nominal", "elevated", "saturated"]
  const ALERT_TEXTS := ["clear", "watch", "backlog", "stalled"]

  lemma LevelTexts(p: Pressure, a: Alert)
    ensures PressureName(p) == PRESSURE_TEXTS[PressureRank(p)] && AlertName(a) == ALERT_TEXTS[AlertRank(a)]
  {
  }

  // What stands in the fields of one queue.
  ghost predicate ShowsQueue(fields: map<string, string>, s: QueueSnapshot) {
    && ParseInt(Get(fields, s.queueName)) == Some(s.queueDepth)
    && Get(fields, s.queueName + ".pressure") == PRESSURE_TEXTS[PressureRank(s.queuePressure)]
    && Get(fields, s.queueName + ".alert") == ALERT_TEXTS[AlertRank(s.queueAlert)]
    && ParseInt(Get(fields, s.queueName + ".oldest_job_age_seconds")) == Some(s.oldestJobAgeSeconds)
  }

  // The most severe pressure and alert of some queues.
  ghost predicate IsMostSevere(snapshots: seq<QueueSnapshot>, p: Pressure, a: Alert) {
    && (exists s :: s in snapshots && s.queuePressure == p) && (exists s :: s in snapshots && s.queueAlert == a)
    && (forall s :: s in snapshots ==> PressureRank(s.queuePressure) <= PressureRank(p) && AlertRank(s.queueAlert) <= AlertRank(a))
  }

  lemma OverallIsMaximal(snapshots: seq<QueueSnapshot>)
    requires snapshots != []
    ensures IsMostSevere(snapshots, DeriveOverallPressure(set s | s in snapshots :: s.queuePressure),
                         DeriveOverallAlert(set s | s in snapshots :: s.queueAlert))
  {
    var pressures, alerts := set s | s in snapshots :: s.queuePressure, set s | s in snapshots :: s.queueAlert;
    OverallIsMostSevere(alerts, pressures);
    assert snapshots[0].queuePressure in pressures && snapshots[0].queueAlert in alerts;
    forall s | s in snapshots
      ensures PressureRank(s.queuePressure) <= PressureRank(DeriveOverallPressure(pressures))
      ensures AlertRank(s.queueAlert) <= AlertRank(DeriveOverallAlert(alerts))
    {
      assert s.queuePressure in pressures && s.queueAlert in alerts;
    }
  }

  lemma EntriesShowQueue(fields: map<string, string>, snapshots: seq<QueueSnapshot>, i: nat)
    requires Measured(snapshots) && i < |snapshots|
    requires forall e :: e in Entries(snapshots) ==> e.key in fields && fields[e.key] == e.value
    ensures ShowsQueue(fields, snapshots[i])
  {
    hide Print, PressureName, AlertName, PRESSURE_TEXTS, ALERT_TEXTS, ParseInt;
    var s, entries := snapshots[i], Entries(snapshots);
    assert Depths(snapshots)[i] in entries && Pressures(snapshots)[i] in entries;
    assert Alerts(snapshots)[i] in entries && Ages(snapshots)[i] in entries;
    LevelTexts(s.queuePressure, s.queueAlert);
    ParseOfPrint(s.queueDepth);
    ParseOfPrint(s.oldestJobAgeSeconds);
  }

  /** What stands in a payload that was written and parsed back, under which names. */
  lemma WrittenFieldsAre(capturedAt: string, snapshots: seq<QueueSnapshot>) returns (p: Pressure, a: Alert)
    requires IsWord(capturedAt) && '=' !in capturedAt && snapshots != []
    requires Measured(snapshots) && Carriable(snapshots)
    ensures IsMostSevere(snapshots, p, a)
    ensures var fields := FieldsOf(SplitWords(Payload(capturedAt, snapshots)));
      && Get(fields, "scheduler_running") == "1"
      && Get(fields, "overall_pressure") == PRESSURE_TEXTS[PressureRank(p)]
      && Get(fields, "overall_alert") == ALERT_TEXTS[AlertRank(a)]
      && forall s :: s in snapshots ==> ShowsQueue(fields, s)
  {
    p := DeriveOverallPressure(set s | s in snapshots :: s.queuePressure);
    a := DeriveOverallAlert(set s | s in snapshots :: s.queueAlert);
    hide Payload, FieldsOf, PressureName, AlertName, PRESSURE_TEXTS, ALERT_TEXTS, IsMostSevere, ShowsQueue;
    var fields, entries := FieldsOf(SplitWords(Payload(capturedAt, snapshots))), Entries(snapshots);
    PayloadReadsBack(capturedAt, snapshots);
    assert entries[0] in entries && entries[1] in entries && entries[2] in entries;
    OverallIsMaximal(snapshots);
    LevelTexts(p, a);
    forall s | s in snapshots ensures ShowsQueue(fields, s) {
      var i :| 0 <= i < |snapshots| && snapshots[i] == s;
      EntriesShowQueue(fields, snapshots, i);
    }
  }

  // fields.get(name, "")
  function Get(fields: map<string, string>, name: string): string {
    if name in fields then fields[name] else ""
  }

  // A text that says how severe a level is.
  ghost predicate IsText(texts: seq<string>, text: string, rank: nat) {
    rank < |texts| && text == texts[rank]
  }

  /** A queue's fields pass if and only if all four are there, make sense, and its alert is the right one. */
  lemma QueuePassesIff(fields: map<string, string>, q: string)
    ensures CheckQueue(fields, q).Ok? <==>
      && q in fields && q + ".pressure" in fields && q + ".alert" in fields && q + ".oldest_job_age_seconds" in fields
      && ParseInt(fields[q]).Some? && ParseInt(fields[q]).value >= 0
      && var age := ParseInt(fields[q + ".oldest_job_age_seconds"]);
         && age.Some? && age.value >= 0
         && exists p, a ::
              && IsText(PRESSURE_TEXTS, fields[q + ".pressure"], PressureRank(p))
              && IsText(ALERT_TEXTS, fields[q + ".alert"], AlertRank(a))
              && a == ClassifyQueueAlert(q, p, age.value)
  {
    hide ParseInt, ClassifyQueueAlert;
    ReadsAre(if q + ".pressure" in fields then fields[q + ".pressure"] else "",
             if q + ".alert" in fields then fields[q + ".alert"] else "");
    hide ReadPressure, ReadAlert, PRESSURE_TEXTS, ALERT_TEXTS, PressureRank, AlertRank;
  }

  // What a problem that is reported of a queue says about its fields.
  ghost predicate IsTrueOf(fields: map<string, string>, q: string, e: Problem) {
    var ageKey := q + ".oldest_job_age_seconds";
    match e
    case MissingDepth(x) => x == q && q !in fields
    case NotAnInteger(f) => f in [q, ageKey] && f in fields && ParseInt(fields[f]).None?
    case Negative(f) => f in [q, ageKey] && f in fields && ParseInt(fields[f]).Some? && ParseInt(fields[f]).value < 0
    case MissingPressure(x) => x == q && q + ".pressure" !in fields
    case InvalidPressure(x) => x == q && q + ".pressure" in fields && fields[q + ".pressure"] !in PRESSURE_TEXTS
    case MissingAge(x) => x == q && ageKey !in fields
    case MissingAlert(x) => x == q && q + ".alert" !in fields
    case InvalidAlert(x) => x == q && q + ".alert" in fields && fields[q + ".alert"] !in ALERT_TEXTS
    case InconsistentAlert(x) => x == q && IsInconsistent(Get(fields, q + ".pressure"), Get(fields, q + ".alert"), Get(fields, ageKey), q)
    case _ => false
  }

  ghost predicate IsInconsistent(pressure: string, alert: string, age: string, q: string) {
    ParseInt(age).Some? && exists p, a ::
      && IsText(PRESSURE_TEXTS, pressure, PressureRank(p)) && IsText(ALERT_TEXTS, alert, AlertRank(a))
      && a != ClassifyQueueAlert(q, p, ParseInt(age).value)
  }

  lemma UnreadTexts(pressure: string, alert: string)
    ensures ReadPressure(pressure).None? <==> pressure !in PRESSURE_TEXTS
    ensures ReadAlert(alert).None? <==> alert !in ALERT_TEXTS
  {
  }

  lemma QueueProblemIsReal(fields: map<string, string>, q: string)
    ensures CheckQueue(fields, q).Err? ==> IsTrueOf(fields, q, CheckQueue(fields, q).error)
  {
    hide ParseInt, ClassifyQueueAlert;
    ReadsAre(Get(fields, q + ".pressure"), Get(fields, q + ".alert"));
    UnreadTexts(Get(fields, q + ".pressure"), Get(fields, q + ".alert"));
    hide ReadPressure, ReadAlert, PRESSURE_TEXTS, ALERT_TEXTS, PressureRank, AlertRank, IsText;
  }

  lemma {:induction false} QueueProblemIsOneQueues(fields: map<string, string>, queueNames: seq<string>)
    ensures var e := QueueProblem(fields, queueNames);
      if e.Some? then exists q :: q in queueNames && IsTrueOf(fields, q, e.value)
      else forall q :: q in queueNames ==> CheckQueue(fields, q).Ok?
  {
    hide CheckQueue, IsTrueOf;
    if queueNames != [] {
      QueueProblemIsReal(fields, queueNames[0]);
      QueueProblemIsOneQueues(fields, queueNames[1..]);
    }
  }

  /** The problem that is reported is there: in the header, at one of the queues, or between them. */
  lemma ReportedProblemIsReal(fields: map<string, string>, queueNames: seq<string>, e: Problem)
    requires FirstProblem(fields, queueNames) == Some(e)
    ensures match e
      case NotRunning => Get(fields, "scheduler_running") != "1"
      case MissingOverallPressure => "overall_pressure" !in fields
      case InvalidOverallPressure => "overall_pressure" in fields && fields["overall_pressure"] !in PRESSURE_TEXTS
      case MissingOverallAlert => "overall_alert" !in fields
      case InvalidOverallAlert => "overall_alert" in fields && fields["overall_alert"] !in ALERT_TEXTS
      case OverallPressureMismatch =>
        && (forall q :: q in queueNames ==> CheckQueue(fields, q).Ok?)
        && ReadPressure(Get(fields, "overall_pressure")) != Some(DeriveOverallPressure(QueuePressures(fields, queueNames)))
      case OverallAlertMismatch =>
        && (forall q :: q in queueNames ==> CheckQueue(fields, q).Ok?)
        && ReadAlert(Get(fields, "overall_alert")) != Some(DeriveOverallAlert(QueueAlerts(fields, queueNames)))
      case _ => exists q :: q in queueNames && IsTrueOf(fields, q, e)
  {
    QueueProblemIsOneQueues(fields, queueNames);
    UnreadTexts(Get(fields, "overall_pressure"), Get(fields, "overall_alert"));
    hide CheckQueue, ReadPressure, ReadAlert, PRESSURE_TEXTS, ALERT_TEXTS;
  }

  lemma ReadsAre(pressure: string, alert: string)
    ensures forall p :: ReadPressure(pressure) == Some(p) <==> IsText(PRESSURE_TEXTS, pressure, PressureRank(p))
    ensures forall a :: ReadAlert(alert) == Some(a) <==> IsText(ALERT_TEXTS, alert, AlertRank(a))
  {
  }
}
