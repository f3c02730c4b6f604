/**
 Inbound email: backend/app/email/service.py on top of the pipeline, and the message loop of
 backend/app/email/gmail_sync.py.

 Unseen, and so inputs: the body digest, the classifier of a message, and which of a user's applications a
 classified message is about.
 */
module EmailIntake {
  import opened Sums
  import opened Wrappers
  import P = Pipeline

  datatype Message = Message(sender: string, fromAddress: string, subject: string, text: string, html: string,
                             sourceProvider: string, sourceMessageId: Option<string>)

  datatype Parsed = Parsed(action: string, company: string, confidence: real)

  datatype EmailLog = EmailLog(userId: nat, sender: string, subject: string, bodyHash: string,
                               sourceProvider: string, sourceMessageId: Option<string>,
                               parsed: Option<Parsed>, matchedApplication: Option<nat>)

  datatype Notification = Notification(userId: nat, kind: string, about: nat)

  datatype Status = Duplicate | NoSignal | NoMatch | ReviewRequired | Updated

  datatype Response = Response(status: Status, action: Option<string>, application: Option<nat>)

  datatype Environment = Environment(
    sha256: string -> string,
    parse: (string, string, string) -> Option<Parsed>,
    find: (Parsed, nat, P.Tables) -> Option<nat>)

  datatype Store = Store(tables: P.Tables, logs: seq<EmailLog>, notifications: seq<Notification>)

  // The search only ever returns an application of the user.
  ghost predicate FindsOwn(env: Environment) {
    forall parsed, userId, tables ::
      env.find(parsed, userId, tables).Some? ==> P.Owns(tables, env.find(parsed, userId, tables).value, userId)
  }

  function EffectiveSender(m: Message): string {
    if m.sender != "" then m.sender else m.fromAddress
  }

  function EffectiveBody(m: Message): string {
    if m.text != "" then m.text else m.html
  }

  function Subject1000(m: Message): string {
    if |m.subject| <= 1000 then m.subject else m.subject[..1000]
  }

  predicate SameMessageId(log: EmailLog, m: Message, userId: nat) {
    && m.sourceMessageId.Some? && m.sourceMessageId.value != ""
    && log.userId == userId && log.sourceProvider == m.sourceProvider
    && log.sourceMessageId == m.sourceMessageId
  }

  predicate SameContent(env: Environment, log: EmailLog, m: Message, userId: nat) {
    && log.userId == userId && log.sender == EffectiveSender(m) && log.subject == Subject1000(m)
    && log.bodyHash == env.sha256(EffectiveBody(m))
  }

  predicate Matches(env: Environment, log: EmailLog, m: Message, userId: nat) {
    SameMessageId(log, m, userId) || SameContent(env, log, m, userId)
  }

  // The first log that `ok` holds of.
  function FirstLog(logs: seq<EmailLog>, ok: EmailLog -> bool): (found: Option<EmailLog>)
    ensures found.Some? ==> found.value in logs && ok(found.value)
    ensures found.None? ==> forall log :: log in logs ==> !ok(log)
  {
    if logs == [] then None
    else if ok(logs[0]) then Some(logs[0])
    else FirstLog(logs[1..], ok)
  }

  /** `_find_duplicate_log`: by message id first, by sender, subject and body otherwise. */
  function FindDuplicateLog(env: Environment, logs: seq<EmailLog>, m: Message, userId: nat): (found: Option<EmailLog>)
    ensures found.Some? ==> found.value in logs && Matches(env, found.value, m, userId)
    ensures found.None? ==> forall log :: log in logs ==> !Matches(env, log, m, userId)
  {
    var byId := FirstLog(logs, log => SameMessageId(log, m, userId));
    if byId.Some? then byId else FirstLog(logs, log => SameContent(env, log, m, userId))
  }

  function BuildLog(env: Environment, m: Message, userId: nat, parsed: Option<Parsed>, application: Option<nat>): EmailLog {
    EmailLog(userId, EffectiveSender(m), Subject1000(m), env.sha256(EffectiveBody(m)),
             m.sourceProvider, m.sourceMessageId, parsed, application)
  }

  // _ACTION_TO_STATUS
  function TargetStatus(action: string): Option<P.Status> {
    if action == "offer" then Some(P.Offer)
    else if action == "interview" then Some(P.Interviewing)
    else if action == "rejection" then Some(P.Rejected)
    else None
  }

  function StatusName(s: P.Status): string {
    match s
    case Saved => "saved"
    case Applied => "applied"
    case Screening => "screening"
    case Interviewing => "interviewing"
    case Offer => "offer"
    case Rejected => "rejected"
    case Withdrawn => "withdrawn"
    case Accepted => "accepted"
  }

  predicate CanTransition(current: P.Status, target: P.Status) {
    target in P.Allowed(current)
  }

  // One delivery: a message of a user, with the least confidence for acting on it and the time of processing.
  datatype Delivery = Delivery(message: Message, userId: nat, minConfidence: real, now: int)

  // The transition that a delivery asks of the pipeline, if it asks for one.
  function RequestedMove(tables: P.Tables, d: Delivery, parsed: Parsed, id: nat): Option<P.Operation>
    requires id < |tables.applications|
  {
    var target := TargetStatus(parsed.action);
    if target.Some? && parsed.confidence >= d.minConfidence && CanTransition(tables.applications[id].status, target.value)
    then Some(P.Transition(id, StatusName(target.value), "email", d.userId, d.now))
    else None
  }

  function NeedsReview(d: Delivery, parsed: Parsed): bool {
    TargetStatus(parsed.action).Some? && parsed.confidence < d.minConfidence
  }

  /** `process_inbound_message` */
  function Process(env: Environment, s: Store, d: Delivery): (Store, Response)
    requires FindsOwn(env)
  {
    var duplicate := FindDuplicateLog(env, s.logs, d.message, d.userId);
    if duplicate.Some? then
      var log := duplicate.value;
      (s, Response(Duplicate, if log.parsed.Some? then Some(log.parsed.value.action) else None, log.matchedApplication))
    else
      match env.parse(EffectiveSender(d.message), d.message.subject, EffectiveBody(d.message))
      case None =>
        (s.(logs := s.logs + [BuildLog(env, d.message, d.userId, None, None)]), Response(NoSignal, None, None))
      case Some(parsed) =>
        var application := env.find(parsed, d.userId, s.tables);
        var logged := s.(logs := s.logs + [BuildLog(env, d.message, d.userId, Some(parsed), application)]);
        if application.None? then (logged, Response(NoMatch, Some(parsed.action), None))
        else
          var id := application.value;
          var move := RequestedMove(s.tables, d, parsed, id);
          var kind := if NeedsReview(d, parsed) then "email_review" else "email";
          (Store(if move.Some? then P.Next(s.tables, move.value) else s.tables, logged.logs,
                 s.notifications + [Notification(d.userId, kind, id)]),
           Response(if NeedsReview(d, parsed) then ReviewRequired else if move.Some? then Updated else NoMatch,
                    Some(parsed.action), application))
  }

  /** The guard before a transition is at least as strict as the validation inside it: it is never rejected. */
  lemma GuardedTransitionIsAccepted(tables: P.Tables, d: Delivery, parsed: Parsed, id: nat)
    requires P.Owns(tables, id, d.userId)
    ensures var move := RequestedMove(tables, d, parsed, id);
      move.Some? ==> P.TransitionError(tables, move.value).None?
  {
    var target := TargetStatus(parsed.action);
    if target.Some? {
      assert P.ParseStatus(StatusName(target.value)) == target;
    }
  }

  class EmailService {
    const env: Environment
    const pipeline: P.PipelineService
    var logs: seq<EmailLog>
    var notifications: seq<Notification>

    function View(): Store
      reads this, pipeline
    {
      Store(pipeline.View(), logs, notifications)
    }

    constructor (env: Environment, pipeline: P.PipelineService)
      ensures this.env == env && this.pipeline == pipeline
      ensures View() == Store(pipeline.View(), [], [])
    {
      this.env, this.pipeline := env, pipeline;
      logs, notifications := [], [];
    }

    method ProcessInboundMessage(d: Delivery) returns (response: Response)
      requires FindsOwn(env)
      modifies this, pipeline
      ensures (View(), response) == Process(env, old(View()), d)
    {
      hide P.Next, P.TransitionError;
      var m, userId := d.message, d.userId;
      var duplicate := FindDuplicateLog(env, logs, m, userId);
      if duplicate.Some? {
        var log := duplicate.value;
        return Response(Duplicate, if log.parsed.Some? then Some(log.parsed.value.action) else None, log.matchedApplication);
      }
      var parsed := env.parse(EffectiveSender(m), m.subject, EffectiveBody(m));
      if parsed.None? {
        logs := logs + [BuildLog(env, m, userId, None, None)];
        return Response(NoSignal, None, None);
      }
      var application := env.find(parsed.value, userId, pipeline.View());
      logs := logs + [BuildLog(env, m, userId, parsed, application)];
      if application.None? {
        return Response(NoMatch, Some(parsed.value.action), None);
      }
      var id := application.value;
      var target := TargetStatus(parsed.value.action);
      var reviewRequired := target.Some? && parsed.value.confidence < d.minConfidence;
      var transitioned := false;
      if target.Some? && !reviewRequired && CanTransition(pipeline.applications[id].status, target.value) {
        GuardedTransitionIsAccepted(pipeline.View(), d, parsed.value, id);
        var error := pipeline.TransitionStatus(id, StatusName(target.value), "email", userId, d.now);
        assert error.None?;
        transitioned := true;
      }
      notifications := notifications + [Notification(userId, if reviewRequired then "email_review" else "email", id)];
      response := Response(
        if reviewRequired then ReviewRequired else if transitioned then Updated else NoMatch,
        Some(parsed.value.action), application);
    }
  }

  // ----- The Gmail loop -----

  // What the loop counts. A message that cannot be fetched or decoded is a failure.
  datatype Counts = Counts(processed: nat, failed: nat, duplicates: nat, signals: nat, transitions: nat)

  const NOTHING := Counts(0, 0, 0, 0, 0)

  function Counted(c: Counts, r: Response): Counts {
    if r.status == Duplicate then c.(duplicates := c.duplicates + 1)
    else Counts(c.processed + 1, c.failed, c.duplicates,
                c.signals + (if r.action.Some? then 1 else 0),
                c.transitions + (if r.status == Updated then 1 else 0))
  }

  // The store and the counts after the first messages of a mailbox; None is a message that fails.
  function Sync(env: Environment, s: Store, mailbox: seq<Option<Delivery>>): (Store, Counts)
    requires FindsOwn(env)
  {
    if mailbox == [] then (s, NOTHING)
    else
      var (before, counts) := Sync(env, s, mailbox[..|mailbox| - 1]);
      match mailbox[|mailbox| - 1]
      case None => (before, counts.(failed := counts.failed + 1))
      case Some(d) =>
        var (after, response) := Process(env, before, d);
        (after, Counted(counts, response))
  }

  method SyncGmail(service: EmailService, mailbox: seq<Option<Delivery>>) returns (counts: Counts)
    requires FindsOwn(service.env)
    modifies service, service.pipeline
    ensures (service.View(), counts) == Sync(service.env, old(service.View()), mailbox)
  {
    hide Process;
    var processed, failed, duplicates, signals, transitions := 0, 0, 0, 0, 0;
    for i := 0 to |mailbox|
      invariant (service.View(), Counts(processed, failed, duplicates, signals, transitions))
             == Sync(service.env, old(service.View()), mailbox[..i])
    {
      assert mailbox[..i + 1][..i] == mailbox[..i];
      if mailbox[i].None? {
        failed := failed + 1;
        continue;
      }
      var result := service.ProcessInboundMessage(mailbox[i].value);
      if result.status == Duplicate {
        duplicates := duplicates + 1;
        continue;
      }
      processed := processed + 1;
      if result.action.Some? {
        signals := signals + 1;
      }
      if result.status == Updated {
        transitions := transitions + 1;
      }
    }
    assert mailbox[..|mailbox|] == mailbox;
    counts := Counts(processed, failed, duplicates, signals, transitions);
  }

  // ----- What a delivery leaves behind -----

  ghost predicate Known(env: Environment, s: Store, d: Delivery) {
    exists log :: log in s.logs && Matches(env, log, d.message, d.userId)
  }

  lemma DuplicateIffKnown(env: Environment, s: Store, d: Delivery)
    requires FindsOwn(env)
    ensures Process(env, s, d).1.status == Duplicate <==> Known(env, s, d)
    ensures Known(env, s, d) ==> Process(env, s, d).0 == s
  {
  }

  // Whatever becomes of a delivery, it is known afterwards, and so is everything known before.
  lemma ProcessedIsKnown(env: Environment, s: Store, d: Delivery, other: Delivery)
    requires FindsOwn(env)
    ensures Known(env, Process(env, s, d).0, d)
    ensures Known(env, s, other) ==> Known(env, Process(env, s, d).0, other)
  {
    var after := Process(env, s, d).0;
    assert forall log :: log in s.logs ==> log in after.logs;
    if !Known(env, s, d) {
      var log := after.logs[|after.logs| - 1];
      assert log in after.logs && SameContent(env, log, d.message, d.userId);
    }
  }

  lemma {:induction false} SyncedIsKnown(env: Environment, s: Store, mailbox: seq<Option<Delivery>>, d: Delivery)
    requires FindsOwn(env) && (Known(env, s, d) || Some(d) in mailbox)
    ensures Known(env, Sync(env, s, mailbox).0, d)
  {
    hide Process, Known;
    if mailbox != [] {
      var before, last := mailbox[..|mailbox| - 1], mailbox[|mailbox| - 1];
      assert mailbox == before + [last];
      if Known(env, s, d) || Some(d) in before {
        SyncedIsKnown(env, s, before, d);
      }
      if last.Some? {
        ProcessedIsKnown(env, Sync(env, s, before).0, last.value, d);
      }
    }
  }

  lemma {:induction false} KnownMessagesChangeNothing(env: Environment, s: Store, mailbox: seq<Option<Delivery>>)
    requires FindsOwn(env) && forall d :: Some(d) in mailbox ==> Known(env, s, d)
    ensures Sync(env, s, mailbox).0 == s
    ensures var c := Sync(env, s, mailbox).1;
      c.processed == c.signals == c.transitions == 0 && c.duplicates + c.failed == |mailbox|
  {
    hide Process, Known;
    if mailbox != [] {
      var before, last := mailbox[..|mailbox| - 1], mailbox[|mailbox| - 1];
      assert mailbox == before + [last];
      KnownMessagesChangeNothing(env, s, before);
      if last.Some? {
        DuplicateIffKnown(env, s, last.value);
      }
    }
  }

  // The same messages of the same users, at whatever time and with whatever confidence asked for.
  ghost predicate DrawnFrom(again: seq<Option<Delivery>>, mailbox: seq<Option<Delivery>>) {
    forall d :: Some(d) in again ==>
      exists e :: Some(e) in mailbox && e.message == d.message && e.userId == d.userId
  }

  /**
   Replaying is a no-op: after a mailbox has been synced on any store, syncing any list drawn from its messages,
   reordered or repeated, finds duplicates only and changes nothing.
   */
  lemma ReplayIsNoOp(env: Environment, s: Store, mailbox: seq<Option<Delivery>>, again: seq<Option<Delivery>>)
    requires FindsOwn(env) && DrawnFrom(again, mailbox)
    ensures var after := Sync(env, s, mailbox).0;
      && Sync(env, after, again).0 == after
      && Sync(env, after, again).1.duplicates + Sync(env, after, again).1.failed == |again|
      && Sync(env, after, again).1.processed == 0
  {
    hide Process, Sync;
    var after := Sync(env, s, mailbox).0;
    forall d | Some(d) in again
      ensures Known(env, after, d)
    {
      var e :| Some(e) in mailbox && e.message == d.message && e.userId == d.userId;
      SyncedIsKnown(env, s, mailbox, e);
    }
    KnownMessagesChangeNothing(env, after, again);
  }

  // ----- What the counters count -----

  lemma ProcessAddsUp(env: Environment, s: Store, d: Delivery)
    requires FindsOwn(env)
    ensures var (after, r) := Process(env, s, d);
      && |after.logs| == |s.logs| + (if r.status == Duplicate then 0 else 1)
      && |after.tables.history| == |s.tables.history| + (if r.status == Updated then 1 else 0)
      && |after.notifications| == |s.notifications|
           + (if r.status != Duplicate && r.application.Some? then 1 else 0)
  {
    if !Known(env, s, d) {
      var parsed := env.parse(EffectiveSender(d.message), d.message.subject, EffectiveBody(d.message));
      if parsed.Some? && env.find(parsed.value, d.userId, s.tables).Some? {
        GuardedTransitionIsAccepted(s.tables, d, parsed.value, env.find(parsed.value, d.userId, s.tables).value);
      }
    }
  }

  /** Every message is counted once; logs grow by the processed ones and the history by the transitions. */
  lemma {:induction false} CountersAddUp(env: Environment, s: Store, mailbox: seq<Option<Delivery>>)
    requires FindsOwn(env)
    ensures var (after, c) := Sync(env, s, mailbox);
      && |mailbox| == c.processed + c.failed + c.duplicates
      && |after.logs| == |s.logs| + c.processed
      && |after.tables.history| == |s.tables.history| + c.transitions
      && c.transitions <= c.signals <= c.processed
  {
    hide Process;
    if mailbox != [] {
      var before, last := mailbox[..|mailbox| - 1], mailbox[|mailbox| - 1];
      CountersAddUp(env, s, before);
      if last.Some? {
        ProcessAddsUp(env, Sync(env, s, before).0, last.value);
        UpdatedIsASignal(env, Sync(env, s, before).0, last.value);
      }
    }
  }

  lemma UpdatedIsASignal(env: Environment, s: Store, d: Delivery)
    requires FindsOwn(env)
    ensures Process(env, s, d).1.status == Updated ==> Process(env, s, d).1.action.Some?
  {
  }

  // ----- Invariants of the store -----

  // No two logs of a user have one message id, or one sender, subject and body.
  ghost predicate LogsAreUnique(logs: seq<EmailLog>) {
    forall i, j :: 0 <= i < j < |logs| && logs[i].userId == logs[j].userId ==>
      && !(logs[i].sender == logs[j].sender && logs[i].subject == logs[j].subject && logs[i].bodyHash == logs[j].bodyHash)
      && !(logs[j].sourceMessageId.Some? && logs[j].sourceMessageId.value != ""
           && logs[i].sourceProvider == logs[j].sourceProvider && logs[i].sourceMessageId == logs[j].sourceMessageId)
  }

  /** Each message is logged at most once, and the pipeline's records stay sound, through every sync. */
  lemma {:induction false} SyncKeepsInvariants(env: Environment, s: Store, mailbox: seq<Option<Delivery>>)
    requires FindsOwn(env) && LogsAreUnique(s.logs) && P.WellRecorded(s.tables)
    ensures var after := Sync(env, s, mailbox).0;
      LogsAreUnique(after.logs) && P.WellRecorded(after.tables)
  {
    hide Process, P.WellRecorded, LogsAreUnique;
    if mailbox != [] {
      var before, last := mailbox[..|mailbox| - 1], mailbox[|mailbox| - 1];
      SyncKeepsInvariants(env, s, before);
      if last.Some? {
        ProcessKeepsInvariants(env, Sync(env, s, before).0, last.value);
      }
    }
  }

  lemma ProcessKeepsInvariants(env: Environment, s: Store, d: Delivery)
    requires FindsOwn(env) && LogsAreUnique(s.logs) && P.WellRecorded(s.tables)
    ensures LogsAreUnique(Process(env, s, d).0.logs) && P.WellRecorded(Process(env, s, d).0.tables)
  {
    hide P.WellRecorded, P.Next;
    var parsed := env.parse(EffectiveSender(d.message), d.message.subject, EffectiveBody(d.message));
    if parsed.Some? {
      var application := env.find(parsed.value, d.userId, s.tables);
      if application.Some? {
        var move := RequestedMove(s.tables, d, parsed.value, application.value);
        if move.Some? {
          P.OperationKeepsRecords(s.tables, move.value);
        }
      }
    }
    NewLogIsUnique(env, s, d, Process(env, s, d).0.logs);
  }

  lemma NewLogIsUnique(env: Environment, s: Store, d: Delivery, after: seq<EmailLog>)
    requires LogsAreUnique(s.logs)
    requires after == s.logs || (!Known(env, s, d) && exists parsed, application ::
      after == s.logs + [BuildLog(env, d.message, d.userId, parsed, application)])
    ensures LogsAreUnique(after)
  {
    if after != s.logs {
      forall i | 0 <= i < |s.logs|
        ensures !Matches(env, after[i], d.message, d.userId)
      {
        assert s.logs[i] in s.logs;
      }
    }
  }

  // ----- What becomes of a new message -----

  // The text of a message as it is compared, stored and classified.
  datatype Reading = Reading(sender: string, subject: string, body: string)

  ghost function ReadingOf(m: Message): Reading {
    Reading(if m.sender == "" then m.fromAddress else m.sender,
            if |m.subject| > 1000 then m.subject[..1000] else m.subject,
            if m.text == "" then m.html else m.text)
  }

  // A log of the user's has the message's id from the same provider, or its sender, subject and body.
  ghost predicate IsLogOf(env: Environment, log: EmailLog, d: Delivery) {
    var m, reading := d.message, ReadingOf(d.message);
    && log.userId == d.userId
    && (|| (m.sourceMessageId.Some? && m.sourceMessageId.value != "" && log.sourceMessageId == m.sourceMessageId
            && log.sourceProvider == m.sourceProvider)
        || (log.sender == reading.sender && log.subject == reading.subject && log.bodyHash == env.sha256(reading.body)))
  }

  ghost predicate AlreadyLogged(env: Environment, s: Store, d: Delivery) {
    exists log :: log in s.logs && IsLogOf(env, log, d)
  }

  lemma KnownIff(env: Environment, s: Store, d: Delivery)
    ensures Known(env, s, d) <==> AlreadyLogged(env, s, d)
  {
    if log :| log in s.logs && Matches(env, log, d.message, d.userId) {
      assert AlreadyLogged(env, s, d);
    }
  }

  /** The answer to a duplicate is what was read and found when it was first logged. */
  lemma DuplicateIsAnswered(env: Environment, s: Store, d: Delivery) returns (log: EmailLog)
    requires FindsOwn(env) && AlreadyLogged(env, s, d)
    ensures log in s.logs && IsLogOf(env, log, d)
    ensures var (after, r) := Process(env, s, d);
      && after == s && r.status == Duplicate && r.application == log.matchedApplication
      && r.action == (if log.parsed.Some? then Some(log.parsed.value.action) else None)
  {
    KnownIff(env, s, d);
    log := FindDuplicateLog(env, s.logs, d.message, d.userId).value;
  }

  ghost function NewLog(env: Environment, d: Delivery, parsed: Option<Parsed>, application: Option<nat>): EmailLog {
    var m, reading := d.message, ReadingOf(d.message);
    EmailLog(d.userId, reading.sender, reading.subject, env.sha256(reading.body), m.sourceProvider, m.sourceMessageId,
             parsed, application)
  }

  // The status that an action is a signal of.
  ghost predicate Signals(action: string, to: P.Status) {
    || (action == "offer" && to == P.Offer)
    || (action == "interview" && to == P.Interviewing)
    || (action == "rejection" && to == P.Rejected)
  }

  ghost predicate LeadsTo(from: P.Status, to: P.Status) {
    || (to == P.Offer && from == P.Interviewing)
    || (to == P.Interviewing && from in {P.Applied, P.Screening})
    || (to == P.Rejected && from in {P.Applied, P.Screening, P.Interviewing, P.Offer})
  }

  // A message already logged is answered from its log; one without a signal or a match is logged, and that is all.
  lemma UnmatchedMessageIsLogged(env: Environment, s: Store, d: Delivery)
    requires FindsOwn(env)
    ensures var (after, r) := Process(env, s, d);
      var reading := ReadingOf(d.message);
      var parsed := env.parse(reading.sender, d.message.subject, reading.body);
      if AlreadyLogged(env, s, d) then after == s && r.status == Duplicate
      else if parsed.None? then after == s.(logs := s.logs + [NewLog(env, d, None, None)]) && r == Response(NoSignal, None, None)
      else env.find(parsed.value, d.userId, s.tables).None? ==>
        && after == s.(logs := s.logs + [NewLog(env, d, parsed, None)])
        && r == Response(NoMatch, Some(parsed.value.action), None)
  {
    KnownIff(env, s, d);
    DuplicateIffKnown(env, s, d);
  }

  /**
   A new message about an application moves it exactly when it signals a status, with enough confidence, that the
   application's own leads to: an offer, an interview or a rejection, recorded as coming from mail. In any case it is
   logged and notified of; without enough confidence for a signal, for review.
   */
  lemma MatchedMessageMoves(env: Environment, s: Store, d: Delivery, parsed: Parsed, id: nat, to: P.Status)
    requires FindsOwn(env) && !AlreadyLogged(env, s, d)
    requires env.parse(ReadingOf(d.message).sender, d.message.subject, ReadingOf(d.message).body) == Some(parsed)
    requires env.find(parsed, d.userId, s.tables) == Some(id)
    ensures P.Owns(s.tables, id, d.userId)
    ensures var (after, r) := Process(env, s, d);
      var a := s.tables.applications[id];
      var confident := parsed.confidence >= d.minConfidence;
      && (Signals(parsed.action, to) && confident && LeadsTo(a.status, to) ==>
            && after.tables.applications == s.tables.applications[id := a.(status := to, updatedAt := d.now,
                 offerAt := if to == P.Offer then Some(d.now) else a.offerAt,
                 rejectedAt := if to == P.Rejected then Some(d.now) else a.rejectedAt)]
            && after.tables.history == s.tables.history + [P.HistoryRow(id, Some(a.status), to, "email", d.now)]
            && r.status == Updated)
      && (Signals(parsed.action, to) && confident && !LeadsTo(a.status, to) ==> after.tables == s.tables && r.status == NoMatch)
      && (Signals(parsed.action, to) && !confident ==> after.tables == s.tables && r.status == ReviewRequired)
      && (parsed.action !in ["offer", "interview", "rejection"] ==> after.tables == s.tables && r.status == NoMatch)
  {
    KnownIff(env, s, d);
    DuplicateIffKnown(env, s, d);
    if Signals(parsed.action, to) {
      SignalMoves(s.tables, d, parsed, id, to);
    }
    hide Known, AlreadyLogged, P.Next, RequestedMove, Signals, LeadsTo;
  }

  lemma SignalMoves(tables: P.Tables, d: Delivery, parsed: Parsed, id: nat, to: P.Status)
    requires P.Owns(tables, id, d.userId) && Signals(parsed.action, to)
    ensures var a, move := tables.applications[id], RequestedMove(tables, d, parsed, id);
      var confident := parsed.confidence >= d.minConfidence;
      && NeedsReview(d, parsed) == !confident
      && (move.Some? <==> confident && LeadsTo(a.status, to))
      && (move.Some? ==> P.Next(tables, move.value) == P.Tables(
            tables.applications[id := a.(status := to, updatedAt := d.now,
              offerAt := if to == P.Offer then Some(d.now) else a.offerAt,
              rejectedAt := if to == P.Rejected then Some(d.now) else a.rejectedAt)],
            tables.history + [P.HistoryRow(id, Some(a.status), to, "email", d.now)]))
  {
    LeadsToIsAllowed(tables.applications[id].status);
    assert TargetStatus(parsed.action) == Some(to) && P.ParseStatus(StatusName(to)) == Some(to);
    hide LeadsTo;
  }

  lemma LeadsToIsAllowed(from: P.Status)
    ensures forall to :: to in {P.Offer, P.Interviewing, P.Rejected} ==> (to in P.Allowed(from) <==> LeadsTo(from, to))
  {
  }

  lemma MatchedMessageIsLogged(env: Environment, s: Store, d: Delivery, parsed: Parsed, id: nat)
    requires FindsOwn(env) && !AlreadyLogged(env, s, d)
    requires env.parse(ReadingOf(d.message).sender, d.message.subject, ReadingOf(d.message).body) == Some(parsed)
    requires env.find(parsed, d.userId, s.tables) == Some(id)
    ensures var (after, r) := Process(env, s, d);
      var review := parsed.action in ["offer", "interview", "rejection"] && parsed.confidence < d.minConfidence;
      && after.logs == s.logs + [NewLog(env, d, Some(parsed), Some(id))]
      && after.notifications == s.notifications + [Notification(d.userId, if review then "email_review" else "email", id)]
      && r.action == Some(parsed.action) && r.application == Some(id)
  {
    KnownIff(env, s, d);
    DuplicateIffKnown(env, s, d);
    hide P.Next, Known, AlreadyLogged;
  }

  // ----- The counters, exactly -----

  ghost function HasSignal(): EmailLog -> bool {
    (log: EmailLog) => log.parsed.Some?
  }

  lemma SignalIsLogged(env: Environment, s: Store, d: Delivery)
    requires FindsOwn(env)
    ensures var (after, r) := Process(env, s, d);
      if r.status == Duplicate then after.logs == s.logs
      else |after.logs| == |s.logs| + 1 && after.logs[..|s.logs|] == s.logs
           && (r.action.Some? <==> after.logs[|s.logs|].parsed.Some?)
  {
    hide P.Next;
  }

  /** The signals counted are the new logs that have one. */
  lemma {:induction false} SignalsAreCounted(env: Environment, s: Store, mailbox: seq<Option<Delivery>>)
    requires FindsOwn(env)
    ensures var (after, c) := Sync(env, s, mailbox);
      c.signals == CountBy(HasSignal(), after.logs) - CountBy(HasSignal(), s.logs)
  {
    hide Process;
    if mailbox != [] {
      var before, last := mailbox[..|mailbox| - 1], mailbox[|mailbox| - 1];
      SignalsAreCounted(env, s, before);
      if last.Some? {
        var store := Sync(env, s, before).0;
        SignalIsLogged(env, store, last.value);
      }
    }
  }
}
