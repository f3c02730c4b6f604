/**
 The application pipeline: backend/app/pipeline/state_machine.py, backend/app/pipeline/service.py, and the
 rows that backend/app/auto_apply/orchestrator.py adds to it.

 An application is named by its position in the table. Each operation reads the clock once.
 */
module Pipeline {
  import opened Wrappers

  datatype Status = Saved | Applied | Screening | Interviewing | Offer | Rejected | Withdrawn | Accepted

  // VALID_STATUSES
  function ParseStatus(s: string): Option<Status> {
    if s == "saved" then Some(Saved)
    else if s == "applied" then Some(Applied)
    else if s == "screening" then Some(Screening)
    else if s == "interviewing" then Some(Interviewing)
    else if s == "offer" then Some(Offer)
    else if s == "rejected" then Some(Rejected)
    else if s == "withdrawn" then Some(Withdrawn)
    else if s == "accepted" then Some(Accepted)
    else None
  }

  // VALID_TRANSITIONS
  function Allowed(s: Status): set<Status> {
    match s
    case Saved => {Applied, Withdrawn}
    case Applied => {Screening, Interviewing, Rejected, Withdrawn}
    case Screening => {Interviewing, Rejected, Withdrawn}
    case Interviewing => {Offer, Rejected, Withdrawn}
    case Offer => {Accepted, Rejected, Withdrawn}
    case Accepted => {}
    case Rejected => {Saved}
    case Withdrawn => {Saved}
  }

  datatype Error = NotFound | InvalidStatus(name: string) | NotAllowed(from: Status, to: Status)

  /** `validate_transition` */
  function ValidateTransition(current: Status, newStatus: string): Result<Status, Error> {
    match ParseStatus(newStatus)
    case None => Err(InvalidStatus(newStatus))
    case Some(s) => if s !in Allowed(current) then Err(NotAllowed(current, s)) else Ok(s)
  }

  // Rows are created through the service, or by a successful automatic application.
  datatype Origin = Created | AutoApplied

  datatype Application = Application(
    userId: nat, jobId: Option<string>, companyName: Option<string>, origin: Origin, status: Status,
    createdAt: int, updatedAt: int, appliedAt: Option<int>, offerAt: Option<int>, rejectedAt: Option<int>)

  datatype HistoryRow = HistoryRow(applicationId: nat, oldStatus: Option<Status>, newStatus: Status,
                                   changeSource: string, changedAt: int)

  datatype Tables = Tables(applications: seq<Application>, history: seq<HistoryRow>)

  const EMPTY := Tables([], [])

  predicate Owns(t: Tables, id: nat, userId: nat) {
    id < |t.applications| && t.applications[id].userId == userId
  }

  function Moved(a: Application, to: Status, now: int): Application {
    a.(status := to, updatedAt := now,
       appliedAt := if to == Applied then Some(now) else a.appliedAt,
       offerAt := if to == Offer then Some(now) else a.offerAt,
       rejectedAt := if to == Rejected then Some(now) else a.rejectedAt)
  }

  datatype Operation =
    | Create(userId: nat, jobId: Option<string>, companyName: Option<string>, now: int)
    | AutoApply(userId: nat, appliedJobId: string, companyName: Option<string>, now: int)
    | Transition(id: nat, newStatus: string, changeSource: string, userId: nat, now: int)

  predicate HasApplied(t: Tables, userId: nat, jobId: string) {
    exists a :: a in t.applications && a.userId == userId && a.jobId == Some(jobId)
  }

  function TransitionError(t: Tables, op: Operation): Option<Error>
    requires op.Transition?
  {
    if !Owns(t, op.id, op.userId) then Some(NotFound)
    else
      match ValidateTransition(t.applications[op.id].status, op.newStatus)
      case Err(e) => Some(e)
      case Ok(_) => None
  }

  function Next(t: Tables, op: Operation): Tables {
    match op
    case Create(userId, jobId, companyName, now) =>
      var a := Application(userId, jobId, companyName, Created, Saved, now, now, None, None, None);
      Tables(t.applications + [a],
             t.history + [HistoryRow(|t.applications|, None, Saved, "system", now)])
    case AutoApply(userId, jobId, companyName, now) =>
      if HasApplied(t, userId, jobId) then t
      else
        var a := Application(userId, Some(jobId), companyName, AutoApplied, Applied, now, now, Some(now), None, None);
        t.(applications := t.applications + [a])
    case Transition(id, newStatus, changeSource, userId, now) =>
      if TransitionError(t, op).Some? then t
      else
        var a, to := t.applications[id], ParseStatus(newStatus).value;
        Tables(t.applications[id := Moved(a, to, now)],
               t.history + [HistoryRow(id, Some(a.status), to, changeSource, now)])
  }

  class PipelineService {
    var applications: seq<Application>
    var history: seq<HistoryRow>

    function View(): Tables
      reads this
    {
      Tables(applications, history)
    }

    constructor ()
      ensures View() == EMPTY
    {
      applications, history := [], [];
    }

    method CreateApplication(userId: nat, jobId: Option<string>, companyName: Option<string>, now: int)
        returns (id: nat)
      modifies this
      ensures View() == Next(old(View()), Create(userId, jobId, companyName, now))
      ensures id == |old(applications)| && Owns(View(), id, userId)
    {
      id := |applications|;
      applications := applications
        + [Application(userId, jobId, companyName, Created, Saved, now, now, None, None, None)];
      history := history + [HistoryRow(id, None, Saved, "system", now)];
    }

    /** `_record_application` */
    method RecordApplication(userId: nat, jobId: string, companyName: Option<string>, now: int)
      modifies this
      ensures View() == Next(old(View()), AutoApply(userId, jobId, companyName, now))
    {
      for i := 0 to |applications|
        invariant applications == old(applications) && history == old(history)
        invariant forall k :: 0 <= k < i ==> applications[k].userId != userId || applications[k].jobId != Some(jobId)
      {
        if applications[i].userId == userId && applications[i].jobId == Some(jobId) {
          return;
        }
      }
      applications := applications
        + [Application(userId, Some(jobId), companyName, AutoApplied, Applied, now, now, Some(now), None, None)];
    }

    method TransitionStatus(id: nat, newStatus: string, changeSource: string, userId: nat, now: int)
        returns (error: Option<Error>)
      modifies this
      ensures var op := Transition(id, newStatus, changeSource, userId, now);
        error == TransitionError(old(View()), op) && View() == Next(old(View()), op)
    {
      if !Owns(View(), id, userId) {
        return Some(NotFound);
      }
      var app := applications[id];
      var validated := ValidateTransition(app.status, newStatus);
      if validated.Err? {
        return Some(validated.error);
      }
      var oldStatus := app.status;
      app := app.(status := validated.value, updatedAt := now);
      if validated.value == Applied {
        app := app.(appliedAt := Some(now));
      } else if validated.value == Offer {
        app := app.(offerAt := Some(now));
      } else if validated.value == Rejected {
        app := app.(rejectedAt := Some(now));
      }
      applications := applications[id := app];
      history := history + [HistoryRow(id, Some(oldStatus), validated.value, changeSource, now)];
      error := None;
    }
  }

  // ----- Runs -----

  ghost function After(ops: seq<Operation>): Tables {
    if ops == [] then EMPTY else Next(After(ops[..|ops| - 1]), ops[|ops| - 1])
  }

  // The rows of one application, oldest first.
  ghost function HistoryOf(history: seq<HistoryRow>, id: nat): seq<HistoryRow> {
    if history == [] then []
    else
      var n := |history| - 1;
      HistoryOf(history[..n], id) + if history[n].applicationId == id then [history[n]] else []
  }

  lemma HistoryGrows(history: seq<HistoryRow>, row: HistoryRow, id: nat)
    ensures HistoryOf(history + [row], id)
         == if row.applicationId == id then HistoryOf(history, id) + [row] else HistoryOf(history, id)
  {
    assert (history + [row])[..|history|] == history;
  }

  // The status a history leads to: its last row's, or `applied` for an automatic row without any.
  ghost function EndStatus(h: seq<HistoryRow>): Status {
    if h == [] then Applied else h[|h| - 1].newStatus
  }

  // A walk along allowed edges. The first row of a created application says that it was saved.
  ghost predicate IsWalk(h: seq<HistoryRow>, origin: Origin) {
    if h == [] then origin == AutoApplied
    else
      var row, before := h[|h| - 1], h[..|h| - 1];
      if origin == Created && before == [] then row.oldStatus == None && row.newStatus == Saved
      else
        && IsWalk(before, origin)
        && row.oldStatus == Some(EndStatus(before)) && row.newStatus in Allowed(EndStatus(before))
  }

  // When a status was last entered, according to the history.
  ghost function LastEntered(h: seq<HistoryRow>, s: Status, default: Option<int>): Option<int> {
    if h == [] then default
    else if h[|h| - 1].newStatus == s then Some(h[|h| - 1].changedAt)
    else LastEntered(h[..|h| - 1], s, default)
  }

  ghost predicate Recorded(a: Application, h: seq<HistoryRow>) {
    && IsWalk(h, a.origin)
    && a.status == EndStatus(h)
    && a.appliedAt == LastEntered(h, Applied, if a.origin == AutoApplied then Some(a.createdAt) else None)
    && a.offerAt == LastEntered(h, Offer, None)
    && a.rejectedAt == LastEntered(h, Rejected, None)
  }

  ghost predicate WellRecorded(t: Tables) {
    && (forall row :: row in t.history ==> row.applicationId < |t.applications|)
    && (forall id :: 0 <= id < |t.applications| ==> Recorded(t.applications[id], HistoryOf(t.history, id)))
  }

  lemma {:induction false} NoHistoryYet(history: seq<HistoryRow>, id: nat)
    requires forall row :: row in history ==> row.applicationId != id
    ensures HistoryOf(history, id) == []
  {
    if history != [] {
      NoHistoryYet(history[..|history| - 1], id);
    }
  }

  lemma OperationKeepsRecords(t: Tables, op: Operation)
    requires WellRecorded(t)
    ensures WellRecorded(Next(t, op))
  {
    hide Recorded, HistoryOf;
    var n := |t.applications|;
    match op
    case Create(userId, jobId, companyName, now) =>
      var row := HistoryRow(n, None, Saved, "system", now);
      NoHistoryYet(t.history, n);
      NewRowIsRecorded(Next(t, op).applications[n], row);
      forall id: nat | id <= n
        ensures Recorded(Next(t, op).applications[id], HistoryOf(Next(t, op).history, id))
      {
        HistoryGrows(t.history, row, id);
        assert [] + [row] == [row];
      }
    case AutoApply(userId, jobId, companyName, now) =>
      NoHistoryYet(t.history, n);
      if !HasApplied(t, userId, jobId) {
        NewAutoRowIsRecorded(Next(t, op).applications[n]);
      }
    case Transition(id, newStatus, changeSource, userId, now) =>
      if TransitionError(t, op).None? {
        var a, to := t.applications[id], ParseStatus(newStatus).value;
        var row := HistoryRow(id, Some(a.status), to, changeSource, now);
        forall other: nat | other < n
          ensures Recorded(Next(t, op).applications[other], HistoryOf(Next(t, op).history, other))
        {
          HistoryGrows(t.history, row, other);
          MoveIsRecorded(a, HistoryOf(t.history, id), row);
        }
      }
  }

  lemma NewRowIsRecorded(a: Application, row: HistoryRow)
    requires a.origin == Created && a.status == Saved && a.appliedAt == a.offerAt == a.rejectedAt == None
    requires row.oldStatus == None && row.newStatus == Saved
    ensures Recorded(a, [row])
  {
    assert [row][..0] == [];
  }

  lemma NewAutoRowIsRecorded(a: Application)
    requires a.origin == AutoApplied && a.status == Applied
    requires a.appliedAt == Some(a.createdAt) && a.offerAt == a.rejectedAt == None
    ensures Recorded(a, [])
  {
  }

  lemma MoveIsRecorded(a: Application, h: seq<HistoryRow>, row: HistoryRow)
    requires Recorded(a, h) && row.oldStatus == Some(a.status) && row.newStatus in Allowed(a.status)
    ensures Recorded(Moved(a, row.newStatus, row.changedAt), h + [row])
  {
    assert (h + [row])[..|h|] == h;
  }

  /**
   Over every run, each application's history is a walk along allowed edges from the way it was created to its
   current status, and its three stamps say when that history last entered `applied`, `offer` and `rejected`.
   */
  lemma {:induction false} HistoryTellsTheStory(ops: seq<Operation>)
    ensures WellRecorded(After(ops))
  {
    if ops != [] {
      HistoryTellsTheStory(ops[..|ops| - 1]);
      OperationKeepsRecords(After(ops[..|ops| - 1]), ops[|ops| - 1]);
    }
  }

  // ----- What a walk implies -----

  lemma EdgesInto(s: Status)
    ensures Accepted in Allowed(s) <==> s == Offer
    ensures Offer in Allowed(s) <==> s == Interviewing
    ensures Saved in Allowed(s) <==> s == Rejected || s == Withdrawn
    ensures Applied in Allowed(s) <==> s == Saved
  {
  }

  /** Accepted ends a history for good, and is reached only by interviewing, then offer, then accepted. */
  lemma {:induction false} AcceptedIsEarnedAndFinal(h: seq<HistoryRow>, origin: Origin)
    requires IsWalk(h, origin)
    ensures forall i :: 0 <= i < |h| && h[i].newStatus == Accepted ==> i == |h| - 1
    ensures EndStatus(h) == Offer ==> |h| >= 2 && h[|h| - 2].newStatus == Interviewing
    ensures EndStatus(h) == Accepted ==>
      |h| >= 3 && h[|h| - 2].newStatus == Offer && h[|h| - 3].newStatus == Interviewing
  {
    if h != [] && !(origin == Created && |h| == 1) {
      AcceptedIsEarnedAndFinal(h[..|h| - 1], origin);
      EdgesInto(EndStatus(h[..|h| - 1]));
    }
  }

  lemma NothingLeavesAccepted(t: Tables, op: Operation)
    requires op.Transition? && Owns(t, op.id, op.userId) && t.applications[op.id].status == Accepted
    ensures TransitionError(t, op).Some? && Next(t, op) == t
  {
  }

  // How far along the pipeline a status is.
  function Rank(s: Status): nat {
    match s
    case Saved => 1
    case Applied => 2
    case Screening => 3
    case Interviewing => 4
    case Offer => 5
    case Rejected => 6
    case Withdrawn => 6
    case Accepted => 6
  }

  // The times a closed application was saved again.
  ghost function Returns(h: seq<HistoryRow>): nat {
    if h == [] then 0
    else Returns(h[..|h| - 1]) + if h[|h| - 1].newStatus == Saved && h[|h| - 1].oldStatus.Some? then 1 else 0
  }

  lemma EdgesClimb(s: Status, to: Status)
    requires to in Allowed(s)
    ensures if to == Saved then Rank(s) == 6 else Rank(s) < Rank(to)
  {
  }

  /** A history grows by at most six rows for each time the application starts over. */
  lemma {:induction false} HistoryLengthBound(h: seq<HistoryRow>, origin: Origin)
    requires IsWalk(h, origin)
    ensures |h| + (if origin == AutoApplied then 2 else 0) <= 6 * Returns(h) + Rank(EndStatus(h)) <= 6 * Returns(h) + 6
  {
    hide Allowed;
    if h != [] && !(origin == Created && |h| == 1) {
      var before := h[..|h| - 1];
      HistoryLengthBound(before, origin);
      EdgesClimb(EndStatus(before), h[|h| - 1].newStatus);
    }
  }

  // A new application taken through the given statuses, one after the other.
  ghost function Course(steps: seq<Status>): (h: seq<HistoryRow>)
    ensures |h| == |steps| + 1
    ensures EndStatus(h) == if steps == [] then Saved else steps[|steps| - 1]
  {
    if steps == [] then [HistoryRow(0, None, Saved, "system", 0)]
    else
      var before := Course(steps[..|steps| - 1]);
      before + [HistoryRow(0, Some(EndStatus(before)), steps[|steps| - 1], "user", 0)]
  }

  /** The bound is reached: the full course to acceptance has six rows and no return. */
  lemma HistoryLengthIsReached()
    ensures var h := Course([Applied, Screening, Interviewing, Offer, Accepted]);
      IsWalk(h, Created) && |h| == 6 && Returns(h) == 0
  {
    hide Course, IsWalk, Returns;
    CourseStep([], Applied);
    CourseStep([Applied], Screening);
    CourseStep([Applied, Screening], Interviewing);
    CourseStep([Applied, Screening, Interviewing], Offer);
    CourseStep([Applied, Screening, Interviewing, Offer], Accepted);
    assert [Applied] + [Screening] == [Applied, Screening] && [] + [Applied] == [Applied];
    assert [Applied, Screening] + [Interviewing] == [Applied, Screening, Interviewing];
    assert [Applied, Screening, Interviewing] + [Offer] == [Applied, Screening, Interviewing, Offer];
    assert [Applied, Screening, Interviewing, Offer] + [Accepted]
        == [Applied, Screening, Interviewing, Offer, Accepted];
  }

  lemma CourseStep(steps: seq<Status>, to: Status)
    requires to in Allowed(if steps == [] then Saved else steps[|steps| - 1])
    ensures IsWalk(Course([]), Created) && Returns(Course([])) == 0
    ensures IsWalk(Course(steps), Created) ==> IsWalk(Course(steps + [to]), Created)
    ensures to != Saved ==> Returns(Course(steps + [to])) == Returns(Course(steps))
  {
    assert Course([])[..0] == [];
    var longer := Course(steps + [to]);
    assert (steps + [to])[..|steps|] == steps;
    assert longer[..|longer| - 1] == Course(steps);
  }

  // The statuses in which an application has been sent off, and has been offered.
  ghost predicate HasBeenApplied(s: Status) {
    s in {Applied, Screening, Interviewing, Offer, Rejected, Accepted}
  }

  ghost predicate HasBeenOffered(s: Status) {
    s in {Offer, Accepted}
  }

  lemma {:induction false} StatusImpliesEntries(h: seq<HistoryRow>, origin: Origin, default: Option<int>)
    requires IsWalk(h, origin) && (origin == AutoApplied ==> default.Some?)
    ensures HasBeenApplied(EndStatus(h)) ==> LastEntered(h, Applied, default).Some?
    ensures HasBeenOffered(EndStatus(h)) ==> LastEntered(h, Offer, None).Some?
    ensures EndStatus(h) == Rejected ==> LastEntered(h, Rejected, None).Some?
  {
    if h != [] && !(origin == Created && |h| == 1) {
      StatusImpliesEntries(h[..|h| - 1], origin, default);
      EdgesInto(EndStatus(h[..|h| - 1]));
    }
  }

  /** The stamps that a status requires are there, after every run. */
  lemma StampsAreThere(ops: seq<Operation>, id: nat)
    requires id < |After(ops).applications|
    ensures var a := After(ops).applications[id];
      && (HasBeenApplied(a.status) ==> a.appliedAt.Some?)
      && (HasBeenOffered(a.status) ==> a.offerAt.Some?)
      && (a.status == Rejected ==> a.rejectedAt.Some?)
  {
    HistoryTellsTheStory(ops);
    var a, h := After(ops).applications[id], HistoryOf(After(ops).history, id);
    StatusImpliesEntries(h, a.origin, if a.origin == AutoApplied then Some(a.createdAt) else None);
  }

  // ----- Exactly which transitions are made -----

  ghost predicate IsNameOf(name: string, s: Status) {
    || (name == "saved" && s == Saved) || (name == "applied" && s == Applied) || (name == "screening" && s == Screening)
    || (name == "interviewing" && s == Interviewing) || (name == "offer" && s == Offer) || (name == "rejected" && s == Rejected)
    || (name == "withdrawn" && s == Withdrawn) || (name == "accepted" && s == Accepted)
  }

  ghost predicate IsEdge(from: Status, to: Status) {
    match to
    case Saved => from in {Rejected, Withdrawn}
    case Applied => from == Saved
    case Screening => from == Applied
    case Interviewing => from in {Applied, Screening}
    case Offer => from == Interviewing
    case Accepted => from == Offer
    case Rejected => from in {Applied, Screening, Interviewing, Offer}
    case Withdrawn => from in {Saved, Applied, Screening, Interviewing, Offer}
  }

  /**
   A transition is made if and only if the application is the user's and the name is that of a status its own leads to.
   It then changes the status, stamps applications, offers and rejections, and adds one row; otherwise it changes
   nothing, and says why.
   */
  lemma TransitionIsMadeIff(t: Tables, op: Operation, to: Status)
    requires op.Transition? && (op.id < |t.applications| ==> IsNameOf(op.newStatus, to))
    ensures var after, error := Next(t, op), TransitionError(t, op);
      if op.id >= |t.applications| || t.applications[op.id].userId != op.userId then error == Some(NotFound) && after == t
      else
        var a := t.applications[op.id];
        if !IsEdge(a.status, to) then error == Some(NotAllowed(a.status, to)) && after == t
        else
          && error == None
          && after.applications == t.applications[op.id := a.(status := to, updatedAt := op.now,
               appliedAt := if to == Applied then Some(op.now) else a.appliedAt,
               offerAt := if to == Offer then Some(op.now) else a.offerAt,
               rejectedAt := if to == Rejected then Some(op.now) else a.rejectedAt)]
          && after.history == t.history + [HistoryRow(op.id, Some(a.status), to, op.changeSource, op.now)]
  {
    if op.id < |t.applications| {
      assert ParseStatus(op.newStatus) == Some(to);
      var from := t.applications[op.id].status;
      assert to in Allowed(from) <==> IsEdge(from, to);
    }
  }

  /** A name that is no status is refused. */
  lemma UnknownNamesAreRefused(t: Tables, op: Operation)
    requires op.Transition? && Owns(t, op.id, op.userId) && forall s :: !IsNameOf(op.newStatus, s)
    ensures TransitionError(t, op) == Some(InvalidStatus(op.newStatus)) && Next(t, op) == t
  {
    var parsed := ParseStatus(op.newStatus);
    if parsed.Some? {
      assert IsNameOf(op.newStatus, parsed.value);
    }
  }

  /** What a new application, and one recorded by an automatic submission, consist of. */
  lemma NewApplicationsAre(t: Tables, userId: nat, jobId: Option<string>, company: Option<string>, applied: string, now: int)
    ensures Next(t, Create(userId, jobId, company, now)) == Tables(
      t.applications + [Application(userId, jobId, company, Created, Saved, now, now, None, None, None)],
      t.history + [HistoryRow(|t.applications|, None, Saved, "system", now)])
    ensures var known := exists i :: 0 <= i < |t.applications| && t.applications[i].userId == userId
                                     && t.applications[i].jobId == Some(applied);
      Next(t, AutoApply(userId, applied, company, now)) ==
        if known then t
        else t.(applications := t.applications
          + [Application(userId, Some(applied), company, AutoApplied, Applied, now, now, Some(now), None, None)])
  {
    if HasApplied(t, userId, applied) {
      var a :| a in t.applications && a.userId == userId && a.jobId == Some(applied);
      var i :| 0 <= i < |t.applications| && t.applications[i] == a;
    }
  }
}
