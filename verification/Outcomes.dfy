/**
 Company insights: backend/app/outcomes/service.py. Recording an outcome updates one row per user and company
 in place; where there is no row, a request computes the same figures from all the outcomes.

 An application is named by its position in the table. Rounding is arbitrary, and so an input.
 */
module Outcomes {
  import opened Sums
  import opened Wrappers

  datatype Facts = Facts(wasGhosted: bool, daysToResponse: Option<int>, offerAmount: Option<int>,
                         rejectionReason: Option<string>)

  datatype Application = Application(userId: nat, companyName: Option<string>)

  datatype Outcome = Outcome(applicationId: nat, userId: nat, facts: Facts)

  datatype Insight = Insight(
    totalApplications: nat, callbackCount: nat, avgResponseDays: Option<real>, ghostedCount: nat,
    ghostRate: real, rejectionRate: real, offerRate: real, offersReceived: nat, avgOfferAmount: Option<real>)

  type Key = (nat, string)

  datatype Tables = Tables(applications: seq<Application>, outcomes: seq<Outcome>, insights: map<Key, Insight>)

  const EMPTY := Tables([], [], map[])

  // Rounding to one and to two places.
  datatype Rounding = Rounding(one: real -> real, two: real -> real)

  datatype Error = NotFound | AlreadyExists

  // ----- The figures as computed from all outcomes -----

  predicate Responded(f: Facts) { f.daysToResponse.Some? }

  predicate Offered(f: Facts) { f.offerAmount.Some? }

  predicate Ghosted(f: Facts) { f.wasGhosted }

  predicate WasRejected(f: Facts) { f.rejectionReason.Some? }

  function Days(f: Facts): int { if f.daysToResponse.Some? then f.daysToResponse.value else 0 }

  function Amount(f: Facts): int { if f.offerAmount.Some? then f.offerAmount.value else 0 }

  function Average(total: real, n: nat): real
    requires n > 0
  {
    total / n as real
  }

  function Total(average: real, n: nat): real {
    average * n as real
  }

  function Mean(sum: int, n: nat): Option<real> {
    if n == 0 then None else Some(Average(sum as real, n))
  }

  function Rate(r: Rounding, count: nat, total: nat): real
    requires total > 0
  {
    r.two(Average(count as real, total))
  }

  // All figures, the averages not yet rounded.
  function Summary(r: Rounding, facts: seq<Facts>): Insight
    requires facts != []
  {
    Insight(|facts|,
            CountBy(Responded, facts), Mean(SumBy(Days, facts), CountBy(Responded, facts)),
            CountBy(Ghosted, facts), Rate(r, CountBy(Ghosted, facts), |facts|),
            Rate(r, CountBy(WasRejected, facts), |facts|), Rate(r, CountBy(Offered, facts), |facts|),
            CountBy(Offered, facts), Mean(SumBy(Amount, facts), CountBy(Offered, facts)))
  }

  function Rounded(r: Rounding, i: Insight): Insight {
    i.(avgResponseDays := if i.avgResponseDays.Some? then Some(r.one(i.avgResponseDays.value)) else None,
       avgOfferAmount := if i.avgOfferAmount.Some? then Some(r.two(i.avgOfferAmount.value)) else None)
  }

  predicate AtCompany(applications: seq<Application>, o: Outcome, key: Key) {
    && o.userId == key.0
    && o.applicationId < |applications| && applications[o.applicationId].companyName == Some(key.1)
  }

  function FactsAt(applications: seq<Application>, outcomes: seq<Outcome>, key: Key): seq<Facts> {
    if outcomes == [] then []
    else
      var o := outcomes[|outcomes| - 1];
      FactsAt(applications, outcomes[..|outcomes| - 1], key)
      + if AtCompany(applications, o, key) then [o.facts] else []
  }

  /** `_compute_company_insight` */
  function ComputeCompanyInsight(r: Rounding, t: Tables, key: Key): Result<Insight, Error> {
    var facts := FactsAt(t.applications, t.outcomes, key);
    if facts == [] then Err(NotFound) else Ok(Rounded(r, Summary(r, facts)))
  }

  /** `get_company_insights` */
  function GetCompanyInsights(r: Rounding, t: Tables, key: Key): Result<Insight, Error> {
    if key in t.insights then Ok(t.insights[key]) else ComputeCompanyInsight(r, t, key)
  }

  // ----- The figures as kept up to date -----

  const NEW_ROW := Insight(0, 0, None, 0, 0.0, 0.0, 0.0, 0, None)

  // The mean of `n` values after one more, from the mean of the others.
  function NextMean(mean: Option<real>, n: nat, value: int): Option<real>
    requires n > 0
  {
    match mean
    case None => Some(value as real)
    case Some(m) => Some(Average(Total(m, n - 1) + value as real, n))
  }

  function UpdatedRow(r: Rounding, row: Insight, f: Facts, rejected: nat): Insight {
    var total := row.totalApplications + 1;
    var ghosted := row.ghostedCount + if f.wasGhosted then 1 else 0;
    var callbacks := row.callbackCount + if Responded(f) then 1 else 0;
    var offers := row.offersReceived + if Offered(f) then 1 else 0;
    Insight(total,
            callbacks, if Responded(f) then NextMean(row.avgResponseDays, callbacks, Days(f)) else row.avgResponseDays,
            ghosted, Rate(r, ghosted, total), Rate(r, rejected, total), Rate(r, offers, total),
            offers, if Offered(f) then NextMean(row.avgOfferAmount, offers, Amount(f)) else row.avgOfferAmount)
  }

  // `Apply` stands for whatever adds an application; `Amend` for a PATCH that leaves these facts.
  datatype Operation =
    | Apply(userId: nat, companyName: Option<string>)
    | Record(applicationId: nat, userId: nat, facts: Facts)
    | Amend(applicationId: nat, userId: nat, facts: Facts)

  predicate HasOutcome(t: Tables, applicationId: nat) {
    exists k :: 0 <= k < |t.outcomes| && t.outcomes[k].applicationId == applicationId
  }

  function RecordError(t: Tables, applicationId: nat, userId: nat): Option<Error> {
    if applicationId >= |t.applications| || t.applications[applicationId].userId != userId then Some(NotFound)
    else if HasOutcome(t, applicationId) then Some(AlreadyExists)
    else None
  }

  // The row a recorded outcome is counted in, if the application names a company.
  function KeyOf(applications: seq<Application>, applicationId: nat, userId: nat): Option<Key>
    requires applicationId < |applications|
  {
    match applications[applicationId].companyName
    case Some(company) => if company != "" then Some((userId, company)) else None
    case None => None
  }

  function Recorded(r: Rounding, t: Tables, o: Outcome): Tables
    requires o.applicationId < |t.applications|
  {
    var outcomes := t.outcomes + [o];
    var key := KeyOf(t.applications, o.applicationId, o.userId);
    if key.None? then t.(outcomes := outcomes)
    else
      var row := if key.value in t.insights then t.insights[key.value] else NEW_ROW;
      var rejected := CountBy(WasRejected, FactsAt(t.applications, outcomes, key.value));
      t.(outcomes := outcomes, insights := t.insights[key.value := UpdatedRow(r, row, o.facts, rejected)])
  }

  function Amended(outcomes: seq<Outcome>, applicationId: nat, userId: nat, facts: Facts): (s: seq<Outcome>)
    ensures |s| == |outcomes|
  {
    seq(|outcomes|, k requires 0 <= k < |outcomes| =>
      if outcomes[k].applicationId == applicationId && outcomes[k].userId == userId
      then outcomes[k].(facts := facts) else outcomes[k])
  }

  function Next(r: Rounding, t: Tables, op: Operation): Tables {
    match op
    case Apply(userId, companyName) => t.(applications := t.applications + [Application(userId, companyName)])
    case Record(applicationId, userId, facts) =>
      if RecordError(t, applicationId, userId).Some? then t else Recorded(r, t, Outcome(applicationId, userId, facts))
    case Amend(applicationId, userId, facts) => t.(outcomes := Amended(t.outcomes, applicationId, userId, facts))
  }

  class OutcomeService {
    const rounding: Rounding
    const applications: seq<Application>
    var outcomes: seq<Outcome>
    var insights: map<Key, Insight>

    function View(): Tables
      reads this
    {
      Tables(applications, outcomes, insights)
    }

    constructor (rounding: Rounding, t: Tables)
      ensures View() == t && this.rounding == rounding
    {
      this.rounding, applications, outcomes, insights := rounding, t.applications, t.outcomes, t.insights;
    }

    method RecordOutcome(applicationId: nat, userId: nat, facts: Facts) returns (error: Option<Error>)
      modifies this
      ensures error == RecordError(old(View()), applicationId, userId)
      ensures View() == Next(rounding, old(View()), Record(applicationId, userId, facts))
    {
      if applicationId >= |applications| || applications[applicationId].userId != userId {
        return Some(NotFound);
      }
      for i := 0 to |outcomes|
        invariant unchanged(this)
        invariant forall k :: 0 <= k < i ==> outcomes[k].applicationId != applicationId
      {
        if outcomes[i].applicationId == applicationId {
          return Some(AlreadyExists);
        }
      }
      outcomes := outcomes + [Outcome(applicationId, userId, facts)];
      var companyName := applications[applicationId].companyName;
      if companyName.Some? && companyName.value != "" {
        UpdateCompanyInsight((userId, companyName.value), facts);
      }
      error := None;
    }

    /** `update_outcome`, with the facts that the changes leave. */
    method UpdateOutcome(applicationId: nat, userId: nat, facts: Facts) returns (error: Option<Error>)
      requires WellFormed(View())
      modifies this`outcomes
      ensures View() == Next(rounding, old(View()), Amend(applicationId, userId, facts))
      ensures error == Some(NotFound) <==>
        forall o :: o in old(outcomes) ==> o.applicationId != applicationId || o.userId != userId
      ensures error in {None, Some(NotFound)}
    {
      for i := 0 to |outcomes|
        invariant outcomes == old(outcomes)
        invariant forall k :: 0 <= k < i ==> outcomes[k].applicationId != applicationId || outcomes[k].userId != userId
      {
        if outcomes[i].applicationId == applicationId && outcomes[i].userId == userId {
          assert outcomes[i] in old(outcomes);
          outcomes := outcomes[i := outcomes[i].(facts := facts)];
          assert outcomes == Amended(old(outcomes), applicationId, userId, facts);
          return None;
        }
      }
      assert outcomes == Amended(outcomes, applicationId, userId, facts);
      error := Some(NotFound);
    }

    /** `_update_company_insight`; the outcome is in the table already. */
    method UpdateCompanyInsight(key: Key, f: Facts)
      modifies this`insights
      ensures var row := if key in old(insights) then old(insights)[key] else NEW_ROW;
        insights == old(insights)
          [key := UpdatedRow(rounding, row, f, CountBy(WasRejected, FactsAt(applications, outcomes, key)))]
    {
      hide Average, Total, CountBy, FactsAt;
      var row := if key in insights then insights[key] else NEW_ROW;
      row := row.(totalApplications := row.totalApplications + 1);
      if f.wasGhosted {
        row := row.(ghostedCount := row.ghostedCount + 1);
      }
      if f.daysToResponse.Some? {
        row := row.(callbackCount := row.callbackCount + 1);
        if row.avgResponseDays.Some? {
          var totalDays := Total(row.avgResponseDays.value, row.callbackCount - 1);
          row := row.(avgResponseDays := Some(Average(totalDays + f.daysToResponse.value as real, row.callbackCount)));
        } else {
          row := row.(avgResponseDays := Some(f.daysToResponse.value as real));
        }
      }
      if f.offerAmount.Some? {
        row := row.(offersReceived := row.offersReceived + 1);
        if row.avgOfferAmount.Some? {
          var totalOffer := Total(row.avgOfferAmount.value, row.offersReceived - 1);
          row := row.(avgOfferAmount := Some(Average(totalOffer + f.offerAmount.value as real, row.offersReceived)));
        } else {
          row := row.(avgOfferAmount := Some(f.offerAmount.value as real));
        }
      }
      var total := row.totalApplications;
      row := row.(ghostRate := Rate(rounding, row.ghostedCount, total),
                  offerRate := Rate(rounding, row.offersReceived, total));
      var rejectedCount := CountBy(WasRejected, FactsAt(applications, outcomes, key));
      row := row.(rejectionRate := Rate(rounding, rejectedCount, total));
      insights := insights[key := row];
    }
  }

  // ----- The rows are the figures -----

  // Outcomes belong to their application's user, and no application has two.
  ghost predicate WellFormed(t: Tables) {
    && (forall o :: o in t.outcomes ==> o.applicationId < |t.applications| && t.applications[o.applicationId].userId == o.userId)
    && (forall i, j :: 0 <= i < j < |t.outcomes| ==> t.outcomes[i].applicationId != t.outcomes[j].applicationId)
  }

  // There is a row exactly for the named companies with an outcome, and it holds the unrounded figures.
  ghost predicate RowIsExact(r: Rounding, t: Tables, key: Key) {
    var facts := FactsAt(t.applications, t.outcomes, key);
    && (key in t.insights <==> key.1 != "" && facts != [])
    && (key in t.insights ==> t.insights[key] == Summary(r, facts))
  }

  ghost predicate RowsAreExact(r: Rounding, t: Tables) {
    forall key :: RowIsExact(r, t, key)
  }

  lemma TotalOfAverage(total: real, n: nat)
    requires n > 0
    ensures Total(Average(total, n), n) == total
  {
  }

  lemma NextMeanIsMean(sum: int, n: nat, value: int)
    requires n == 0 ==> sum == 0
    ensures NextMean(Mean(sum, n), n + 1, value) == Mean(sum + value, n + 1)
  {
    if n > 0 {
      hide Average, Total;
      TotalOfAverage(sum as real, n);
    } else {
      assert Average(value as real, 1) == value as real;
    }
  }

  lemma {:induction false} NothingToAdd(facts: seq<Facts>)
    ensures CountBy(Responded, facts) == 0 ==> SumBy(Days, facts) == 0
    ensures CountBy(Offered, facts) == 0 ==> SumBy(Amount, facts) == 0
  {
    if facts != [] {
      NothingToAdd(facts[..|facts| - 1]);
    }
  }

  /** One incremental update of the exact figures gives the exact figures of one outcome more. */
  lemma UpdatedSummary(r: Rounding, facts: seq<Facts>, f: Facts)
    ensures UpdatedRow(r, if facts == [] then NEW_ROW else Summary(r, facts), f, CountBy(WasRejected, facts + [f]))
         == Summary(r, facts + [f])
  {
    hide NextMean, Average;
    assert (facts + [f])[..|facts|] == facts;
    NothingToAdd(facts);
    NextMeanIsMean(SumBy(Days, facts), CountBy(Responded, facts), Days(f));
    NextMeanIsMean(SumBy(Amount, facts), CountBy(Offered, facts), Amount(f));
  }

  lemma {:induction false} FactsOfOldApplications(before: seq<Application>, after: seq<Application>, outcomes: seq<Outcome>, key: Key)
    requires before <= after
    requires forall o :: o in outcomes ==> o.applicationId < |before|
    ensures FactsAt(after, outcomes, key) == FactsAt(before, outcomes, key)
  {
    if outcomes != [] {
      FactsOfOldApplications(before, after, outcomes[..|outcomes| - 1], key);
    }
  }

  lemma RecordKeepsRowExact(r: Rounding, t: Tables, o: Outcome, key: Key)
    requires WellFormed(t) && RowIsExact(r, t, key)
    requires RecordError(t, o.applicationId, o.userId).None?
    ensures RowIsExact(r, Recorded(r, t, o), key)
  {
    hide Summary, UpdatedRow, CountBy;
    var facts := FactsAt(t.applications, t.outcomes, key);
    assert (t.outcomes + [o])[..|t.outcomes|] == t.outcomes;
    var changed := KeyOf(t.applications, o.applicationId, o.userId);
    assert changed == Some(key) <==> AtCompany(t.applications, o, key) && key.1 != "";
    if changed == Some(key) {
      UpdatedSummary(r, facts, o.facts);
      assert Recorded(r, t, o).insights[key] == Summary(r, facts + [o.facts]);
    } else {
      assert key in t.insights <==> key in Recorded(r, t, o).insights;
      assert key.1 == "" || FactsAt(t.applications, t.outcomes + [o], key) == facts;
    }
  }

  /** Whatever is applied for and recorded, the rows stay exact. */
  lemma OperationKeepsRowsExact(r: Rounding, t: Tables, op: Operation)
    requires WellFormed(t) && RowsAreExact(r, t) && !op.Amend?
    ensures WellFormed(Next(r, t, op)) && RowsAreExact(r, Next(r, t, op))
  {
    hide Recorded, Summary, FactsAt;
    if op.Apply? {
      forall key ensures RowIsExact(r, Next(r, t, op), key) {
        assert RowIsExact(r, t, key);
        FactsOfOldApplications(t.applications, Next(r, t, op).applications, t.outcomes, key);
      }
    } else if RecordError(t, op.applicationId, op.userId).None? {
      var o := Outcome(op.applicationId, op.userId, op.facts);
      forall key ensures RowIsExact(r, Next(r, t, op), key) {
        assert RowIsExact(r, t, key);
        RecordKeepsRowExact(r, t, o, key);
      }
      RecordAdds(r, t, o);
    }
  }

  lemma RecordAdds(r: Rounding, t: Tables, o: Outcome)
    requires o.applicationId < |t.applications|
    ensures Recorded(r, t, o).outcomes == t.outcomes + [o] && Recorded(r, t, o).applications == t.applications
  {
  }

  ghost function Run(r: Rounding, t: Tables, ops: seq<Operation>): Tables {
    if ops == [] then t else Next(r, Run(r, t, ops[..|ops| - 1]), ops[|ops| - 1])
  }

  lemma {:induction false} RowsStayExact(r: Rounding, t: Tables, ops: seq<Operation>)
    requires WellFormed(t) && RowsAreExact(r, t)
    requires forall op :: op in ops ==> !op.Amend?
    ensures WellFormed(Run(r, t, ops)) && RowsAreExact(r, Run(r, t, ops))
  {
    if ops != [] {
      RowsStayExact(r, t, ops[..|ops| - 1]);
      OperationKeepsRowsExact(r, Run(r, t, ops[..|ops| - 1]), ops[|ops| - 1]);
    }
  }

  /**
   After any run without amendments, what a request is told is what the computation from all outcomes says, up to
   the rounding of the two averages; and it is refused exactly when that has nothing to say.
   */
  lemma InsightsMeetTheComputation(r: Rounding, ops: seq<Operation>, key: Key)
    requires forall op :: op in ops ==> !op.Amend?
    ensures var t := Run(r, EMPTY, ops);
      match ComputeCompanyInsight(r, t, key)
      case Err(e) => GetCompanyInsights(r, t, key) == Err(e)
      case Ok(figures) =>
        && GetCompanyInsights(r, t, key).Ok?
        && (if key.1 == "" then GetCompanyInsights(r, t, key).value else Rounded(r, GetCompanyInsights(r, t, key).value)) == figures
  {
    assert forall k :: RowIsExact(r, EMPTY, k);
    RowsStayExact(r, EMPTY, ops);
    assert RowIsExact(r, Run(r, EMPTY, ops), key);
  }

  // ----- The order of recording -----

  // One list of facts weighs the same as another, whatever is weighed.
  ghost predicate SameSums(a: seq<Facts>, b: seq<Facts>) {
    forall w: Facts -> int :: SumBy(w, a) == SumBy(w, b)
  }

  lemma {:induction false} CountIsSum(p: Facts -> bool, facts: seq<Facts>)
    ensures CountBy(p, facts) == SumBy((f: Facts) => if p(f) then 1 else 0, facts)
  {
    if facts != [] {
      CountIsSum(p, facts[..|facts| - 1]);
    }
  }

  lemma {:induction false} LengthIsSum(facts: seq<Facts>)
    ensures |facts| == SumBy((f: Facts) => 1, facts)
  {
    if facts != [] {
      LengthIsSum(facts[..|facts| - 1]);
    }
  }

  lemma SameCounts(p: Facts -> bool, a: seq<Facts>, b: seq<Facts>)
    requires SameSums(a, b)
    ensures CountBy(p, a) == CountBy(p, b)
  {
    CountIsSum(p, a);
    CountIsSum(p, b);
  }

  lemma SameSummaries(r: Rounding, a: seq<Facts>, b: seq<Facts>)
    requires SameSums(a, b)
    ensures |a| == |b|
    ensures a != [] ==> Summary(r, a) == Summary(r, b)
  {
    LengthIsSum(a);
    LengthIsSum(b);
    SameCounts(Responded, a, b);
    SameCounts(Ghosted, a, b);
    SameCounts(WasRejected, a, b);
    SameCounts(Offered, a, b);
  }

  ghost function WeighedAt(applications: seq<Application>, key: Key, w: Facts -> int): Outcome -> int {
    (o: Outcome) => if AtCompany(applications, o, key) then w(o.facts) else 0
  }

  lemma {:induction false} SumAtCompany(applications: seq<Application>, outcomes: seq<Outcome>, key: Key, w: Facts -> int)
    ensures SumBy(w, FactsAt(applications, outcomes, key)) == SumBy(WeighedAt(applications, key, w), outcomes)
  {
    if outcomes != [] {
      var n := |outcomes| - 1;
      SumAtCompany(applications, outcomes[..n], key, w);
      if AtCompany(applications, outcomes[n], key) {
        SumOfConcat(w, FactsAt(applications, outcomes[..n], key), [outcomes[n].facts]);
      } else {
        assert FactsAt(applications, outcomes, key) == FactsAt(applications, outcomes[..n], key);
      }
    }
  }

  lemma {:induction false} OnlyTargetsGetOutcomes(r: Rounding, t: Tables, ops: seq<Operation>, id: nat)
    requires forall op :: op in ops ==> op.Record? && op.applicationId != id
    ensures HasOutcome(Run(r, t, ops), id) <==> HasOutcome(t, id)
    ensures Run(r, t, ops).applications == t.applications
  {
    if ops != [] {
      var before, op := Run(r, t, ops[..|ops| - 1]), ops[|ops| - 1];
      OnlyTargetsGetOutcomes(r, t, ops[..|ops| - 1], id);
      if RecordError(before, op.applicationId, op.userId).None? {
        RecordAdds(r, before, Outcome(op.applicationId, op.userId, op.facts));
        assert Run(r, t, ops).outcomes[..|before.outcomes|] == before.outcomes;
        if HasOutcome(before, id) {
          var k :| 0 <= k < |before.outcomes| && before.outcomes[k].applicationId == id;
          assert Run(r, t, ops).outcomes[k].applicationId == id;
        }
      }
    }
  }

  // What an operation adds to a sum over the outcomes, when it is the only one for its application.
  ghost function Adds(t: Tables, f: Outcome -> int): Operation -> int {
    (op: Operation) =>
      if op.Record? && RecordError(t, op.applicationId, op.userId).None?
      then f(Outcome(op.applicationId, op.userId, op.facts)) else 0
  }

  ghost predicate RecordsOncePerApplication(ops: seq<Operation>) {
    && (forall op :: op in ops ==> op.Record?)
    && (forall i, j :: 0 <= i < j < |ops| ==> ops[i].applicationId != ops[j].applicationId)
  }

  lemma {:induction false} SumAfterRun(r: Rounding, t: Tables, ops: seq<Operation>, f: Outcome -> int)
    requires RecordsOncePerApplication(ops)
    ensures SumBy(f, Run(r, t, ops).outcomes) == SumBy(f, t.outcomes) + SumBy(Adds(t, f), ops)
  {
    if ops != [] {
      var before, op := Run(r, t, ops[..|ops| - 1]), ops[|ops| - 1];
      SumAfterRun(r, t, ops[..|ops| - 1], f);
      OnlyTargetsGetOutcomes(r, t, ops[..|ops| - 1], op.applicationId);
      assert RecordError(before, op.applicationId, op.userId) == RecordError(t, op.applicationId, op.userId);
      if RecordError(t, op.applicationId, op.userId).None? {
        var o := Outcome(op.applicationId, op.userId, op.facts);
        RecordAdds(r, before, o);
        SumOfConcat(f, before.outcomes, [o]);
      }
    }
  }

  /** Recording the same outcomes in another order, one for each application, leaves the same rows. */
  lemma RecordingOrderIsIrrelevant(r: Rounding, t: Tables, ops: seq<Operation>, other: seq<Operation>)
    requires WellFormed(t) && RowsAreExact(r, t)
    requires multiset(ops) == multiset(other)
    requires RecordsOncePerApplication(ops) && RecordsOncePerApplication(other)
    ensures Run(r, t, ops).insights == Run(r, t, other).insights
  {
    var a, b := Run(r, t, ops), Run(r, t, other);
    RowsStayExact(r, t, ops);
    RowsStayExact(r, t, other);
    forall key: Key
      ensures key in a.insights <==> key in b.insights
      ensures key in a.insights ==> a.insights[key] == b.insights[key]
    {
      SameFactsAt(r, t, ops, other, key);
      assert RowIsExact(r, a, key) && RowIsExact(r, b, key);
      SameSummaries(r, FactsAt(a.applications, a.outcomes, key), FactsAt(b.applications, b.outcomes, key));
    }
  }

  lemma {:induction false} RecordsLeaveApplications(r: Rounding, t: Tables, ops: seq<Operation>)
    requires forall op :: op in ops ==> op.Record?
    ensures Run(r, t, ops).applications == t.applications
  {
    if ops != [] {
      RecordsLeaveApplications(r, t, ops[..|ops| - 1]);
      assert ops[|ops| - 1].Record?;
    }
  }

  lemma SameFactsAt(r: Rounding, t: Tables, ops: seq<Operation>, other: seq<Operation>, key: Key)
    requires multiset(ops) == multiset(other)
    requires RecordsOncePerApplication(ops) && RecordsOncePerApplication(other)
    ensures var a, b := Run(r, t, ops), Run(r, t, other);
      SameSums(FactsAt(a.applications, a.outcomes, key), FactsAt(b.applications, b.outcomes, key))
  {
    var a, b := Run(r, t, ops), Run(r, t, other);
    RecordsLeaveApplications(r, t, ops);
    RecordsLeaveApplications(r, t, other);
    forall w: Facts -> int
      ensures SumBy(w, FactsAt(a.applications, a.outcomes, key)) == SumBy(w, FactsAt(b.applications, b.outcomes, key))
    {
      var f := WeighedAt(t.applications, key, w);
      SumAtCompany(t.applications, a.outcomes, key, w);
      SumAtCompany(t.applications, b.outcomes, key, w);
      SumAfterRun(r, t, ops, f);
      SumAfterRun(r, t, other, f);
      SumIgnoresOrder(Adds(t, f), ops, other);
    }
  }

  // ----- Amendments -----

  function Unamended(ops: seq<Operation>): seq<Operation> {
    if ops == [] then []
    else Unamended(ops[..|ops| - 1]) + if ops[|ops| - 1].Amend? then [] else [ops[|ops| - 1]]
  }

  ghost predicate SameTargets(a: seq<Outcome>, b: seq<Outcome>) {
    && |a| == |b|
    && forall k :: 0 <= k < |a| ==> a[k].applicationId == b[k].applicationId && a[k].userId == b[k].userId
  }

  ghost predicate SameButRejections(a: map<Key, Insight>, b: map<Key, Insight>) {
    && a.Keys == b.Keys
    && forall key :: key in a ==> a[key] == b[key].(rejectionRate := a[key].rejectionRate)
  }

  ghost predicate InStep(a: Tables, b: Tables) {
    a.applications == b.applications && SameTargets(a.outcomes, b.outcomes) && SameButRejections(a.insights, b.insights)
  }

  lemma OperationKeepsStep(r: Rounding, a: Tables, b: Tables, op: Operation)
    requires InStep(a, b)
    ensures InStep(Next(r, a, op), if op.Amend? then b else Next(r, b, op))
  {
    hide CountBy, FactsAt, NextMean, Rate;
    if op.Record? {
      assert RecordError(a, op.applicationId, op.userId) == RecordError(b, op.applicationId, op.userId) by {
        if HasOutcome(a, op.applicationId) {
          var k :| 0 <= k < |a.outcomes| && a.outcomes[k].applicationId == op.applicationId;
          assert b.outcomes[k].applicationId == op.applicationId;
        }
        if HasOutcome(b, op.applicationId) {
          var k :| 0 <= k < |b.outcomes| && b.outcomes[k].applicationId == op.applicationId;
          assert a.outcomes[k].applicationId == op.applicationId;
        }
      }
    }
  }

  /**
   An amendment reaches nothing in a row but the rejection rate: in every run, the rows are otherwise those of the
   same run without its amendments.
   */
  lemma {:induction false} AmendmentsDoNotReachRows(r: Rounding, ops: seq<Operation>)
    ensures InStep(Run(r, EMPTY, ops), Run(r, EMPTY, Unamended(ops)))
  {
    hide Next;
    if ops != [] {
      var before, op := ops[..|ops| - 1], ops[|ops| - 1];
      AmendmentsDoNotReachRows(r, before);
      OperationKeepsStep(r, Run(r, EMPTY, before), Run(r, EMPTY, Unamended(before)), op);
      if op.Amend? {
        assert Unamended(ops) == Unamended(before);
      } else {
        assert Unamended(ops) == Unamended(before) + [op];
        assert Unamended(ops)[..|Unamended(ops)| - 1] == Unamended(before);
      }
    }
  }

  /** An amendment gives new facts to the user's own outcome of the application, and changes nothing else. */
  lemma AmendmentReaches(r: Rounding, t: Tables, applicationId: nat, userId: nat, facts: Facts)
    requires WellFormed(t)
    ensures var after := Next(r, t, Amend(applicationId, userId, facts));
      && after.applications == t.applications && after.insights == t.insights
      && (forall k :: 0 <= k < |t.outcomes| && t.outcomes[k].applicationId == applicationId && t.outcomes[k].userId == userId ==>
            after.outcomes == t.outcomes[k := Outcome(applicationId, userId, facts)])
      && ((forall o :: o in t.outcomes && o.applicationId == applicationId ==> o.userId != userId) ==> after == t)
  {
  }

  lemma AmendedSum(t: Tables, k: nat, facts: Facts, key: Key, w: Facts -> int)
    requires WellFormed(t) && k < |t.outcomes| && AtCompany(t.applications, t.outcomes[k], key)
    ensures var o := t.outcomes[k];
      SumBy(w, FactsAt(t.applications, Amended(t.outcomes, o.applicationId, o.userId, facts), key))
      == SumBy(w, FactsAt(t.applications, t.outcomes, key)) - w(o.facts) + w(facts)
  {
    var o := t.outcomes[k];
    var amended := Amended(t.outcomes, o.applicationId, o.userId, facts);
    assert amended == t.outcomes[k := o.(facts := facts)];
    SumAtCompany(t.applications, t.outcomes, key, w);
    SumAtCompany(t.applications, amended, key, w);
    SumOfUpdate(WeighedAt(t.applications, key, w), t.outcomes, k, o.(facts := facts));
  }

  lemma AmendedCount(t: Tables, k: nat, facts: Facts, key: Key, p: Facts -> bool)
    requires WellFormed(t) && k < |t.outcomes| && AtCompany(t.applications, t.outcomes[k], key)
    ensures var o := t.outcomes[k];
      CountBy(p, FactsAt(t.applications, Amended(t.outcomes, o.applicationId, o.userId, facts), key))
      == CountBy(p, FactsAt(t.applications, t.outcomes, key)) - (if p(o.facts) then 1 else 0) + if p(facts) then 1 else 0
  {
    var o := t.outcomes[k];
    AmendedSum(t, k, facts, key, (f: Facts) => if p(f) then 1 else 0);
    CountIsSum(p, FactsAt(t.applications, t.outcomes, key));
    CountIsSum(p, FactsAt(t.applications, Amended(t.outcomes, o.applicationId, o.userId, facts), key));
  }

  lemma MeansDiffer(sum: int, other: int, n: nat)
    ensures Mean(sum, n) == Mean(other, n) <==> n == 0 || sum == other
  {
    if n > 0 {
      hide Average, Total;
      TotalOfAverage(sum as real, n);
      TotalOfAverage(other as real, n);
    }
  }

  lemma {:induction false} CountedWhenMember(p: Facts -> bool, facts: seq<Facts>, f: Facts)
    requires f in facts && p(f)
    ensures CountBy(p, facts) > 0
  {
    if facts[|facts| - 1] != f {
      CountedWhenMember(p, facts[..|facts| - 1], f);
    }
  }

  lemma {:induction false} FactsAreSelected(applications: seq<Application>, outcomes: seq<Outcome>, key: Key, k: nat)
    requires k < |outcomes| && AtCompany(applications, outcomes[k], key)
    ensures outcomes[k].facts in FactsAt(applications, outcomes, key)
  {
    if k < |outcomes| - 1 {
      FactsAreSelected(applications, outcomes[..|outcomes| - 1], key, k);
    }
  }

  lemma CountedOnce(t: Tables, k: nat, key: Key, p: Facts -> bool)
    requires k < |t.outcomes| && AtCompany(t.applications, t.outcomes[k], key)
    ensures FactsAt(t.applications, t.outcomes, key) != []
    ensures p(t.outcomes[k].facts) ==> CountBy(p, FactsAt(t.applications, t.outcomes, key)) > 0
  {
    FactsAreSelected(t.applications, t.outcomes, key, k);
    if p(t.outcomes[k].facts) {
      CountedWhenMember(p, FactsAt(t.applications, t.outcomes, key), t.outcomes[k].facts);
    }
  }

  /**
   An amendment leaves its exact row exact if and only if it changes none of the ghosting, the response time and the
   offer, and the rejection rate still rounds to the same value.
   */
  lemma AmendmentLeavesRowExactIff(r: Rounding, t: Tables, k: nat, facts: Facts, key: Key)
    requires WellFormed(t) && RowIsExact(r, t, key) && key.1 != ""
    requires k < |t.outcomes| && AtCompany(t.applications, t.outcomes[k], key)
    ensures
      var o := t.outcomes[k];
      var amended := Next(r, t, Amend(o.applicationId, o.userId, facts));
      var before, after := FactsAt(t.applications, t.outcomes, key), FactsAt(t.applications, amended.outcomes, key);
      && |before| == |after| > 0
      && (RowIsExact(r, amended, key) <==>
          && facts.(rejectionReason := None) == o.facts.(rejectionReason := None)
          && Rate(r, CountBy(WasRejected, after), |after|) == Rate(r, CountBy(WasRejected, before), |before|))
  {
    hide Mean, Average, Amended;
    var o := t.outcomes[k];
    var amended := Next(r, t, Amend(o.applicationId, o.userId, facts));
    var before, after := FactsAt(t.applications, t.outcomes, key), FactsAt(t.applications, amended.outcomes, key);
    LengthIsSum(before);
    LengthIsSum(after);
    AmendedSum(t, k, facts, key, (f: Facts) => 1);
    AmendedCount(t, k, facts, key, Ghosted);
    AmendedCount(t, k, facts, key, Responded);
    AmendedCount(t, k, facts, key, Offered);
    AmendedSum(t, k, facts, key, Days);
    AmendedSum(t, k, facts, key, Amount);
    MeansDiffer(SumBy(Days, before), SumBy(Days, after), CountBy(Responded, before));
    MeansDiffer(SumBy(Amount, before), SumBy(Amount, after), CountBy(Offered, before));
    CountedOnce(t, k, key, Ghosted);
    CountedOnce(t, k, key, Responded);
    CountedOnce(t, k, key, Offered);
  }

  // ----- The figures, in the outcomes' own terms -----

  lemma {:induction false} SameCount<T>(p: T -> bool, q: T -> bool, s: seq<T>)
    requires forall x :: x in s ==> p(x) == q(x)
    ensures CountBy(p, s) == CountBy(q, s)
  {
    if s != [] {
      SameCount(p, q, s[..|s| - 1]);
    }
  }

  lemma RateIs(r: Rounding, count: nat, total: nat)
    requires total > 0
    ensures Rate(r, count, total) == r.two(count as real / total as real)
  {
  }

  /** A summary counts its outcomes, and states the shares of three kinds as rounded quotients. */
  lemma SummaryCounts(r: Rounding, facts: seq<Facts>)
    requires facts != []
    ensures var row, n := Summary(r, facts), |facts|;
      && row.totalApplications == n
      && row.callbackCount == CountBy((f: Facts) => f.daysToResponse.Some?, facts)
      && row.ghostedCount == CountBy((f: Facts) => f.wasGhosted, facts)
      && row.offersReceived == CountBy((f: Facts) => f.offerAmount.Some?, facts)
      && row.ghostRate == r.two(row.ghostedCount as real / n as real)
      && row.offerRate == r.two(row.offersReceived as real / n as real)
      && row.rejectionRate == r.two(CountBy((f: Facts) => f.rejectionReason.Some?, facts) as real / n as real)
  {
    SameCount(Responded, (f: Facts) => f.daysToResponse.Some?, facts);
    SameCount(Offered, (f: Facts) => f.offerAmount.Some?, facts);
    SameCount(Ghosted, (f: Facts) => f.wasGhosted, facts);
    SameCount(WasRejected, (f: Facts) => f.rejectionReason.Some?, facts);
    hide Rate, Mean, CountBy, SumBy;
    RateIs(r, CountBy(Ghosted, facts), |facts|);
    RateIs(r, CountBy(Offered, facts), |facts|);
    RateIs(r, CountBy(WasRejected, facts), |facts|);
  }

  // The average of some values is missing when there are none, and otherwise their sum divided by their number.
  ghost predicate IsAverage(average: Option<real>, sum: int, n: nat) {
    if n == 0 then average == None else average.Some? && average.value * n as real == sum as real
  }

  /** Its averages are those of the response times and the offers that there are. */
  lemma SummaryAverages(r: Rounding, facts: seq<Facts>)
    requires facts != []
    ensures IsAverage(Summary(r, facts).avgResponseDays,
      SumBy((f: Facts) => if f.daysToResponse.Some? then f.daysToResponse.value else 0, facts),
      CountBy((f: Facts) => f.daysToResponse.Some?, facts))
    ensures IsAverage(Summary(r, facts).avgOfferAmount,
      SumBy((f: Facts) => if f.offerAmount.Some? then f.offerAmount.value else 0, facts),
      CountBy((f: Facts) => f.offerAmount.Some?, facts))
  {
    SameCount(Responded, (f: Facts) => f.daysToResponse.Some?, facts);
    SameCount(Offered, (f: Facts) => f.offerAmount.Some?, facts);
    SameSum(Days, (f: Facts) => if f.daysToResponse.Some? then f.daysToResponse.value else 0, facts);
    SameSum(Amount, (f: Facts) => if f.offerAmount.Some? then f.offerAmount.value else 0, facts);
    hide IsAverage, Mean, Rate, CountBy, SumBy;
    MeanIsAverage(SumBy(Days, facts), CountBy(Responded, facts));
    MeanIsAverage(SumBy(Amount, facts), CountBy(Offered, facts));
  }

  lemma MeanIsAverage(sum: int, n: nat)
    ensures IsAverage(Mean(sum, n), sum, n)
  {
    if n > 0 {
      TotalOfAverage(sum as real, n);
    }
  }

  lemma {:induction false} SameSum<T>(f: T -> int, g: T -> int, s: seq<T>)
    requires forall x :: x in s ==> f(x) == g(x)
    ensures SumBy(f, s) == SumBy(g, s)
  {
    if s != [] {
      SameSum(f, g, s[..|s| - 1]);
    }
  }

  // The outcome is of this user, for an application that names this company.
  ghost predicate IsAbout(applications: seq<Application>, o: Outcome, userId: nat, company: string) {
    o.userId == userId && o.applicationId < |applications| && applications[o.applicationId].companyName == Some(company)
  }

  /** The outcomes a row is about are the user's for applications that name the company, and no others. */
  lemma {:induction false} FactsAre(applications: seq<Application>, outcomes: seq<Outcome>, userId: nat, company: string)
    ensures var facts := FactsAt(applications, outcomes, (userId, company));
      && |facts| == CountBy((o: Outcome) => IsAbout(applications, o, userId, company), outcomes)
      && (forall f :: f in facts <==> exists o :: o in outcomes && IsAbout(applications, o, userId, company) && o.facts == f)
  {
    if outcomes != [] {
      var n := |outcomes| - 1;
      FactsAre(applications, outcomes[..n], userId, company);
      assert outcomes == outcomes[..n] + [outcomes[n]];
    }
  }

  /** What is reported without a row: nothing, or the figures with the two averages rounded, to one and two places. */
  lemma ComputedInsightIs(r: Rounding, t: Tables, key: Key)
    ensures var facts, computed := FactsAt(t.applications, t.outcomes, key), ComputeCompanyInsight(r, t, key);
      if facts == [] then computed == Err(NotFound)
      else
        var exact := Summary(r, facts);
        && computed.Ok?
        && computed.value.avgResponseDays
           == (match exact.avgResponseDays case None => None case Some(days) => Some(r.one(days)))
        && computed.value.avgOfferAmount
           == (match exact.avgOfferAmount case None => None case Some(amount) => Some(r.two(amount)))
        && computed.value.(avgResponseDays := None, avgOfferAmount := None)
           == exact.(avgResponseDays := None, avgOfferAmount := None)
  {
  }

  /** An outcome is recorded if and only if the application is the user's and has none yet. */
  lemma OutcomeIsRecordedIff(r: Rounding, t: Tables, applicationId: nat, userId: nat, facts: Facts)
    ensures var error, after := RecordError(t, applicationId, userId), Next(r, t, Record(applicationId, userId, facts));
      if applicationId >= |t.applications| || t.applications[applicationId].userId != userId then
        error == Some(NotFound) && after == t
      else if exists o :: o in t.outcomes && o.applicationId == applicationId then error == Some(AlreadyExists) && after == t
      else
        && error == None && after.applications == t.applications
        && after.outcomes == t.outcomes + [Outcome(applicationId, userId, facts)]
        && forall key :: key in after.insights && key !in t.insights ==>
             key.0 == userId && t.applications[applicationId].companyName == Some(key.1) && key.1 != ""
  {
    hide UpdatedRow, CountBy, FactsAt;
    if o :| o in t.outcomes && o.applicationId == applicationId {
      var k :| 0 <= k < |t.outcomes| && t.outcomes[k] == o;
    }
  }
}
