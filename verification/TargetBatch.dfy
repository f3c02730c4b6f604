/**
 The bookkeeping of a batch of scrape targets: `run_target_batch` of backend/app/scraping/service.py.

 How a target is routed, what robots.txt says of it, and how each step ends are inputs. A target is named by its
 position in the table.
 */
module TargetBatch {
  import opened Sums
  import opened Wrappers

  datatype Target = Target(
    companyName: string, consecutiveFailures: int, failureCount: int, lastHttpStatus: Option<int>,
    lastSuccessTier: Option<int>, contentHash: Option<string>, etag: Option<string>, lastModified: Option<string>)

  datatype AttemptStatus = Success | Escalated | Failed | Blocked

  datatype Attempt = Attempt(
    target: nat, selectedTier: int, actualTier: int, scraper: string, status: AttemptStatus, httpStatus: Option<int>,
    escalations: nat, jobsExtracted: nat, contentHashBefore: Option<string>, errorClass: Option<string>)

  datatype Step = Step(tier: int, scraper: string)

  datatype Plan = Plan(primaryTier: int, steps: seq<Step>)

  // `Board` is the answer of a job board's interface, `Page` a page that was read. `Breaks` is an exception that the
  // step's handlers do not catch.
  datatype Ending =
    | Board(jobs: nat)
    | NotModified
    | Page(jobs: nat, contentHash: Option<string>, etag: Option<string>, lastModified: Option<string>)
    | GivenUp(escalated: bool, httpStatus: Option<int>, errorClass: string)
    | Breaks

  // Without a plan, or without an answer about robots.txt where one is asked for, an exception was raised.
  datatype Visit = Visit(target: nat, plan: Option<Plan>, robotsAllow: Option<bool>, endings: seq<Ending>)

  datatype Results = Results(jobsFound: nat, attempted: nat, succeeded: nat, failed: nat, errors: seq<string>,
                             succeededTargets: set<nat>)

  datatype State = State(targets: seq<Target>, attempts: seq<Attempt>, results: Results)

  const NO_RESULTS := Results(0, 0, 0, 0, [], {})

  predicate WellFormed(v: Visit) {
    v.plan.Some? ==> 0 < |v.plan.value.steps| == |v.endings|
  }

  predicate Succeeds(e: Ending) {
    e.Board? || e.NotModified? || e.Page?
  }

  /** `_mark_target_success` */
  function MarkSuccess(t: Target, tier: int, httpStatus: int, contentHash: Option<string>, etag: Option<string>,
                       lastModified: Option<string>): Target {
    var marked := t.(lastSuccessTier := Some(tier), lastHttpStatus := Some(httpStatus), consecutiveFailures := 0);
    var hashed := if contentHash.Some? then marked.(contentHash := contentHash) else marked;
    if etag.Some? || lastModified.Some? then hashed.(etag := etag, lastModified := lastModified) else hashed
  }

  /** `_mark_target_failure` */
  function MarkFailure(t: Target, httpStatus: Option<int>): Target {
    t.(lastHttpStatus := httpStatus, consecutiveFailures := t.consecutiveFailures + 1, failureCount := t.failureCount + 1)
  }

  function Jobs(e: Ending): nat {
    if e.Board? || e.Page? then e.jobs else 0
  }

  function Marked(t: Target, tier: int, e: Ending): Target {
    match e
    case Board(_) => MarkSuccess(t, tier, 200, None, None, None)
    case NotModified => MarkSuccess(t, tier, 304, None, None, None)
    case Page(_, contentHash, etag, lastModified) => MarkSuccess(t, tier, 200, contentHash, etag, lastModified)
    case _ => t
  }

  function BlockedAttempt(v: Visit, t: Target): Attempt
    requires WellFormed(v) && v.plan.Some?
  {
    var plan := v.plan.value;
    Attempt(v.target, plan.primaryTier, plan.steps[0].tier, plan.steps[0].scraper, Blocked, None, 0, 0, t.contentHash,
            Some("robots_disallowed"))
  }

  function AttemptAt(v: Visit, t: Target, i: nat): Attempt
    requires WellFormed(v) && v.plan.Some? && i < |v.endings|
  {
    var plan, e := v.plan.value, v.endings[i];
    Attempt(v.target, plan.primaryTier, plan.steps[i].tier, plan.steps[i].scraper,
            if Succeeds(e) then Success else if e.GivenUp? && e.escalated then Escalated else Failed,
            match e { case Board(_) => Some(200) case NotModified => Some(304) case Page(_, _, _, _) => Some(200)
                      case GivenUp(_, httpStatus, _) => httpStatus case Breaks => None },
            i, Jobs(e), t.contentHash, if e.GivenUp? then Some(e.errorClass) else None)
  }

  // The number of steps that were given up before one ended otherwise.
  function GivenUpBefore(endings: seq<Ending>): (n: nat)
    ensures n <= |endings|
    ensures forall i :: 0 <= i < n ==> endings[i].GivenUp?
    ensures n < |endings| ==> !endings[n].GivenUp?
  {
    if endings == [] || !endings[0].GivenUp? then 0 else 1 + GivenUpBefore(endings[1..])
  }

  datatype Verdict = Refused | Exhausted | Found(step: nat) | Broken

  function VerdictOf(v: Visit): (verdict: Verdict)
    requires WellFormed(v)
    ensures verdict.Found? ==> verdict.step < |v.endings| && Succeeds(v.endings[verdict.step])
  {
    if v.plan.None? then Broken
    else if v.plan.value.primaryTier > 0 && v.robotsAllow != Some(true) then
      if v.robotsAllow.None? then Broken else Refused
    else
      var n := GivenUpBefore(v.endings);
      if n == |v.endings| then Exhausted else if v.endings[n].Breaks? then Broken else Found(n)
  }

  // The attempts that a visit adds, when it ends.
  function AttemptsOf(v: Visit, t: Target): seq<Attempt>
    requires WellFormed(v)
  {
    match VerdictOf(v)
    case Refused => [BlockedAttempt(v, t)]
    case Exhausted => seq(|v.endings|, i requires 0 <= i < |v.endings| => AttemptAt(v, t, i))
    case Found(n) => seq(n + 1, i requires 0 <= i <= n => AttemptAt(v, t, i))
    case Broken => []
  }

  function TargetAfter(v: Visit, t: Target): Target
    requires WellFormed(v)
  {
    match VerdictOf(v)
    case Refused => MarkFailure(t, None)
    case Exhausted => MarkFailure(t, AttemptAt(v, t, |v.endings| - 1).httpStatus)
    case Found(n) => Marked(t, v.plan.value.steps[n].tier, v.endings[n])
    case Broken => t
  }

  function ResultsAfter(r: Results, v: Visit, t: Target): Results
    requires WellFormed(v)
  {
    match VerdictOf(v)
    case Refused =>
      r.(failed := r.failed + 1, attempted := r.attempted + 1, errors := r.errors + [t.companyName + ": blocked by robots.txt"])
    case Exhausted =>
      r.(failed := r.failed + 1, attempted := r.attempted + 1, errors := r.errors + [t.companyName + ": all tiers exhausted"])
    case Found(n) =>
      r.(jobsFound := r.jobsFound + Jobs(v.endings[n]), succeeded := r.succeeded + 1, attempted := r.attempted + 1,
         succeededTargets := r.succeededTargets + {v.target})
    case Broken => r
  }

  function Visited(s: State, v: Visit): (after: State)
    requires WellFormed(v) && v.target < |s.targets|
    ensures |after.targets| == |s.targets|
  {
    var t := s.targets[v.target];
    State(s.targets[v.target := TargetAfter(v, t)], s.attempts + AttemptsOf(v, t), ResultsAfter(s.results, v, t))
  }

  ghost predicate VisitsOf(visits: seq<Visit>, targets: nat) {
    forall v :: v in visits ==> WellFormed(v) && v.target < targets
  }

  function VisitedAll(s: State, visits: seq<Visit>): (after: State)
    requires VisitsOf(visits, |s.targets|)
    ensures |after.targets| == |s.targets|
  {
    if visits == [] then s
    else
      Visited(VisitedAll(s, visits[..|visits| - 1]), visits[|visits| - 1])
  }

  // The number of visits before the first one that breaks.
  function Unbroken(visits: seq<Visit>): (n: nat)
    requires forall v :: v in visits ==> WellFormed(v)
    ensures n <= |visits|
    ensures forall i :: 0 <= i < n ==> !VerdictOf(visits[i]).Broken?
    ensures n < |visits| ==> VerdictOf(visits[n]).Broken?
  {
    if visits == [] || VerdictOf(visits[0]).Broken? then 0 else 1 + Unbroken(visits[1..])
  }

  predicate Aborts(visits: seq<Visit>)
    requires forall v :: v in visits ==> WellFormed(v)
  {
    Unbroken(visits) < |visits|
  }

  function Ran(s: State, visits: seq<Visit>): State
    requires VisitsOf(visits, |s.targets|)
  {
    var n := Unbroken(visits);
    var done := VisitedAll(s.(results := NO_RESULTS), visits[..n]);
    if n == |visits| then done
    else s.(results := done.results.(failed := done.results.failed + 1, errors := done.results.errors + ["target task failed"]))
  }

  class ScrapingService {
    var targets: seq<Target>
    var attempts: seq<Attempt>
    var results: Results

    function View(): State
      reads this
    {
      State(targets, attempts, results)
    }

    constructor (targets: seq<Target>, attempts: seq<Attempt>)
      ensures View() == State(targets, attempts, NO_RESULTS)
    {
      this.targets, this.attempts, results := targets, attempts, NO_RESULTS;
    }

    method ProcessTarget(v: Visit) returns (broken: bool)
      requires WellFormed(v) && v.target < |targets|
      modifies this
      ensures broken == VerdictOf(v).Broken?
      ensures !broken ==> View() == Visited(old(View()), v)
      ensures broken ==> results == old(results)
    {
      hide AttemptAt, Marked, MarkFailure;
      var target := targets[v.target];
      if v.plan.None? {
        return true;
      }
      var plan := v.plan.value;
      if plan.primaryTier > 0 {
        if v.robotsAllow.None? {
          return true;
        }
        if !v.robotsAllow.value {
          attempts := attempts + [BlockedAttempt(v, target)];
          targets := targets[v.target := MarkFailure(target, None)];
          results := results.(failed := results.failed + 1, attempted := results.attempted + 1,
                              errors := results.errors + [target.companyName + ": blocked by robots.txt"]);
          return false;
        }
      }
      ghost var n := GivenUpBefore(v.endings);
      var i := 0;
      var httpStatus: Option<int> := None;
      while i < |plan.steps|
        invariant 0 <= i <= n
        invariant targets == old(targets) && results == old(results)
        invariant attempts == old(attempts) + seq(i, k requires 0 <= k < i => AttemptAt(v, target, k))
        invariant i > 0 ==> httpStatus == AttemptAt(v, target, i - 1).httpStatus
      {
        if v.endings[i].Breaks? {
          return true;
        }
        var attempt := AttemptAt(v, target, i);
        attempts := attempts + [attempt];
        httpStatus := attempt.httpStatus;
        if Succeeds(v.endings[i]) {
          targets := targets[v.target := Marked(target, plan.steps[i].tier, v.endings[i])];
          results := results.(jobsFound := results.jobsFound + Jobs(v.endings[i]), succeeded := results.succeeded + 1,
                              attempted := results.attempted + 1,
                              succeededTargets := results.succeededTargets + {v.target});
          return false;
        }
        i := i + 1;
      }
      targets := targets[v.target := MarkFailure(target, httpStatus)];
      results := results.(failed := results.failed + 1, attempted := results.attempted + 1,
                          errors := results.errors + [target.companyName + ": all tiers exhausted"]);
      broken := false;
    }

    /** A target whose visit breaks aborts the batch, and rolls the tables back to its start. */
    method RunTargetBatch(visits: seq<Visit>) returns (aborted: bool)
      requires VisitsOf(visits, |targets|)
      modifies this
      ensures View() == Ran(old(View()), visits)
      ensures aborted == Aborts(visits)
    {
      hide Visited, VerdictOf;
      results := NO_RESULTS;
      ghost var start := View();
      var savedTargets, savedAttempts := targets, attempts;
      ghost var n := Unbroken(visits);
      for i := 0 to |visits|
        invariant i <= n
        invariant View() == VisitedAll(start, visits[..i])
      {
        assert visits[..i + 1][..i] == visits[..i];
        var broken := ProcessTarget(visits[i]);
        if broken {
          targets, attempts := savedTargets, savedAttempts;
          results := results.(failed := results.failed + 1, errors := results.errors + ["target task failed"]);
          return true;
        }
      }
      assert visits[..n] == visits;
      aborted := false;
    }
  }

  // ----- One visit -----

  /**
   The attempts of a visit that ends: all but the last were given up, each counts the steps before it, and the last
   one is successful exactly when the visit is. An unsuccessful visit was refused, or has tried every step.
   */
  lemma AttemptsOfAVisit(v: Visit, t: Target)
    requires WellFormed(v) && !VerdictOf(v).Broken?
    ensures var attempts := AttemptsOf(v, t);
      && 0 < |attempts| <= |v.endings|
      && (forall i :: 0 <= i < |attempts| ==> attempts[i].escalations == i && attempts[i].target == v.target)
      && (forall i :: 0 <= i < |attempts| - 1 ==> attempts[i].status in {Escalated, Failed})
      && (attempts[|attempts| - 1].status == Success <==> VerdictOf(v).Found?)
      && (VerdictOf(v).Found? || attempts[0].status == Blocked || |attempts| == |v.endings|)
  {
  }

  /**
   The target tells of the last attempt: its HTTP status, and on success its tier and an end to the failures. An
   unsuccessful or unmodified visit leaves the content hash and cache headers alone.
   */
  lemma TargetTellsOfTheLastAttempt(v: Visit, t: Target)
    requires WellFormed(v) && !VerdictOf(v).Broken?
    ensures var after, attempts := TargetAfter(v, t), AttemptsOf(v, t);
      var last := attempts[|attempts| - 1];
      && after.lastHttpStatus == last.httpStatus
      && (last.status == Success ==> after.lastSuccessTier == Some(last.actualTier) && after.consecutiveFailures == 0
                                     && after.failureCount == t.failureCount)
      && (last.status != Success ==> after.lastSuccessTier == t.lastSuccessTier
                                     && after.failureCount - t.failureCount
                                        == after.consecutiveFailures - t.consecutiveFailures == 1)
      && (last.status != Success || last.httpStatus == Some(304) ==>
            after.contentHash == t.contentHash && after.etag == t.etag && after.lastModified == t.lastModified)
      && (forall a :: a in attempts ==> a.contentHashBefore == t.contentHash)
  {
    AttemptsOfAVisit(v, t);
  }

  // ----- What decides a visit -----

  // robots.txt is asked for and forbids the target.
  predicate IsForbidden(v: Visit) {
    v.plan.Some? && v.plan.value.primaryTier > 0 && v.robotsAllow == Some(false)
  }

  // The steps are tried: robots.txt allows them, or is not asked for.
  predicate MayGo(v: Visit) {
    v.plan.Some? && (v.plan.value.primaryTier > 0 ==> v.robotsAllow == Some(true))
  }

  /**
   A forbidden target is not scraped, whatever its steps would have ended like: one blocked attempt is added, the
   target fails once more, and nothing is found.
   */
  lemma ForbiddenIsBlocked(s: State, v: Visit)
    requires WellFormed(v) && v.target < |s.targets| && IsForbidden(v)
    ensures var after, t, plan := Ran(s, [v]), s.targets[v.target], v.plan.value;
      && !Aborts([v])
      && after.attempts == s.attempts + [Attempt(v.target, plan.primaryTier, plan.steps[0].tier, plan.steps[0].scraper,
           Blocked, None, 0, 0, t.contentHash, Some("robots_disallowed"))]
      && after.targets == s.targets[v.target := t.(lastHttpStatus := None,
           consecutiveFailures := t.consecutiveFailures + 1, failureCount := t.failureCount + 1)]
      && after.results == Results(0, 1, 0, 1, [t.companyName + ": blocked by robots.txt"], {})
  {
    OneVisit(s, v);
  }

  /** A visit aborts the batch if and only if its plan or robots.txt fails, or a step breaks before one succeeds. */
  lemma AbortsIff(v: Visit)
    requires WellFormed(v)
    ensures Aborts([v]) <==>
      || v.plan.None?
      || (v.plan.value.primaryTier > 0 && v.robotsAllow.None?)
      || (MayGo(v) && exists n :: 0 <= n < |v.endings| && v.endings[n].Breaks?
                                  && forall i :: 0 <= i < n ==> v.endings[i].GivenUp?)
  {
    if MayGo(v) {
      var n := GivenUpBefore(v.endings);
      if n < |v.endings| && v.endings[n].Breaks? {
        assert Aborts([v]);
      }
      if m :| 0 <= m < |v.endings| && v.endings[m].Breaks? && forall i :: 0 <= i < m ==> v.endings[i].GivenUp? {
        FirstNotGivenUp(v.endings, m);
      }
    }
  }

  lemma {:induction false} FirstNotGivenUp(endings: seq<Ending>, n: nat)
    requires n <= |endings| && (forall i :: 0 <= i < n ==> endings[i].GivenUp?)
    requires n == |endings| || !endings[n].GivenUp?
    ensures GivenUpBefore(endings) == n
  {
    if n > 0 {
      FirstNotGivenUp(endings[1..], n - 1);
    }
  }

  lemma OneVisit(s: State, v: Visit)
    requires WellFormed(v) && v.target < |s.targets| && !VerdictOf(v).Broken?
    ensures !Aborts([v]) && Ran(s, [v]) == Visited(s.(results := NO_RESULTS), v)
  {
    hide VerdictOf, Visited;
    var start := s.(results := NO_RESULTS);
    assert [v][1..] == [] && [v][..1] == [v] && [v][..0] == [];
    assert Unbroken([v]) == 1;
    assert VisitedAll(start, []) == start;
    assert VisitedAll(start, [v]) == Visited(start, v);
  }

  // The attempt at a step that was given up.
  function GivenUpAttempt(v: Visit, t: Target, i: nat): Attempt
    requires WellFormed(v) && v.plan.Some? && i < |v.endings| && v.endings[i].GivenUp?
  {
    var step, e := v.plan.value.steps[i], v.endings[i];
    Attempt(v.target, v.plan.value.primaryTier, step.tier, step.scraper, if e.escalated then Escalated else Failed,
            e.httpStatus, i, 0, t.contentHash, Some(e.errorClass))
  }

  /** When every step is given up, each leaves its attempt, and the target fails with the status of the last one. */
  lemma AllGivenUp(s: State, v: Visit) returns (added: seq<Attempt>)
    requires WellFormed(v) && v.target < |s.targets| && MayGo(v)
    requires forall i :: 0 <= i < |v.endings| ==> v.endings[i].GivenUp?
    ensures var after, t, n := Ran(s, [v]), s.targets[v.target], |v.endings|;
      && !Aborts([v])
      && after.attempts == s.attempts + added && |added| == n
      && (forall i :: 0 <= i < n ==> added[i] == GivenUpAttempt(v, t, i))
      && after.targets == s.targets[v.target := t.(lastHttpStatus := v.endings[n - 1].httpStatus,
           consecutiveFailures := t.consecutiveFailures + 1, failureCount := t.failureCount + 1)]
      && after.results == Results(0, 1, 0, 1, [t.companyName + ": all tiers exhausted"], {})
  {
    FirstNotGivenUp(v.endings, |v.endings|);
    assert VerdictOf(v) == Exhausted;
    OneVisit(s, v);
    added := AttemptsOf(v, s.targets[v.target]);
    hide VerdictOf, Ran, Aborts;
  }

  // What the answer of a successful step makes of a target. A page brings its hash, and both cache headers when it
  // has one of them.
  ghost predicate IsMarkedBy(t: Target, marked: Target, tier: int, e: Ending) {
    && marked.(contentHash := t.contentHash, etag := t.etag, lastModified := t.lastModified)
       == t.(lastSuccessTier := Some(tier), lastHttpStatus := Some(if e.NotModified? then 304 else 200),
             consecutiveFailures := 0)
    && marked.contentHash == (if e.Page? && e.contentHash.Some? then e.contentHash else t.contentHash)
    && (if e.Page? && (e.etag.Some? || e.lastModified.Some?)
        then marked.etag == e.etag && marked.lastModified == e.lastModified
        else marked.etag == t.etag && marked.lastModified == t.lastModified)
  }

  lemma AnswersMark(t: Target, tier: int, e: Ending)
    requires Succeeds(e)
    ensures IsMarkedBy(t, Marked(t, tier, e), tier, e)
  {
  }

  lemma SuccessAttempts(v: Visit, t: Target, n: nat)
    requires WellFormed(v) && v.plan.Some? && VerdictOf(v) == Found(n)
    requires forall i :: 0 <= i < n ==> v.endings[i].GivenUp?
    ensures var attempts, e, step := AttemptsOf(v, t), v.endings[n], v.plan.value.steps[n];
      && |attempts| == n + 1
      && (forall i :: 0 <= i < n ==> attempts[i] == GivenUpAttempt(v, t, i))
      && attempts[n] == Attempt(v.target, v.plan.value.primaryTier, step.tier, step.scraper, Success,
           Some(if e.NotModified? then 304 else 200), n, if e.NotModified? then 0 else e.jobs, t.contentHash, None)
  {
    hide VerdictOf;
  }

  lemma VisitFinds(s: State, v: Visit, n: nat)
    requires WellFormed(v) && v.target < |s.targets| && VerdictOf(v) == Found(n) && s.results == NO_RESULTS
    ensures var t, e := s.targets[v.target], v.endings[n];
      Visited(s, v) == State(s.targets[v.target := Marked(t, v.plan.value.steps[n].tier, e)], s.attempts + AttemptsOf(v, t),
                             Results(if e.NotModified? then 0 else e.jobs, 1, 1, 0, [], {v.target}))
  {
    hide VerdictOf, AttemptsOf, Marked;
    assert {} + {v.target} == {v.target};
  }

  /**
   Otherwise the first step that is not given up decides: if it finds something, later steps are not tried, its jobs
   are the visit's, and its answer marks the target.
   */
  lemma FirstSuccessDecides(s: State, v: Visit, n: nat) returns (added: seq<Attempt>)
    requires WellFormed(v) && v.target < |s.targets| && MayGo(v)
    requires n < |v.endings| && (forall i :: 0 <= i < n ==> v.endings[i].GivenUp?)
    requires v.endings[n].Board? || v.endings[n].NotModified? || v.endings[n].Page?
    ensures !Aborts([v])
    ensures var after, t, e, step := Ran(s, [v]), s.targets[v.target], v.endings[n], v.plan.value.steps[n];
      var jobs := if e.NotModified? then 0 else e.jobs;
      && after.attempts == s.attempts + added && |added| == n + 1
      && (forall i :: 0 <= i < n ==> added[i] == GivenUpAttempt(v, t, i))
      && added[n] == Attempt(v.target, v.plan.value.primaryTier, step.tier, step.scraper, Success,
           Some(if e.NotModified? then 304 else 200), n, jobs, t.contentHash, None)
      && after.results == Results(jobs, 1, 1, 0, [], {v.target})
      && after.targets == s.targets[v.target := after.targets[v.target]]
      && IsMarkedBy(t, after.targets[v.target], step.tier, e)
  {
    FirstNotGivenUp(v.endings, n);
    assert VerdictOf(v) == Found(n);
    OneVisit(s, v);
    hide VerdictOf, Ran, Aborts, IsMarkedBy, AttemptsOf, GivenUpAttempt, Marked, Visited;
    var t := s.targets[v.target];
    VisitFinds(s.(results := NO_RESULTS), v, n);
    SuccessAttempts(v, t, n);
    AnswersMark(t, v.plan.value.steps[n].tier, v.endings[n]);
    added := AttemptsOf(v, t);
  }

  function JobsOf(a: Attempt): int {
    if a.status == Success then a.jobsExtracted else 0
  }

  lemma {:induction false} NoJobs(attempts: seq<Attempt>)
    requires forall a :: a in attempts ==> a.status != Success
    ensures SumBy(JobsOf, attempts) == 0
  {
    if attempts != [] {
      NoJobs(attempts[..|attempts| - 1]);
    }
  }

  lemma JobsOfAVisit(v: Visit, t: Target, r: Results)
    requires WellFormed(v)
    ensures ResultsAfter(r, v, t).jobsFound == r.jobsFound + SumBy(JobsOf, AttemptsOf(v, t))
  {
    var attempts := AttemptsOf(v, t);
    if !VerdictOf(v).Broken? {
      AttemptsOfAVisit(v, t);
      NoJobs(attempts[..|attempts| - 1]);
    }
  }

  // ----- A whole batch -----

  predicate Finds(v: Visit) {
    WellFormed(v) && VerdictOf(v).Found?
  }

  predicate FindsAt(v: Visit, target: nat) {
    v.target == target && Finds(v)
  }

  predicate FailsAt(v: Visit, target: nat) {
    v.target == target && WellFormed(v) && !VerdictOf(v).Broken? && !VerdictOf(v).Found?
  }

  // Failed visits to a target since its last successful one, on top of those before.
  function FailuresSince(visits: seq<Visit>, target: nat, before: int): int {
    if visits == [] then before
    else
      var last := visits[|visits| - 1];
      if FindsAt(last, target) then 0
      else FailuresSince(visits[..|visits| - 1], target, before) + if FailsAt(last, target) then 1 else 0
  }

  ghost predicate Tells(s: State, visits: seq<Visit>, after: State) {
    && after.results.attempted == |visits| == after.results.succeeded + after.results.failed
    && |after.results.errors| == after.results.failed
    && after.results.succeeded == CountBy(Finds, visits)
    && (forall k :: k in after.results.succeededTargets <==> exists v :: v in visits && FindsAt(v, k))
    && s.attempts <= after.attempts
    && after.results.jobsFound == SumBy(JobsOf, after.attempts[|s.attempts|..])
  }

  lemma VisitCounts(v: Visit, t: Target, r: Results)
    requires WellFormed(v) && !VerdictOf(v).Broken?
    ensures var after := ResultsAfter(r, v, t);
      && after.attempted == r.attempted + 1
      && after.succeeded == r.succeeded + (if Finds(v) then 1 else 0)
      && after.failed == r.failed + (if Finds(v) then 0 else 1)
      && |after.errors| == |r.errors| + (if Finds(v) then 0 else 1)
      && after.succeededTargets == r.succeededTargets + (if Finds(v) then {v.target} else {})
  {
    hide VerdictOf;
  }

  lemma TellsOneMore(s: State, visits: seq<Visit>, before: State, v: Visit)
    requires WellFormed(v) && !VerdictOf(v).Broken? && v.target < |before.targets|
    requires Tells(s, visits, before)
    ensures Tells(s, visits + [v], Visited(before, v))
  {
    hide VerdictOf, AttemptsOf, ResultsAfter, Finds;
    var after, t := Visited(before, v), before.targets[v.target];
    VisitCounts(v, t, before.results);
    CountOfLonger(Finds, visits, v);
    JobsOfAVisit(v, t, before.results);
    SumOfConcat(JobsOf, before.attempts[|s.attempts|..], AttemptsOf(v, t));
    assert after.attempts[|s.attempts|..] == before.attempts[|s.attempts|..] + AttemptsOf(v, t);
    forall k
      ensures k in after.results.succeededTargets <==> exists w :: w in visits + [v] && FindsAt(w, k)
    {
      if k in before.results.succeededTargets {
        var w :| w in visits && FindsAt(w, k);
        assert w in visits + [v];
      } else if FindsAt(v, k) {
        assert v in visits + [v];
      }
    }
  }

  lemma {:induction false} VisitsTell(s: State, visits: seq<Visit>)
    requires VisitsOf(visits, |s.targets|) && s.results == NO_RESULTS
    requires forall v :: v in visits ==> !VerdictOf(v).Broken?
    ensures Tells(s, visits, VisitedAll(s, visits))
  {
    hide VerdictOf, Visited;
    if visits == [] {
      assert s.attempts[|s.attempts|..] == [];
    } else {
      hide Tells;
      var init, last := visits[..|visits| - 1], visits[|visits| - 1];
      VisitsTell(s, init);
      TellsOneMore(s, init, VisitedAll(s, init), last);
      assert init + [last] == visits;
    }
  }

  /**
   A batch that is not aborted accounts for every target, and reports the jobs that its attempts in the table
   extracted. An aborted one leaves the tables as they were, and still reports what the targets before the broken one
   came to, with one failure more than it says it attempted.
   */
  lemma BatchAddsUp(s: State, visits: seq<Visit>)
    requires VisitsOf(visits, |s.targets|)
    ensures var after := Ran(s, visits);
      && after.results.succeeded + after.results.failed == after.results.attempted + (if Aborts(visits) then 1 else 0)
      && |after.results.errors| == after.results.failed
      && (!Aborts(visits) ==> Tells(s, visits, after))
      && (Aborts(visits) ==>
            var completed := Ran(s, visits[..Unbroken(visits)]);
            && after.targets == s.targets && after.attempts == s.attempts
            && after.results == completed.results.(failed := completed.results.failed + 1,
                                                    errors := completed.results.errors + ["target task failed"])
            && Tells(s, visits[..Unbroken(visits)], completed))
  {
    hide VerdictOf, Visited;
    var n := Unbroken(visits);
    var start := s.(results := NO_RESULTS);
    forall v | v in visits[..n] ensures !VerdictOf(v).Broken? {
      var i :| 0 <= i < n && visits[i] == v;
    }
    VisitsTell(start, visits[..n]);
    UnbrokenPrefix(visits[..n]);
    assert visits[..n][..n] == visits[..n];
    if n == |visits| {
      assert visits[..n] == visits;
    }
  }

  lemma {:induction false} UnbrokenPrefix(visits: seq<Visit>)
    requires forall v :: v in visits ==> WellFormed(v) && !VerdictOf(v).Broken?
    ensures Unbroken(visits) == |visits|
  {
    if visits != [] {
      UnbrokenPrefix(visits[1..]);
    }
  }

  lemma VisitMarks(s: State, v: Visit, k: nat)
    requires WellFormed(v) && v.target < |s.targets| && k < |s.targets|
    ensures var before, after := s.targets[k], Visited(s, v).targets[k];
      && after.failureCount == before.failureCount + (if FailsAt(v, k) then 1 else 0)
      && after.consecutiveFailures
         == if FindsAt(v, k) then 0 else before.consecutiveFailures + (if FailsAt(v, k) then 1 else 0)
  {
    hide VerdictOf, AttemptAt;
  }

  lemma {:induction false} UnbrokenIff(visits: seq<Visit>)
    requires forall v :: v in visits ==> WellFormed(v)
    ensures Aborts(visits) <==> exists v :: v in visits && Aborts([v])
  {
    hide VerdictOf;
    if visits != [] {
      assert [visits[0]][1..] == [] && visits == [visits[0]] + visits[1..];
      UnbrokenIff(visits[1..]);
    }
  }

  /** A batch goes on after a visit as a batch of its own would, from the tables as they are by then. */
  lemma OneVisitMore(s: State, visits: seq<Visit>, v: Visit)
    requires VisitsOf(visits + [v], |s.targets|) && !Aborts(visits + [v])
    ensures v in visits + [v] && VisitsOf(visits, |s.targets|) && !Aborts(visits) && !Aborts([v])
    ensures var before, after := Ran(s, visits), Ran(s, visits + [v]);
      var one := Ran(before, [v]);
      && after.targets == one.targets && after.attempts == one.attempts
      && after.results == Results(
           before.results.jobsFound + one.results.jobsFound, before.results.attempted + one.results.attempted,
           before.results.succeeded + one.results.succeeded, before.results.failed + one.results.failed,
           before.results.errors + one.results.errors, before.results.succeededTargets + one.results.succeededTargets)
  {
    hide VerdictOf, TargetAfter, AttemptsOf;
    UnbrokenIff(visits + [v]);
    UnbrokenIff(visits);
    assert forall w :: w in visits ==> w in visits + [v];
    assert (visits + [v])[..|visits|] == visits && visits[..|visits|] == visits;
    assert (visits + [v])[..|visits| + 1] == visits + [v];
    OneVisit(Ran(s, visits), v);
  }

  /** The two failure counts of a target tell its visits apart. */
  lemma {:induction false} FailureCountsTellVisits(s: State, visits: seq<Visit>, k: nat)
    requires VisitsOf(visits, |s.targets|) && k < |s.targets|
    ensures var t := VisitedAll(s, visits).targets[k];
      && t.failureCount == s.targets[k].failureCount + CountBy((v: Visit) => FailsAt(v, k), visits)
      && t.consecutiveFailures == FailuresSince(visits, k, s.targets[k].consecutiveFailures)
  {
    hide VerdictOf, Visited, FailsAt, FindsAt;
    if visits != [] {
      FailureCountsTellVisits(s, visits[..|visits| - 1], k);
      VisitMarks(VisitedAll(s, visits[..|visits| - 1]), visits[|visits| - 1], k);
    }
  }

  lemma {:induction false} FailuresSinceAreFailures(visits: seq<Visit>, k: nat, before: int, all: int)
    requires 0 <= before <= all
    ensures 0 <= FailuresSince(visits, k, before) <= all + CountBy((v: Visit) => FailsAt(v, k), visits)
  {
    hide FailsAt, FindsAt;
    if visits != [] {
      FailuresSinceAreFailures(visits[..|visits| - 1], k, before, all);
    }
  }

  /** No batch makes a target's consecutive failures exceed its failures. */
  lemma ConsecutiveFailuresAreFailures(s: State, visits: seq<Visit>, k: nat)
    requires VisitsOf(visits, |s.targets|) && k < |s.targets|
    requires 0 <= s.targets[k].consecutiveFailures <= s.targets[k].failureCount
    ensures var t := Ran(s, visits).targets[k];
      0 <= t.consecutiveFailures <= t.failureCount
  {
    var completed := visits[..Unbroken(visits)];
    FailureCountsTellVisits(s.(results := NO_RESULTS), completed, k);
    FailuresSinceAreFailures(completed, k, s.targets[k].consecutiveFailures, s.targets[k].failureCount);
  }
}
