/**
 Automatic applications: backend/app/auto_apply/orchestrator.py and backend/app/auto_apply/safety.py.

 Attempts follow each other. In one attempt the service sees one time; the database has its own clock, and stamps
 the application. What the job board's form or interface makes of an attempt is an input. Times are in seconds.
 */
module AutoApply {
  import opened RuleEngine
  import opened Sums
  import opened Wrappers
  import P = Pipeline

  const HOUR := 3600
  const DAY := 86400
  const COOLDOWN := 7 * DAY
  const STALE_DAYS := 30

  datatype Settings = Settings(maxDaily: int, lower: Casing, detect: string -> Option<string>, isLeverUrl: string -> bool)

  datatype Status = Running | Filled | Success | Failed

  datatype Run = Run(userId: Option<nat>, jobId: string, ats: Option<string>, status: Status, blockedBy: seq<string>,
                     startedAt: int)

  datatype Application = Application(userId: nat, jobId: Option<string>, companyName: Option<string>,
                                     byAutoApply: bool, appliedAt: Option<int>, createdAt: int)

  datatype State = State(runs: seq<Run>, applications: seq<Application>)

  const EMPTY := State([], [])

  // `stamp` is the database's time, `provider` what the loaded page gives away.
  datatype Circumstances = Circumstances(now: int, stamp: int, success: bool, provider: Option<string>)

  datatype Attempt = Attempt(job: Job, userId: Option<nat>, rule: Option<Rule>, allowFirstTime: bool, at: Circumstances)

  datatype Check = Check(name: string, passed: bool)

  // ----- The safety layer -----

  function AppliedFor(userId: nat, jobId: string): Application -> bool {
    (x: Application) => x.userId == userId && x.jobId == Some(jobId)
  }

  predicate Counts(r: Run, userId: nat, from: int) {
    r.userId == Some(userId) && r.startedAt >= from && r.status in {Filled, Running}
  }

  function CountedSince(userId: nat, from: int): Run -> bool {
    (r: Run) => Counts(r, userId, from)
  }

  function CountedAt(userId: nat, ats: string, from: int): Run -> bool {
    (r: Run) => Counts(r, userId, from) && r.ats == Some(ats)
  }

  function AppliedAtSince(lower: Casing, userId: nat, company: string, from: int): Application -> bool {
    (x: Application) => x.userId == userId && x.createdAt >= from
                        && x.companyName.Some? && Lower(lower, x.companyName.value) == Lower(lower, company)
  }

  function PerHour(ats: string): int {
    if ats == "lever" then 5 else if ats == "greenhouse" then 10 else if ats == "workday" then 3 else 5
  }

  function StartOfDay(t: int): int {
    t - t % DAY
  }

  predicate Blacklisted(lower: Casing, job: Job, rule: Option<Rule>) {
    && rule.Some?
    && (|| (OrEmpty(job.companyName) != "" && MentionsAny(lower, job.companyName.value, rule.value.excludedCompanies))
        || (job.title != "" && MentionsAny(lower, job.title, rule.value.excludedKeywords)))
  }

  predicate IsFresh(job: Job, now: int) {
    job.firstSeenAt.None? || (now - job.firstSeenAt.value) / DAY < STALE_DAYS
  }

  function KnownAts(s: State, a: Attempt, userId: nat, ats: Option<string>): set<string> {
    (set r | r in s.runs && r.userId == Some(userId) && r.ats.Some? && r.status in {Success, Filled} :: r.ats.value)
    + if a.allowFirstTime && ats.Some? then {ats.value} else {}
  }

  predicate NotApplied(s: State, userId: nat, job: Job) {
    CountBy(AppliedFor(userId, job.id), s.applications) == 0
  }

  predicate UnderDailyLimit(cfg: Settings, s: State, userId: nat, now: int) {
    CountBy(CountedSince(userId, StartOfDay(now)), s.runs) < cfg.maxDaily
  }

  predicate UnderHourlyLimit(s: State, userId: nat, ats: string, now: int) {
    CountBy(CountedAt(userId, ats, now - HOUR), s.runs) < PerHour(ats)
  }

  predicate NotRecentlyAt(cfg: Settings, s: State, userId: nat, company: string, now: int) {
    CountBy(AppliedAtSince(cfg.lower, userId, company, now - COOLDOWN), s.applications) == 0
  }

  predicate IsKnown(s: State, a: Attempt, userId: nat, ats: Option<string>) {
    ats.None? || ats.value in KnownAts(s, a, userId, ats)
  }

  /** `check_safety`. The budget check is left out: no caller reports any spending. */
  function Checks(cfg: Settings, s: State, a: Attempt, userId: nat, ats: Option<string>): seq<Check> {
    var now, company := a.at.now, OrEmpty(a.job.companyName);
    [Check("duplicate", NotApplied(s, userId, a.job))]
    + [Check("daily_limit", UnderDailyLimit(cfg, s, userId, now))]
    + [Check("ats_hourly_limit", UnderHourlyLimit(s, userId, if ats.Some? then ats.value else "default", now))]
    + (if company == "" then [] else [Check("company_cooldown", NotRecentlyAt(cfg, s, userId, company, now))])
    + [Check("blacklist", !Blacklisted(cfg.lower, a.job, a.rule))]
    + [Check("freshness", IsFresh(a.job, now))]
    + [Check("first_time_ats", IsKnown(s, a, userId, ats))]
  }

  function FailedNames(checks: seq<Check>): seq<string> {
    if checks == [] then []
    else FailedNames(checks[..|checks| - 1]) + if checks[|checks| - 1].passed then [] else [checks[|checks| - 1].name]
  }

  // ----- One attempt -----

  function WithLast(s: State, run: Run): State {
    s.(runs := s.runs + [run])
  }

  function Submitted(s: State, a: Attempt, userId: nat): seq<Application> {
    if CountBy(AppliedFor(userId, a.job.id), s.applications) > 0 then s.applications
    else s.applications
         + [Application(userId, Some(a.job.id), a.job.companyName, true, Some(a.at.now), a.at.stamp)]
  }

  function BlockedBy(cfg: Settings, s: State, a: Attempt): seq<string>
    requires a.userId.Some?
  {
    var ats := cfg.detect(OrEmpty(a.job.sourceUrl));
    var started := Run(a.userId, a.job.id, ats, Running, [], a.at.now);
    FailedNames(Checks(cfg, WithLast(s, started), a, a.userId.value, ats))
  }

  /** `apply_to_job` */
  function Attempted(cfg: Settings, s: State, a: Attempt): State {
    var url := OrEmpty(a.job.sourceUrl);
    var started := Run(a.userId, a.job.id, None, Running, [], a.at.now);
    if a.userId.None? || url == "" then WithLast(s, started.(status := Failed))
    else
      var ats := cfg.detect(url);
      var run := started.(ats := ats);
      if BlockedBy(cfg, s, a) != [] then WithLast(s, run.(status := Failed, blockedBy := BlockedBy(cfg, s, a)))
      else if ats == Some("lever") && cfg.isLeverUrl(url) then
        if a.at.success then State(s.runs + [run.(status := Success)], Submitted(s, a, a.userId.value))
        else WithLast(s, run.(status := Failed))
      else
        WithLast(s, run.(ats := if a.at.provider.Some? then a.at.provider else ats,
                         status := if a.at.success then Filled else Failed))
  }

  function AttemptedAll(cfg: Settings, s: State, attempts: seq<Attempt>): State {
    if attempts == [] then s
    else Attempted(cfg, AttemptedAll(cfg, s, attempts[..|attempts| - 1]), attempts[|attempts| - 1])
  }

  // ----- A batch -----

  // `rules` are the user's active rules and `jobs` all jobs, in the order in which the database returns them.
  datatype BatchInput = BatchInput(userId: nat, rules: seq<Rule>, hasProfile: bool, jobs: seq<Job>, at: nat -> Circumstances)

  predicate Excluded(s: State, userId: nat, jobId: string) {
    || (exists x :: x in s.applications && x.userId == userId && x.jobId == Some(jobId))
    || (exists r :: r in s.runs && r.userId == Some(userId) && r.jobId == jobId && r.status in {Success, Filled, Running})
  }

  predicate IsCandidate(s: State, userId: nat, job: Job) {
    job.userId == userId && job.isActive && job.status == "new" && !Excluded(s, userId, job.id)
  }

  function Selected(s: State, userId: nat, jobs: seq<Job>): seq<Job> {
    if jobs == [] then []
    else Selected(s, userId, jobs[..|jobs| - 1])
         + if IsCandidate(s, userId, jobs[|jobs| - 1]) then [jobs[|jobs| - 1]] else []
  }

  function UpTo<T>(n: nat, s: seq<T>): seq<T> {
    if |s| <= n then s else s[..n]
  }

  /** `_get_candidate_jobs` */
  function CandidateJobs(s: State, userId: nat, jobs: seq<Job>): seq<Job> {
    UpTo(50, Selected(s, userId, jobs))
  }

  ghost function Chosen(cfg: Settings, s: State, b: BatchInput): seq<(Job, Rule)> {
    if b.rules == [] || !b.hasProfile then []
    else UpTo(10, Matched(cfg.lower, CandidateJobs(s, b.userId, b.jobs), b.rules))
  }

  function AttemptOf(b: BatchInput, chosen: (Job, Rule), i: nat): Attempt {
    Attempt(chosen.0, Some(b.userId), Some(chosen.1), false, b.at(i))
  }

  ghost function BatchAttempts(cfg: Settings, s: State, b: BatchInput): (attempts: seq<Attempt>)
    ensures |attempts| == |Chosen(cfg, s, b)| <= 10
  {
    var chosen := Chosen(cfg, s, b);
    seq(|chosen|, i requires 0 <= i < |chosen| => AttemptOf(b, chosen[i], i))
  }

  class AutoApplyOrchestrator {
    const cfg: Settings
    var runs: seq<Run>
    var applications: seq<Application>

    function View(): State
      reads this
    {
      State(runs, applications)
    }

    constructor (cfg: Settings)
      ensures View() == EMPTY && this.cfg == cfg
    {
      this.cfg := cfg;
      runs, applications := [], [];
    }

    /** The attempt passes if and only if it is cleared; the checks name what blocks it, in their order. */
    method CheckSafety(a: Attempt, userId: nat, ats: Option<string>) returns (checks: seq<Check>)
      ensures FailedNames(checks) == [] <==> Cleared(cfg, View(), a, userId, ats)
      ensures checks == Checks(cfg, View(), a, userId, ats)
    {
      hide FailedNames, Cleared;
      hide NotApplied, UnderDailyLimit, UnderHourlyLimit, NotRecentlyAt, Blacklisted, IsFresh, IsKnown;
      var now, company := a.at.now, OrEmpty(a.job.companyName);
      checks := [Check("duplicate", NotApplied(View(), userId, a.job))];
      checks := checks + [Check("daily_limit", UnderDailyLimit(cfg, View(), userId, now))];
      var board := if ats.Some? then ats.value else "default";
      checks := checks + [Check("ats_hourly_limit", UnderHourlyLimit(View(), userId, board, now))];
      if company != "" {
        checks := checks + [Check("company_cooldown", NotRecentlyAt(cfg, View(), userId, company, now))];
      }
      checks := checks + [Check("blacklist", !Blacklisted(cfg.lower, a.job, a.rule))];
      checks := checks + [Check("freshness", IsFresh(a.job, now))];
      checks := checks + [Check("first_time_ats", IsKnown(View(), a, userId, ats))];
      assert checks == Checks(cfg, View(), a, userId, ats);
      PassesIff(cfg, View(), a, userId, ats);
    }

    method ApplyToJob(a: Attempt) returns (run: Run)
      modifies this
      ensures View() == Attempted(cfg, old(View()), a)
      ensures run == runs[|runs| - 1]
    {
      hide Checks, FailedNames, CountBy, Cleared;
      run := Run(a.userId, a.job.id, None, Running, [], a.at.now);
      runs := runs + [run];
      var url := OrEmpty(a.job.sourceUrl);
      if a.userId.None? || url == "" {
        run := run.(status := Failed);
        runs := runs[|runs| - 1 := run];
        return;
      }
      run := run.(ats := cfg.detect(url));
      runs := runs[|runs| - 1 := run];
      assert View() == WithLast(old(View()), run);
      var checks := CheckSafety(a, a.userId.value, run.ats);
      if FailedNames(checks) != [] {
        run := run.(status := Failed, blockedBy := FailedNames(checks));
        runs := runs[|runs| - 1 := run];
        return;
      }
      if run.ats == Some("lever") && cfg.isLeverUrl(url) {
        run := run.(status := if a.at.success then Success else Failed);
        runs := runs[|runs| - 1 := run];
        if a.at.success {
          applications := Submitted(View(), a, a.userId.value);
        }
        return;
      }
      run := run.(ats := if a.at.provider.Some? then a.at.provider else run.ats,
                  status := if a.at.success then Filled else Failed);
      runs := runs[|runs| - 1 := run];
    }

    method RunBatch(b: BatchInput) returns (batchRuns: seq<Run>)
      modifies this
      ensures View() == AttemptedAll(cfg, old(View()), BatchAttempts(cfg, old(View()), b))
      ensures |batchRuns| == |Chosen(cfg, old(View()), b)| && runs == old(runs) + batchRuns
    {
      hide Matched, CandidateJobs, Attempted;
      batchRuns := [];
      if b.rules == [] || !b.hasProfile {
        return;
      }
      var candidates := CandidateJobs(View(), b.userId, b.jobs);
      var matches := MatchJobs(cfg.lower, candidates, b.rules);
      var chosen := UpTo(10, matches);
      ghost var attempts := BatchAttempts(cfg, old(View()), b);
      for i := 0 to |chosen|
        invariant View() == AttemptedAll(cfg, old(View()), attempts[..i])
        invariant |batchRuns| == i && runs == old(runs) + batchRuns
      {
        assert attempts[..i + 1][..i] == attempts[..i];
        AttemptAddsARun(cfg, View(), AttemptOf(b, chosen[i], i));
        var run := ApplyToJob(AttemptOf(b, chosen[i], i));
        batchRuns := batchRuns + [run];
      }
      assert attempts[..|chosen|] == attempts;
    }
  }

  lemma AttemptAddsARun(cfg: Settings, s: State, a: Attempt)
    ensures var after := Attempted(cfg, s, a);
      |after.runs| == |s.runs| + 1 && after.runs[..|s.runs|] == s.runs
  {
  }

  // ----- The applications are those of the pipeline -----

  // What the safety checks look at of the pipeline's rows.
  ghost function Seen(rows: seq<P.Application>): (s: seq<Application>)
    ensures |s| == |rows|
  {
    seq(|rows|, i requires 0 <= i < |rows| =>
      Application(rows[i].userId, rows[i].jobId, rows[i].companyName, rows[i].origin == P.AutoApplied,
                  rows[i].appliedAt, rows[i].createdAt))
  }

  /** A submission records what the pipeline records for it, when the two clocks agree. */
  lemma SubmissionIsRecordedInPipeline(s: State, t: P.Tables, a: Attempt, userId: nat)
    requires s.applications == Seen(t.applications) && a.at.stamp == a.at.now
    ensures var op := P.AutoApply(userId, a.job.id, a.job.companyName, a.at.now);
      Submitted(s, a, userId) == Seen(P.Next(t, op).applications)
  {
    NoneCounted(AppliedFor(userId, a.job.id), s.applications);
    if P.HasApplied(t, userId, a.job.id) {
      var row :| row in t.applications && row.userId == userId && row.jobId == Some(a.job.id);
      var i :| 0 <= i < |t.applications| && t.applications[i] == row;
      assert AppliedFor(userId, a.job.id)(s.applications[i]) && s.applications[i] in s.applications;
    } else {
      forall x | x in s.applications ensures !AppliedFor(userId, a.job.id)(x) {
        var i :| 0 <= i < |s.applications| && s.applications[i] == x;
        assert t.applications[i] in t.applications;
      }
    }
  }

  // ----- What holds after any attempts -----

  lemma NoneFailedOfLonger(checks: seq<Check>, c: Check)
    ensures FailedNames([]) == [] && FailedNames([c]) == if c.passed then [] else [c.name]
    ensures FailedNames(checks + [c]) == [] <==> FailedNames(checks) == [] && c.passed
  {
    assert (checks + [c])[..|checks|] == checks;
  }

  // What an attempt must be for nothing to block it.
  ghost predicate Cleared(cfg: Settings, s: State, a: Attempt, userId: nat, ats: Option<string>) {
    var now, job := a.at.now, a.job;
    && (forall x :: x in s.applications ==> x.userId != userId || x.jobId != Some(job.id))
    && CountBy(TakenToday(userId, now), s.runs) < cfg.maxDaily
    && HourHasRoom(s.runs, userId, if ats.Some? then ats.value else "default", now)
    && (job.companyName.Some? && job.companyName.value != "" ==>
          NoneAtWithin(cfg.lower, s.applications, userId, job.companyName.value, now))
    && (a.rule.Some? ==> NotExcluded(cfg.lower, job, a.rule.value))
    && (job.firstSeenAt.Some? ==> now - job.firstSeenAt.value < 30 * 24 * 3600)
    && (ats.Some? ==> a.allowFirstTime || HasWorked(s.runs, userId, ats.value))
  }

  // The user's runs of this calendar day, or a later one, that are filled or under way.
  ghost function TakenToday(userId: nat, now: int): Run -> bool {
    (r: Run) => r.userId == Some(userId) && r.startedAt / 86400 >= now / 86400 && (r.status == Filled || r.status == Running)
  }

  ghost function TakenThisHour(userId: nat, board: string, now: int): Run -> bool {
    (r: Run) => r.userId == Some(userId) && r.ats == Some(board) && now - r.startedAt <= 3600
                && (r.status == Filled || r.status == Running)
  }

  ghost predicate HourHasRoom(runs: seq<Run>, userId: nat, board: string, now: int) {
    CountBy(TakenThisHour(userId, board, now), runs)
      < if board == "greenhouse" then 10 else if board == "workday" then 3 else 5
  }

  predicate IsAt(lower: Casing, x: Application, company: string) {
    x.companyName.Some? && Lower(lower, x.companyName.value) == Lower(lower, company)
  }

  // All the user's applications to the company are more than seven days old.
  ghost predicate NoneAtWithin(lower: Casing, applications: seq<Application>, userId: nat, company: string, now: int) {
    forall x | x in applications && x.userId == userId && IsAt(lower, x, company) :: now - x.createdAt > 7 * 24 * 3600
  }

  ghost predicate NotExcluded(lower: Casing, job: Job, rule: Rule) {
    && (job.companyName.Some? && job.companyName.value != "" ==>
          forall c :: c in rule.excludedCompanies ==> !Mentions(lower, job.companyName.value, c))
    && (job.title != "" ==> forall k :: k in rule.excludedKeywords ==> !Mentions(lower, job.title, k))
  }

  ghost predicate HasWorked(runs: seq<Run>, userId: nat, provider: string) {
    exists r :: r in runs && r.userId == Some(userId) && r.ats == Some(provider) && r.status in {Success, Filled}
  }

  lemma SameDayOrLater(t: int, now: int)
    ensures t >= StartOfDay(now) <==> t / 86400 >= now / 86400
  {
  }

  lemma LimitsMean(cfg: Settings, s: State, userId: nat, board: string, now: int)
    ensures CountBy(CountedSince(userId, StartOfDay(now)), s.runs) == CountBy(TakenToday(userId, now), s.runs)
    ensures UnderHourlyLimit(s, userId, board, now) <==> HourHasRoom(s.runs, userId, board, now)
  {
    hide CountBy, StartOfDay;
    var since, today := CountedSince(userId, StartOfDay(now)), TakenToday(userId, now);
    forall r: Run ensures since(r) <==> today(r) {
      SameDayOrLater(r.startedAt, now);
    }
    CountIsMonotone(since, today, s.runs);
    CountIsMonotone(today, since, s.runs);
    var counted, thisHour := CountedAt(userId, board, now - HOUR), TakenThisHour(userId, board, now);
    assert forall r: Run :: counted(r) <==> thisHour(r);
    CountIsMonotone(counted, thisHour, s.runs);
    CountIsMonotone(thisHour, counted, s.runs);
  }

  lemma ExclusionsMean(lower: Casing, job: Job, rule: Option<Rule>)
    ensures !Blacklisted(lower, job, rule) <==> (rule.Some? ==> NotExcluded(lower, job, rule.value))
  {
    hide Mentions;
    if rule.Some? {
      forall text: string, parts: seq<string>
        ensures MentionsAny(lower, text, parts) <==> exists part :: part in parts && Mentions(lower, text, part)
      {
        if part :| part in parts && Mentions(lower, text, part) {
          var i :| 0 <= i < |parts| && parts[i] == part;
        }
      }
    }
  }

  lemma ChecksMean(cfg: Settings, s: State, a: Attempt, userId: nat, company: string, now: int, ats: Option<string>)
    ensures NotApplied(s, userId, a.job) <==>
      forall x :: x in s.applications ==> x.userId != userId || x.jobId != Some(a.job.id)
    ensures NotRecentlyAt(cfg, s, userId, company, now) <==> NoneAtWithin(cfg.lower, s.applications, userId, company, now)
    ensures IsFresh(a.job, now) <==> (a.job.firstSeenAt.Some? ==> now - a.job.firstSeenAt.value < 30 * 24 * 3600)
    ensures IsKnown(s, a, userId, ats) <==> (ats.Some? ==> a.allowFirstTime || HasWorked(s.runs, userId, ats.value))
  {
    hide CountBy, Lower;
    var applied, recent := AppliedFor(userId, a.job.id), AppliedAtSince(cfg.lower, userId, company, now - COOLDOWN);
    NoneCounted(applied, s.applications);
    NoneCounted(recent, s.applications);
    assert forall x :: applied(x) <==> x.userId == userId && x.jobId == Some(a.job.id);
    forall x | x in s.applications
      ensures recent(x) <==> x.userId == userId && IsAt(cfg.lower, x, company) && now - x.createdAt <= 7 * 24 * 3600
    {
    }
  }

  lemma NothingFailedIff(cfg: Settings, s: State, a: Attempt, userId: nat, ats: Option<string>)
    ensures FailedNames(Checks(cfg, s, a, userId, ats)) == [] <==>
      var now, company := a.at.now, OrEmpty(a.job.companyName);
      && NotApplied(s, userId, a.job)
      && UnderDailyLimit(cfg, s, userId, now)
      && UnderHourlyLimit(s, userId, if ats.Some? then ats.value else "default", now)
      && (company == "" || NotRecentlyAt(cfg, s, userId, company, now))
      && !Blacklisted(cfg.lower, a.job, a.rule)
      && IsFresh(a.job, now)
      && IsKnown(s, a, userId, ats)
  {
    hide FailedNames, NotApplied, UnderDailyLimit, UnderHourlyLimit, NotRecentlyAt, Blacklisted, IsFresh, IsKnown;
    var now, company := a.at.now, OrEmpty(a.job.companyName);
    var c1 := [Check("duplicate", NotApplied(s, userId, a.job))];
    var c2 := Check("daily_limit", UnderDailyLimit(cfg, s, userId, now));
    var c3 := Check("ats_hourly_limit", UnderHourlyLimit(s, userId, if ats.Some? then ats.value else "default", now));
    var c4 := Check("company_cooldown", NotRecentlyAt(cfg, s, userId, company, now));
    var c5 := Check("blacklist", !Blacklisted(cfg.lower, a.job, a.rule));
    var c6 := Check("freshness", IsFresh(a.job, now));
    var c7 := Check("first_time_ats", IsKnown(s, a, userId, ats));
    NoneFailedOfLonger([], c1[0]);
    NoneFailedOfLonger(c1, c2);
    NoneFailedOfLonger(c1 + [c2], c3);
    var c123 := c1 + [c2] + [c3];
    var c1234 := if company == "" then c123 else c123 + [c4];
    NoneFailedOfLonger(c123, c4);
    NoneFailedOfLonger(c1234, c5);
    NoneFailedOfLonger(c1234 + [c5], c6);
    NoneFailedOfLonger(c1234 + [c5] + [c6], c7);
    assert company == "" ==> c123 + [] == c123;
    assert Checks(cfg, s, a, userId, ats) == c1234 + [c5] + [c6] + [c7];
  }

  /** Nothing blocks an attempt if and only if it is cleared. */
  lemma PassesIff(cfg: Settings, s: State, a: Attempt, userId: nat, ats: Option<string>)
    ensures FailedNames(Checks(cfg, s, a, userId, ats)) == [] <==> Cleared(cfg, s, a, userId, ats)
  {
    hide Checks, FailedNames, NotApplied, UnderHourlyLimit, NotRecentlyAt, Blacklisted, IsFresh, IsKnown;
    hide HourHasRoom, NoneAtWithin, NotExcluded, HasWorked, CountBy, StartOfDay;
    NothingFailedIff(cfg, s, a, userId, ats);
    LimitsMean(cfg, s, userId, if ats.Some? then ats.value else "default", a.at.now);
    ExclusionsMean(cfg.lower, a.job, a.rule);
    ChecksMean(cfg, s, a, userId, OrEmpty(a.job.companyName), a.at.now, ats);
  }

  // The attempt gets as far as the job board.
  predicate Goes(cfg: Settings, s: State, a: Attempt) {
    a.userId.Some? && OrEmpty(a.job.sourceUrl) != "" && BlockedBy(cfg, s, a) == []
  }

  lemma GoesMeans(cfg: Settings, s: State, a: Attempt)
    requires Goes(cfg, s, a)
    ensures forall x :: x in s.applications ==> x.userId != a.userId.value || x.jobId != Some(a.job.id)
    ensures CountBy(TakenToday(a.userId.value, a.at.now), s.runs) + 1 < cfg.maxDaily
    ensures OrEmpty(a.job.companyName) != "" ==>
      NoneAtWithin(cfg.lower, s.applications, a.userId.value, a.job.companyName.value, a.at.now)
  {
    hide Checks, FailedNames, CountBy, HourHasRoom, NoneAtWithin, NotExcluded, HasWorked;
    var userId, now, job := a.userId.value, a.at.now, a.job;
    var ats := cfg.detect(OrEmpty(job.sourceUrl));
    var started := Run(a.userId, job.id, ats, Running, [], now);
    PassesIff(cfg, WithLast(s, started), a, userId, ats);
    CountOfLonger(TakenToday(userId, now), s.runs, started);
  }

  /** Without its user's consent, an attempt goes only to a system that has worked for the user before. */
  lemma FirstUseNeedsConsent(cfg: Settings, s: State, a: Attempt, provider: string)
    requires Goes(cfg, s, a) && !a.allowFirstTime && cfg.detect(a.job.sourceUrl.value) == Some(provider)
    ensures exists r :: r in s.runs && r.userId == a.userId && r.ats == Some(provider) && r.status in {Success, Filled}
  {
    hide Checks, FailedNames, CountBy, HourHasRoom, NoneAtWithin, NotExcluded;
    var started := Run(a.userId, a.job.id, Some(provider), Running, [], a.at.now);
    PassesIff(cfg, WithLast(s, started), a, a.userId.value, Some(provider));
    var r :| r in WithLast(s, started).runs && r.userId == a.userId && r.ats == Some(provider) && r.status in {Success, Filled};
  }

  predicate Submits(cfg: Settings, s: State, a: Attempt) {
    && Goes(cfg, s, a)
    && cfg.detect(a.job.sourceUrl.value) == Some("lever") && cfg.isLeverUrl(a.job.sourceUrl.value) && a.at.success
  }

  // What an attempt leaves: one run more, and an application more exactly when it submits.
  lemma AttemptLeaves(cfg: Settings, s: State, a: Attempt)
    ensures var after := Attempted(cfg, s, a);
      && after.runs == s.runs + [after.runs[|s.runs|]]
      && var run := after.runs[|s.runs|];
         && run.userId == a.userId && run.jobId == a.job.id && run.startedAt == a.at.now
         && run.status != Running && (run.status in {Filled, Success} ==> Goes(cfg, s, a))
         && (run.status == Success <==> Submits(cfg, s, a))
         && after.applications == s.applications + if Submits(cfg, s, a)
              then [Application(a.userId.value, Some(a.job.id), a.job.companyName, true, Some(a.at.now), a.at.stamp)] else []
  {
    hide BlockedBy, CountBy;
    if Goes(cfg, s, a) {
      GoesMeans(cfg, s, a);
      NoneCounted(AppliedFor(a.userId.value, a.job.id), s.applications);
    }
  }

  ghost predicate HasApplication(applications: seq<Application>, run: Run) {
    exists x :: x in applications && Some(x.userId) == run.userId && x.jobId == Some(run.jobId)
  }

  /** An attempt goes as far as the job board if and only if it has a user and a URL and is cleared, itself counted. */
  lemma GoesIff(cfg: Settings, s: State, a: Attempt)
    ensures Goes(cfg, s, a) <==>
      && a.userId.Some? && a.job.sourceUrl.Some? && a.job.sourceUrl.value != ""
      && var ats := cfg.detect(a.job.sourceUrl.value);
         Cleared(cfg, s.(runs := s.runs + [Run(a.userId, a.job.id, ats, Running, [], a.at.now)]), a, a.userId.value, ats)
  {
    hide Cleared, Checks, FailedNames;
    if a.userId.Some? && a.job.sourceUrl.Some? {
      var ats := cfg.detect(a.job.sourceUrl.value);
      PassesIff(cfg, WithLast(s, Run(a.userId, a.job.id, ats, Running, [], a.at.now)), a, a.userId.value, ats);
    }
  }

  /**
   How a run ends: through the Lever interface it is submitted or failed, through a browser filled or failed, and only
   a browser corrects its system. Without a user or a URL it has none.
   */
  lemma RunEnds(cfg: Settings, s: State, a: Attempt)
    ensures var run := Attempted(cfg, s, a).runs[|s.runs|];
      var url := if a.job.sourceUrl.Some? then a.job.sourceUrl.value else "";
      var byInterface := cfg.detect(url) == Some("lever") && cfg.isLeverUrl(url);
      && run.status == (if !Goes(cfg, s, a) || !a.at.success then Failed else if byInterface then Success else Filled)
      && run.ats == (if a.userId.None? || url == "" then None
                     else if Goes(cfg, s, a) && !byInterface && a.at.provider.Some? then a.at.provider
                     else cfg.detect(url))
      && (run.blockedBy == [] <==> Goes(cfg, s, a) || a.userId.None? || url == "")
  {
    hide BlockedBy;
  }

  // No two submitted runs are for the same user and job, and each has left an application.
  ghost predicate SubmittedOnce(s: State) {
    && (forall run :: run in s.runs && run.status == Success ==> HasApplication(s.applications, run))
    && (forall i, j :: 0 <= i < j < |s.runs| && s.runs[i].status == s.runs[j].status == Success ==>
          s.runs[i].userId != s.runs[j].userId || s.runs[i].jobId != s.runs[j].jobId)
  }

  predicate SameCompany(lower: Casing, x: Application, y: Application) {
    && x.userId == y.userId && OrEmpty(x.companyName) != "" && y.companyName.Some?
    && Lower(lower, x.companyName.value) == Lower(lower, y.companyName.value)
  }

  // Every application of the same user to the company is by then more than seven days old.
  ghost predicate CooledDown(lower: Casing, applications: seq<Application>) {
    forall i, j :: 0 <= i < j < |applications| && applications[j].byAutoApply
                   && SameCompany(lower, applications[j], applications[i]) ==>
      applications[j].appliedAt.Some? && applications[j].appliedAt.value - applications[i].createdAt > 7 * 24 * 3600
  }

  // Filled runs of one calendar day, counted from 1 January 1970.
  function FilledOn(userId: nat, day: int): Run -> bool {
    (r: Run) => r.userId == Some(userId) && r.status == Filled && r.startedAt / 86400 == day
  }

  // The limit counts the run under way, so one less than the limit is all that a day allows.
  ghost predicate WithinDailyLimit(maxDaily: int, runs: seq<Run>) {
    forall userId, day :: CountBy(FilledOn(userId, day), runs) <= if maxDaily > 1 then maxDaily - 1 else 0
  }

  ghost predicate Safe(cfg: Settings, s: State) {
    SubmittedOnce(s) && CooledDown(cfg.lower, s.applications) && WithinDailyLimit(cfg.maxDaily, s.runs)
  }

  lemma AttemptKeepsSubmittedOnce(cfg: Settings, s: State, a: Attempt)
    requires SubmittedOnce(s)
    ensures SubmittedOnce(Attempted(cfg, s, a))
  {
    hide Attempted, BlockedBy;
    AttemptLeaves(cfg, s, a);
    var after := Attempted(cfg, s, a);
    var last := after.runs[|s.runs|];
    assert forall x :: x in s.applications ==> x in after.applications;
    if Submits(cfg, s, a) {
      GoesMeans(cfg, s, a);
      assert after.applications[|s.applications|] in after.applications;
      assert HasApplication(after.applications, last);
    }
    forall run | run in s.runs && run.status == Success
      ensures HasApplication(after.applications, run)
      ensures Submits(cfg, s, a) ==> run.userId != a.userId || run.jobId != a.job.id
    {
      assert HasApplication(s.applications, run);
    }
    forall i | 0 <= i < |s.runs| && s.runs[i].status == last.status == Success
      ensures s.runs[i].userId != last.userId || s.runs[i].jobId != last.jobId
    {
      assert s.runs[i] in s.runs;
    }
  }

  lemma AttemptKeepsCooledDown(cfg: Settings, s: State, a: Attempt)
    requires CooledDown(cfg.lower, s.applications)
    ensures CooledDown(cfg.lower, Attempted(cfg, s, a).applications)
  {
    hide Attempted, Goes, Lower;
    AttemptLeaves(cfg, s, a);
    var after := Attempted(cfg, s, a).applications;
    if Submits(cfg, s, a) {
      GoesMeans(cfg, s, a);
      var x := after[|s.applications|];
      forall i | 0 <= i < |s.applications| && SameCompany(cfg.lower, x, s.applications[i])
        ensures x.appliedAt.value - s.applications[i].createdAt > 7 * 24 * 3600
      {
        assert s.applications[i] in s.applications;
      }
    } else {
      assert after == s.applications;
    }
  }

  lemma AttemptKeepsDailyLimit(cfg: Settings, s: State, a: Attempt)
    requires WithinDailyLimit(cfg.maxDaily, s.runs)
    ensures WithinDailyLimit(cfg.maxDaily, Attempted(cfg, s, a).runs)
  {
    hide Attempted, Goes, CountBy;
    AttemptLeaves(cfg, s, a);
    var run := Attempted(cfg, s, a).runs[|s.runs|];
    forall userId, day
      ensures CountBy(FilledOn(userId, day), s.runs + [run]) <= if cfg.maxDaily > 1 then cfg.maxDaily - 1 else 0
    {
      CountOfLonger(FilledOn(userId, day), s.runs, run);
      if FilledOn(userId, day)(run) {
        GoesMeans(cfg, s, a);
        CountIsMonotone(FilledOn(userId, day), TakenToday(userId, a.at.now), s.runs);
      }
    }
  }

  lemma {:induction false} AttemptsKeepSafe(cfg: Settings, s: State, attempts: seq<Attempt>)
    requires Safe(cfg, s)
    ensures Safe(cfg, AttemptedAll(cfg, s, attempts))
  {
    hide Attempted, SubmittedOnce, CooledDown, WithinDailyLimit;
    if attempts != [] {
      var before, a := AttemptedAll(cfg, s, attempts[..|attempts| - 1]), attempts[|attempts| - 1];
      AttemptsKeepSafe(cfg, s, attempts[..|attempts| - 1]);
      AttemptKeepsSubmittedOnce(cfg, before, a);
      AttemptKeepsCooledDown(cfg, before, a);
      AttemptKeepsDailyLimit(cfg, before, a);
    }
  }

  // `Elsewhere` is an application that comes into the table in another way.
  datatype Operation = Single(attempt: Attempt) | Batch(input: BatchInput) | Elsewhere(application: Application)

  ghost function Next(cfg: Settings, s: State, op: Operation): State {
    match op
    case Single(attempt) => Attempted(cfg, s, attempt)
    case Batch(input) => AttemptedAll(cfg, s, BatchAttempts(cfg, s, input))
    case Elsewhere(x) => s.(applications := s.applications + [x.(byAutoApply := false)])
  }

  ghost function After(cfg: Settings, ops: seq<Operation>): State {
    if ops == [] then EMPTY else Next(cfg, After(cfg, ops[..|ops| - 1]), ops[|ops| - 1])
  }

  lemma NothingIsSafe(cfg: Settings)
    ensures Safe(cfg, EMPTY)
  {
    assert forall userId, day :: CountBy(FilledOn(userId, day), EMPTY.runs) == 0;
  }

  lemma OthersKeepSafe(cfg: Settings, s: State, x: Application)
    requires Safe(cfg, s) && !x.byAutoApply
    ensures Safe(cfg, s.(applications := s.applications + [x]))
  {
    hide Lower, WithinDailyLimit;
    forall run | run in s.runs && run.status == Success ensures HasApplication(s.applications + [x], run) {
      assert HasApplication(s.applications, run);
      var y :| y in s.applications && Some(y.userId) == run.userId && y.jobId == Some(run.jobId);
      assert y in s.applications + [x];
    }
  }

  /**
   After any mix of single attempts, batches and applications made elsewhere: a job is submitted at most once for a
   user; a submission to a named company comes more than seven days after every application to it; and no day has
   more filled runs than one less than the limit.
   */
  lemma {:induction false} EveryRunIsSafe(cfg: Settings, ops: seq<Operation>)
    ensures Safe(cfg, After(cfg, ops))
  {
    hide Attempted, AttemptedAll, BatchAttempts, SubmittedOnce, CooledDown, WithinDailyLimit;
    if ops == [] {
      NothingIsSafe(cfg);
    } else {
      var before, op := After(cfg, ops[..|ops| - 1]), ops[|ops| - 1];
      EveryRunIsSafe(cfg, ops[..|ops| - 1]);
      match op
      case Single(attempt) =>
        AttemptKeepsSubmittedOnce(cfg, before, attempt);
        AttemptKeepsCooledDown(cfg, before, attempt);
        AttemptKeepsDailyLimit(cfg, before, attempt);
      case Batch(input) =>
        AttemptsKeepSafe(cfg, before, BatchAttempts(cfg, before, input));
      case Elsewhere(x) =>
        OthersKeepSafe(cfg, before, x.(byAutoApply := false));
    }
  }

  // ----- What a batch touches -----

  lemma {:induction false} SelectedAreCandidates(s: State, userId: nat, jobs: seq<Job>)
    ensures forall job :: job in Selected(s, userId, jobs) <==> job in jobs && IsCandidate(s, userId, job)
    ensures DistinctIds(jobs) ==> DistinctIds(Selected(s, userId, jobs))
  {
    hide IsCandidate;
    if jobs != [] {
      var n := |jobs| - 1;
      SelectedAreCandidates(s, userId, jobs[..n]);
      assert forall job :: job in jobs <==> job in jobs[..n] || job == jobs[n];
      if DistinctIds(jobs) {
        var before := Selected(s, userId, jobs[..n]);
        forall i | 0 <= i < |before| ensures before[i].id != jobs[n].id {
          assert before[i] in jobs[..n];
        }
      }
    }
  }

  lemma {:induction false} AttemptsAddRuns(cfg: Settings, s: State, attempts: seq<Attempt>)
    ensures var after := AttemptedAll(cfg, s, attempts);
      && |after.runs| == |s.runs| + |attempts| && after.runs[..|s.runs|] == s.runs
      && forall i :: 0 <= i < |attempts| ==> after.runs[|s.runs| + i].jobId == attempts[i].job.id
  {
    hide Attempted, Goes, Submits;
    if attempts != [] {
      var n := |attempts| - 1;
      AttemptsAddRuns(cfg, s, attempts[..n]);
      AttemptLeaves(cfg, AttemptedAll(cfg, s, attempts[..n]), attempts[n]);
    }
  }

  // An active new job of the user's, without an application, and without a run that did not fail.
  ghost predicate IsOpenTo(s: State, userId: nat, job: Job) {
    && job.userId == userId && job.isActive && job.status == "new"
    && (forall x :: x in s.applications ==> x.userId != userId || x.jobId != Some(job.id))
    && (forall r :: r in s.runs && r.userId == Some(userId) && r.jobId == job.id ==> r.status == Failed)
  }

  lemma CandidateIff(s: State, userId: nat, job: Job)
    ensures IsCandidate(s, userId, job) <==> IsOpenTo(s, userId, job)
  {
  }

  /**
   A batch adds at most ten runs, for different jobs. Each job was a candidate before the batch: an active new job of
   the user's, without an application and without a filled, submitted or running run. It is applied for under a best
   rule for it.
   */
  lemma BatchTouches(cfg: Settings, s: State, b: BatchInput)
    requires DistinctIds(b.jobs)
    ensures var chosen, after := Chosen(cfg, s, b), Next(cfg, s, Batch(b));
      && |after.runs| == |s.runs| + |chosen| <= |s.runs| + 10
      && ChosenOnce(chosen)
      && (forall i :: 0 <= i < |chosen| ==> after.runs[|s.runs| + i].jobId == chosen[i].0.id)
      && (forall m :: m in chosen ==>
            && m.0 in b.jobs && IsOpenTo(s, b.userId, m.0)
            && exists k: nat :: IsBest(cfg.lower, m.0, b.rules, k) && b.rules[k] == m.1)
  {
    hide Matched, IsBest, Attempted, IsOpenTo, IsCandidate;
    var attempts := BatchAttempts(cfg, s, b);
    AttemptsAddRuns(cfg, s, attempts);
    assert forall i :: 0 <= i < |attempts| ==> attempts[i].job == Chosen(cfg, s, b)[i].0;
    SelectedAreCandidates(s, b.userId, b.jobs);
    MatchedOnce(cfg.lower, CandidateJobs(s, b.userId, b.jobs), b.rules);
    MatchedAreTheMatchable(cfg.lower, CandidateJobs(s, b.userId, b.jobs), b.rules);
    forall m | m in Chosen(cfg, s, b) ensures m.0 in b.jobs && IsOpenTo(s, b.userId, m.0) {
      assert m.0 in Selected(s, b.userId, b.jobs);
      CandidateIff(s, b.userId, m.0);
    }
  }

  lemma {:induction false} LaterAttemptsAddRuns(cfg: Settings, s: State, attempts: seq<Attempt>, n: nat)
    requires n <= |attempts|
    ensures AttemptedAll(cfg, s, attempts[..n]).runs <= AttemptedAll(cfg, s, attempts).runs
  {
    hide Attempted;
    if n == |attempts| {
      assert attempts[..n] == attempts;
    } else {
      var before := attempts[..|attempts| - 1];
      LaterAttemptsAddRuns(cfg, s, before, n);
      assert before[..n] == attempts[..n];
      AttemptAddsARun(cfg, AttemptedAll(cfg, s, before), attempts[|attempts| - 1]);
    }
  }

  /** A batch never consents: it fills or submits only at a system where an earlier run of the user's has done so. */
  lemma BatchMakesNoFirstUse(cfg: Settings, s: State, b: BatchInput, i: nat, provider: string)
    requires i < |Chosen(cfg, s, b)| && cfg.detect(OrEmpty(Chosen(cfg, s, b)[i].0.sourceUrl)) == Some(provider)
    ensures var runs, n := Next(cfg, s, Batch(b)).runs, |s.runs| + i;
      && n < |runs|
      && (runs[n].status in {Filled, Success} ==>
            exists r :: r in runs[..n] && r.userId == Some(b.userId) && r.ats == Some(provider) && r.status in {Filled, Success})
  {
    hide Chosen, Attempted, Goes, Submits;
    var attempts := BatchAttempts(cfg, s, b);
    var before, a := AttemptedAll(cfg, s, attempts[..i]), attempts[i];
    AttemptsAddRuns(cfg, s, attempts[..i]);
    AttemptLeaves(cfg, before, a);
    assert attempts[..i + 1][..i] == attempts[..i];
    LaterAttemptsAddRuns(cfg, s, attempts, i + 1);
    if Goes(cfg, before, a) {
      GoesIff(cfg, before, a);
      FirstUseNeedsConsent(cfg, before, a, provider);
      var runs, n := Next(cfg, s, Batch(b)).runs, |s.runs| + i;
      assert runs[..n] == before.runs by {
        LaterAttemptsAddRuns(cfg, s, attempts, i);
      }
    }
  }

  lemma {:induction false} MatchedCount(lower: Casing, jobs: seq<Job>, rules: seq<Rule>)
    ensures |Matched(lower, jobs, rules)| == CountBy(CanMatch(lower, rules), jobs)
  {
    hide MatchesRule;
    if jobs != [] {
      var n := |jobs| - 1;
      MatchedCount(lower, jobs[..n], rules);
      var best := Best(lower, jobs[n], rules);
      if best.Some? {
        assert rules[best.value] in rules;
      }
    }
  }

  ghost function CanMatch(lower: Casing, rules: seq<Rule>): Job -> bool {
    (job: Job) => Matchable(lower, job, rules)
  }

  /** A batch misses nothing: of the first fifty candidates it takes all that some rule matches, up to ten. */
  lemma BatchMissesNothing(cfg: Settings, s: State, b: BatchInput)
    requires b.rules != [] && b.hasProfile
    ensures var candidates := Selected(s, b.userId, b.jobs);
      var first := if |candidates| > 50 then candidates[..50] else candidates;
      var matching := CountBy(CanMatch(cfg.lower, b.rules), first);
      |Chosen(cfg, s, b)| == if matching > 10 then 10 else matching
  {
    MatchedCount(cfg.lower, CandidateJobs(s, b.userId, b.jobs), b.rules);
  }

  lemma LowerOfPrefix(lower: Casing, text: string, more: string)
    ensures Lower(lower, text + more)[..|text|] == Lower(lower, text)
  {
  }

  lemma LongerTextMentions(lower: Casing, text: string, more: string, parts: seq<string>)
    requires MentionsAny(lower, text, parts)
    ensures MentionsAny(lower, text + more, parts)
  {
    var k :| 0 <= k < |parts| && Mentions(lower, text, parts[k]);
    var short, long, part := Lower(lower, text), Lower(lower, text + more), Lower(lower, parts[k]);
    LowerOfPrefix(lower, text, more);
    var i: nat :| i <= |short| && OccursAt(short, part, i);
    assert long[i..i + |part|] == long[..|text|][i..i + |part|];
    assert OccursAt(long, part, i);
    assert Mentions(lower, text + more, parts[k]);
  }

  /** A rule never chooses a job that its own exclusions then block. */
  lemma ChosenJobsAreNotBlacklisted(lower: Casing, job: Job, rule: Rule)
    requires MatchesRule(lower, job, rule)
    ensures !Blacklisted(lower, job, Some(rule))
  {
    hide MentionsAny, Lower;
    var more := " " + OrEmpty(job.description);
    assert Advert(job) == job.title + more;
    if MentionsAny(lower, job.title, rule.excludedKeywords) {
      LongerTextMentions(lower, job.title, more, rule.excludedKeywords);
    }
  }

  // ----- What the daily limit leaves out -----

  function SubmittedOn(userId: nat, day: int): Run -> bool {
    (r: Run) => r.userId == Some(userId) && r.status == Success && r.startedAt / 86400 == day
  }

  ghost predicate SubmissionsWithinLimit(cfg: Settings, runs: seq<Run>) {
    forall userId, day :: CountBy(SubmittedOn(userId, day), runs) <= if cfg.maxDaily > 0 then cfg.maxDaily else 0
  }

  // Below a limit of two, a run's own presence exhausts the day.
  lemma {:induction false} NothingGoes(cfg: Settings, s: State, attempts: seq<Attempt>)
    requires cfg.maxDaily <= 1 && forall r :: r in s.runs ==> r.status == Failed
    ensures forall r :: r in AttemptedAll(cfg, s, attempts).runs ==> r.status == Failed
  {
    hide Attempted, Goes, Submits;
    if attempts != [] {
      var before, a := AttemptedAll(cfg, s, attempts[..|attempts| - 1]), attempts[|attempts| - 1];
      NothingGoes(cfg, s, attempts[..|attempts| - 1]);
      AttemptLeaves(cfg, before, a);
      if Goes(cfg, before, a) {
        GoesMeans(cfg, before, a);
      }
    }
  }

  lemma {:induction false} NothingEverGoes(cfg: Settings, ops: seq<Operation>)
    requires cfg.maxDaily <= 1
    ensures forall r :: r in After(cfg, ops).runs ==> r.status == Failed
  {
    hide Attempted;
    if ops != [] {
      var before, op := After(cfg, ops[..|ops| - 1]), ops[|ops| - 1];
      NothingEverGoes(cfg, ops[..|ops| - 1]);
      match op
      case Single(attempt) =>
        NothingGoes(cfg, before, [attempt]);
        assert [attempt][..0] == [] && AttemptedAll(cfg, before, []) == before;
      case Batch(input) =>
        NothingGoes(cfg, before, BatchAttempts(cfg, before, input));
      case Elsewhere(_) =>
    }
  }

  function Name(k: nat): string {
    seq(k, i => 'x')
  }

  // A job on Lever, without a company name, that its user asks to be applied for.
  function SpreeAttempt(userId: nat, url: string, now: int, k: nat): Attempt {
    Attempt(Job(Name(k), userId, "Engineer", None, None, None, None, None, Some(url), None, true, "new"),
            Some(userId), None, true, Circumstances(now, now, true, None))
  }

  function Spree(userId: nat, url: string, now: int, n: nat): (ops: seq<Operation>)
    ensures |ops| == n
  {
    if n == 0 then [] else Spree(userId, url, now, n - 1) + [Single(SpreeAttempt(userId, url, now, n - 1))]
  }

  // `n` runs of a user at one time, all of them submitted.
  ghost predicate AllSubmitted(s: State, userId: nat, now: int, n: nat) {
    && |s.runs| == n && (forall r :: r in s.runs ==> r.status == Success && r.userId == Some(userId) && r.startedAt == now)
    && (forall x :: x in s.applications ==> x.jobId.Some? && |x.jobId.value| < n)
  }

  lemma SubmittedRunsAreNotCounted(s: State, userId: nat, started: Run, ats: string, now: int)
    requires forall r :: r in s.runs ==> r.status == Success
    ensures CountBy(TakenToday(userId, now), s.runs + [started]) <= 1
    ensures CountBy(TakenThisHour(userId, ats, now), s.runs + [started]) <= 1
  {
    NoneCounted(TakenToday(userId, now), s.runs);
    CountOfLonger(TakenToday(userId, now), s.runs, started);
    NoneCounted(TakenThisHour(userId, ats, now), s.runs);
    CountOfLonger(TakenThisHour(userId, ats, now), s.runs, started);
  }

  lemma SpreeGoesOn(cfg: Settings, s: State, userId: nat, url: string, now: int, n: nat)
    requires cfg.maxDaily >= 2
    requires url != "" && cfg.detect(url) == Some("lever") && cfg.isLeverUrl(url)
    requires AllSubmitted(s, userId, now, n)
    ensures AllSubmitted(Attempted(cfg, s, SpreeAttempt(userId, url, now, n)), userId, now, n + 1)
  {
    hide Attempted, Checks, FailedNames, CountBy, TakenToday, TakenThisHour;
    var a := SpreeAttempt(userId, url, now, n);
    var started := Run(Some(userId), a.job.id, Some("lever"), Running, [], now);
    SubmittedRunsAreNotCounted(s, userId, started, "lever", now);
    PassesIff(cfg, WithLast(s, started), a, userId, Some("lever"));
    AttemptLeaves(cfg, s, a);
  }

  /** With a limit of two or more, one day can see any number of submissions. */
  lemma {:induction false} SubmissionsAreUnlimited(cfg: Settings, userId: nat, url: string, now: int, n: nat)
    requires cfg.maxDaily >= 2
    requires url != "" && cfg.detect(url) == Some("lever") && cfg.isLeverUrl(url)
    ensures AllSubmitted(After(cfg, Spree(userId, url, now, n)), userId, now, n)
  {
    hide Attempted, SpreeAttempt;
    if n > 0 {
      hide AllSubmitted;
      var before, last := Spree(userId, url, now, n - 1), SpreeAttempt(userId, url, now, n - 1);
      assert (before + [Single(last)])[..|before|] == before;
      SubmissionsAreUnlimited(cfg, userId, url, now, n - 1);
      SpreeGoesOn(cfg, After(cfg, before), userId, url, now, n - 1);
    }
  }

  lemma {:induction false} AllAreCounted(userId: nat, day: int, runs: seq<Run>)
    requires forall r :: r in runs ==> SubmittedOn(userId, day)(r)
    ensures CountBy(SubmittedOn(userId, day), runs) == |runs|
  {
    if runs != [] {
      AllAreCounted(userId, day, runs[..|runs| - 1]);
    }
  }

  /**
   Where something can be submitted at all, the daily limit bounds the submissions of every day of every run if and
   only if it is at most one, which is when it lets nothing through.
   */
  lemma LimitBoundsSubmissionsIff(cfg: Settings, url: string)
    requires url != "" && cfg.detect(url) == Some("lever") && cfg.isLeverUrl(url)
    ensures (forall ops :: SubmissionsWithinLimit(cfg, After(cfg, ops).runs)) <==> cfg.maxDaily <= 1
    ensures cfg.maxDaily <= 1 ==> forall ops, r :: r in After(cfg, ops).runs ==> r.status == Failed
  {
    hide After;
    if cfg.maxDaily <= 1 {
      forall ops ensures SubmissionsWithinLimit(cfg, After(cfg, ops).runs) {
        NothingEverGoes(cfg, ops);
        forall userId, day ensures CountBy(SubmittedOn(userId, day), After(cfg, ops).runs) == 0 {
          NoneCounted(SubmittedOn(userId, day), After(cfg, ops).runs);
        }
      }
      forall ops, r | r in After(cfg, ops).runs ensures r.status == Failed {
        NothingEverGoes(cfg, ops);
      }
    } else {
      var ops := Spree(0, url, 0, cfg.maxDaily + 1);
      SubmissionsAreUnlimited(cfg, 0, url, 0, cfg.maxDaily + 1);
      AllAreCounted(0, 0, After(cfg, ops).runs);
      assert !SubmissionsWithinLimit(cfg, After(cfg, ops).runs);
    }
  }
}
