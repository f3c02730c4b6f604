/**
 Matching jobs to automatic-application rules: backend/app/auto_apply/engine.py. Lower-casing works on each
 character, and is an input.
 */
module RuleEngine {
  import opened Wrappers

  type Casing = char -> char

  datatype Job = Job(
    id: string, userId: nat, title: string, description: Option<string>, companyName: Option<string>,
    matchScore: Option<real>, experienceLevel: Option<string>, remoteType: Option<string>,
    sourceUrl: Option<string>, firstSeenAt: Option<int>, isActive: bool, status: string)

  datatype Rule = Rule(
    priority: int, minMatchScore: Option<real>,
    requiredKeywords: seq<string>, excludedKeywords: seq<string>,
    requiredCompanies: seq<string>, excludedCompanies: seq<string>,
    experienceLevels: seq<string>, remoteTypes: seq<string>)

  function Lower(lower: Casing, s: string): (t: string)
    ensures |t| == |s|
  {
    seq(|s|, i requires 0 <= i < |s| => lower(s[i]))
  }

  predicate OccursAt(text: string, part: string, i: nat) {
    i + |part| <= |text| && text[i..i + |part|] == part
  }

  // `part in text`
  predicate Contains(text: string, part: string) {
    exists i: nat :: i <= |text| && OccursAt(text, part, i)
  }

  predicate Mentions(lower: Casing, text: string, part: string) {
    Contains(Lower(lower, text), Lower(lower, part))
  }

  predicate MentionsAny(lower: Casing, text: string, parts: seq<string>) {
    exists i :: 0 <= i < |parts| && Mentions(lower, text, parts[i])
  }

  function OrZero(x: Option<real>): real {
    if x.Some? then x.value else 0.0
  }

  function Advert(job: Job): string {
    job.title + " " + OrEmpty(job.description)
  }

  // A value that the job gives and the list does not have. An empty list asks for nothing.
  predicate Unlisted(value: Option<string>, list: seq<string>) {
    list != [] && OrEmpty(value) != "" && value.value !in list
  }

  /** `_matches_rule` */
  predicate MatchesRule(lower: Casing, job: Job, rule: Rule) {
    && (OrZero(rule.minMatchScore) == 0.0 || OrZero(job.matchScore) >= OrZero(rule.minMatchScore))
    && (rule.requiredKeywords == [] || MentionsAny(lower, Advert(job), rule.requiredKeywords))
    && !MentionsAny(lower, Advert(job), rule.excludedKeywords)
    && (rule.requiredCompanies == [] || MentionsAny(lower, OrEmpty(job.companyName), rule.requiredCompanies))
    && !MentionsAny(lower, OrEmpty(job.companyName), rule.excludedCompanies)
    && !Unlisted(job.experienceLevel, rule.experienceLevels)
    && !Unlisted(job.remoteType, rule.remoteTypes)
  }

  // sorted(rules, key=priority, reverse=True), which keeps rules of one priority in their order
  function Sorted(rules: seq<Rule>): (s: seq<Rule>)
    ensures |s| == |rules|
  {
    if rules == [] then [] else Insert(rules[0], Sorted(rules[1..]))
  }

  function Insert(rule: Rule, sorted: seq<Rule>): (s: seq<Rule>)
    ensures |s| == |sorted| + 1
  {
    if sorted == [] || sorted[0].priority <= rule.priority then [rule] + sorted
    else [sorted[0]] + Insert(rule, sorted[1..])
  }

  // What a rule must be to be the one chosen: it matches, and of the matching rules none has a higher priority,
  // nor the same priority and an earlier place.
  ghost predicate IsBest(lower: Casing, job: Job, rules: seq<Rule>, k: nat) {
    && k < |rules| && MatchesRule(lower, job, rules[k])
    && (forall i :: 0 <= i < |rules| && MatchesRule(lower, job, rules[i]) ==>
          rules[i].priority < rules[k].priority || (rules[i].priority == rules[k].priority && k <= i))
  }

  ghost function Best(lower: Casing, job: Job, rules: seq<Rule>): (best: Option<nat>)
    ensures best.Some? ==> IsBest(lower, job, rules, best.value)
    ensures best.None? ==> forall i :: 0 <= i < |rules| ==> !MatchesRule(lower, job, rules[i])
  {
    if rules == [] then None
    else
      var later := Best(lower, job, rules[1..]);
      assert forall i :: 0 < i < |rules| ==> rules[i] == rules[1..][i - 1];
      if MatchesRule(lower, job, rules[0]) && (later.None? || rules[1..][later.value].priority <= rules[0].priority) then Some(0)
      else if later.Some? then Some(later.value + 1)
      else None
  }

  // The first rule of a list that matches.
  ghost function FirstMatch(lower: Casing, job: Job, rules: seq<Rule>): Option<Rule> {
    if rules == [] then None
    else if MatchesRule(lower, job, rules[0]) then Some(rules[0])
    else FirstMatch(lower, job, rules[1..])
  }

  ghost predicate Descending(rules: seq<Rule>) {
    forall i, j :: 0 <= i < j < |rules| ==> rules[i].priority >= rules[j].priority
  }

  lemma {:induction false} InsertKeepsOrder(rule: Rule, sorted: seq<Rule>)
    requires Descending(sorted)
    ensures Descending(Insert(rule, sorted))
    ensures forall r :: r in Insert(rule, sorted) <==> r == rule || r in sorted
  {
    if sorted != [] && sorted[0].priority > rule.priority {
      InsertKeepsOrder(rule, sorted[1..]);
      assert forall r :: r in sorted <==> r == sorted[0] || r in sorted[1..];
      assert forall r :: r in Insert(rule, sorted[1..]) ==> r.priority <= sorted[0].priority;
    }
  }

  lemma {:induction false} FirstAfterInsert(lower: Casing, job: Job, rule: Rule, sorted: seq<Rule>)
    requires Descending(sorted)
    ensures var first := FirstMatch(lower, job, sorted);
      FirstMatch(lower, job, Insert(rule, sorted))
      == if MatchesRule(lower, job, rule) && (first.None? || first.value.priority <= rule.priority) then Some(rule) else first
    ensures FirstMatch(lower, job, sorted).Some? ==> FirstMatch(lower, job, sorted).value in sorted
  {
    hide MatchesRule;
    if sorted != [] {
      FirstAfterInsert(lower, job, rule, sorted[1..]);
      if sorted[0].priority <= rule.priority {
        assert ([rule] + sorted)[1..] == sorted;
      } else {
        assert Insert(rule, sorted)[1..] == Insert(rule, sorted[1..]);
      }
    }
  }

  /** The first match in the sorted rules is the best of the rules as they were given. */
  lemma {:induction false} FirstMatchIsBest(lower: Casing, job: Job, rules: seq<Rule>)
    ensures Descending(Sorted(rules))
    ensures var best := Best(lower, job, rules);
      FirstMatch(lower, job, Sorted(rules)) == if best.Some? then Some(rules[best.value]) else None
  {
    hide MatchesRule;
    if rules != [] {
      FirstMatchIsBest(lower, job, rules[1..]);
      InsertKeepsOrder(rules[0], Sorted(rules[1..]));
      FirstAfterInsert(lower, job, rules[0], Sorted(rules[1..]));
    }
  }

  // The jobs that some rule matches, in their order, each with its best rule.
  ghost function Matched(lower: Casing, jobs: seq<Job>, rules: seq<Rule>): seq<(Job, Rule)> {
    if jobs == [] then []
    else
      var n := |jobs| - 1;
      var best := Best(lower, jobs[n], rules);
      Matched(lower, jobs[..n], rules) + if best.Some? then [(jobs[n], rules[best.value])] else []
  }

  method MatchJobs(lower: Casing, jobs: seq<Job>, rules: seq<Rule>) returns (matches: seq<(Job, Rule)>)
    ensures matches == Matched(lower, jobs, rules)
  {
    hide MatchesRule;
    var sortedRules := Sorted(rules);
    matches := [];
    for i := 0 to |jobs|
      invariant matches == Matched(lower, jobs[..i], rules)
    {
      assert jobs[..i + 1][..i] == jobs[..i];
      FirstMatchIsBest(lower, jobs[i], rules);
      var j := 0;
      while j < |sortedRules|
        invariant 0 <= j <= |sortedRules|
        invariant matches == Matched(lower, jobs[..i], rules)
        invariant FirstMatch(lower, jobs[i], sortedRules) == FirstMatch(lower, jobs[i], sortedRules[j..])
      {
        if MatchesRule(lower, jobs[i], sortedRules[j]) {
          matches := matches + [(jobs[i], sortedRules[j])];
          break;
        }
        j := j + 1;
      }
    }
    assert jobs[..|jobs|] == jobs;
  }

  ghost predicate Matchable(lower: Casing, job: Job, rules: seq<Rule>) {
    exists rule :: rule in rules && MatchesRule(lower, job, rule)
  }

  ghost predicate DistinctIds(jobs: seq<Job>) {
    forall i, j :: 0 <= i < j < |jobs| ==> jobs[i].id != jobs[j].id
  }

  /** Exactly the jobs that some rule matches are chosen, each under a best rule for it. */
  lemma {:induction false} MatchedAreTheMatchable(lower: Casing, jobs: seq<Job>, rules: seq<Rule>)
    ensures forall m :: m in Matched(lower, jobs, rules) ==>
      m.0 in jobs && exists k: nat :: IsBest(lower, m.0, rules, k) && rules[k] == m.1
    ensures forall job :: job in jobs && Matchable(lower, job, rules) ==>
      exists m :: m in Matched(lower, jobs, rules) && m.0 == job
  {
    hide MatchesRule;
    if jobs != [] {
      var n := |jobs| - 1;
      MatchedAreTheMatchable(lower, jobs[..n], rules);
      var best := Best(lower, jobs[n], rules);
      if best.Some? {
        assert IsBest(lower, jobs[n], rules, best.value);
        assert (jobs[n], rules[best.value]) in Matched(lower, jobs, rules);
      }
      forall job | job in jobs && Matchable(lower, job, rules)
        ensures exists m :: m in Matched(lower, jobs, rules) && m.0 == job
      {
        if job in jobs[..n] {
          var m :| m in Matched(lower, jobs[..n], rules) && m.0 == job;
          assert m in Matched(lower, jobs, rules);
        }
      }
    }
  }

  ghost predicate ChosenOnce(matches: seq<(Job, Rule)>) {
    forall i, j :: 0 <= i < j < |matches| ==> matches[i].0.id != matches[j].0.id
  }

  /** No job is chosen twice. */
  lemma {:induction false} MatchedOnce(lower: Casing, jobs: seq<Job>, rules: seq<Rule>)
    requires DistinctIds(jobs)
    ensures ChosenOnce(Matched(lower, jobs, rules))
  {
    hide MatchesRule, IsBest;
    if jobs != [] {
      var n := |jobs| - 1;
      MatchedOnce(lower, jobs[..n], rules);
      MatchedAreTheMatchable(lower, jobs[..n], rules);
      var before := Matched(lower, jobs[..n], rules);
      forall i | 0 <= i < |before| ensures before[i].0.id != jobs[n].id {
        assert before[i] in before;
        assert before[i].0 in jobs[..n];
      }
    }
  }

  lemma MentionsIff(lower: Casing, text: string, part: string)
    ensures Mentions(lower, text, part) <==>
      exists before, after :: Lower(lower, text) == before + Lower(lower, part) + after
  {
    var t, p := Lower(lower, text), Lower(lower, part);
    if Mentions(lower, text, part) {
      var i: nat :| i <= |t| && OccursAt(t, p, i);
      assert t == t[..i] + p + t[i + |p|..];
    }
    if before, after :| t == before + p + after {
      assert OccursAt(t, p, |before|);
    }
  }

  lemma MentionsAnyIff(lower: Casing, text: string, parts: seq<string>)
    ensures MentionsAny(lower, text, parts) <==> exists part :: part in parts && Mentions(lower, text, part)
  {
    if part :| part in parts && Mentions(lower, text, part) {
      var i :| 0 <= i < |parts| && parts[i] == part;
    }
  }

  // A value that a list allows: the list or the value is missing, or the value is on it.
  ghost predicate IsAllowed(value: Option<string>, list: seq<string>) {
    list == [] || value.None? || value.value == "" || value.value in list
  }

  /**
   A rule matches a job if and only if the job's score reaches its least one, title or description has one of its
   keywords and none of the excluded ones, the company one of its names and none of the excluded ones, and level and
   place of work are allowed. What the rule does not ask for does not matter.
   */
  lemma MatchesRuleIff(lower: Casing, job: Job, rule: Rule)
    ensures
      var advert := job.title + " " + if job.description.Some? then job.description.value else "";
      var company := if job.companyName.Some? then job.companyName.value else "";
      var score := if job.matchScore.Some? then job.matchScore.value else 0.0;
      MatchesRule(lower, job, rule) <==>
        && (rule.minMatchScore.Some? && rule.minMatchScore.value != 0.0 ==> score >= rule.minMatchScore.value)
        && (rule.requiredKeywords != [] ==> exists k :: k in rule.requiredKeywords && Mentions(lower, advert, k))
        && (forall k :: k in rule.excludedKeywords ==> !Mentions(lower, advert, k))
        && (rule.requiredCompanies != [] ==> exists c :: c in rule.requiredCompanies && Mentions(lower, company, c))
        && (forall c :: c in rule.excludedCompanies ==> !Mentions(lower, company, c))
        && IsAllowed(job.experienceLevel, rule.experienceLevels)
        && IsAllowed(job.remoteType, rule.remoteTypes)
  {
    hide Mentions, MentionsAny;
    var company := OrEmpty(job.companyName);
    MentionsAnyIff(lower, Advert(job), rule.requiredKeywords);
    MentionsAnyIff(lower, Advert(job), rule.excludedKeywords);
    MentionsAnyIff(lower, company, rule.requiredCompanies);
    MentionsAnyIff(lower, company, rule.excludedCompanies);
  }
}
