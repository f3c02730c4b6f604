/**
 The deduplication loop of backend/app/scraping/deduplication.py.

 The loop looks at a job through four keys only: its ATS key and URL, which may be missing, its content
 key and its fingerprint. The results hold for every type of job and every way of computing the keys;
 ScrapedJobs.dfy says how the keys of a scraped job are computed.
 */
module Deduplication {
  import opened Wrappers
  import opened Simhash

  datatype Keys = Keys(ats: Option<string>, content: string, url: Option<string>, fingerprint: Word)

  datatype Seen<J> = Seen(ats: set<string>, content: set<string>, urls: set<string>,
                          unique: seq<J>, fingerprints: seq<Word>)

  // How the loop leaves one job: kept, or dropped by one of its four checks.
  datatype Verdict = Kept | SameAts | SameContent | SameUrl | NearDuplicate

  predicate NearOneOf(w: Word, fingerprints: seq<Word>) {
    exists f :: f in fingerprints && HammingDistance(w, f) < 3
  }

  function Judge<J>(d: Keys, s: Seen<J>): Verdict {
    if d.ats.Some? && d.ats.value in s.ats then SameAts
    else if d.content in s.content then SameContent
    else if d.url.Some? && d.url.value in s.urls then SameUrl
    else if NearOneOf(d.fingerprint, s.fingerprints) then NearDuplicate
    else Kept
  }

  // Each check passed leaves its key behind, whatever happens to the job afterwards.
  function Consider<J>(job: J, d: Keys, s: Seen<J>): Seen<J> {
    var v := Judge(d, s);
    Seen(if d.ats.Some? && v != SameAts then s.ats + {d.ats.value} else s.ats,
         if v != SameAts && v != SameContent then s.content + {d.content} else s.content,
         if d.url.Some? && (v == NearDuplicate || v == Kept) then s.urls + {d.url.value} else s.urls,
         if v == Kept then s.unique + [job] else s.unique,
         if v == Kept then s.fingerprints + [d.fingerprint] else s.fingerprints)
  }

  // The loop's variables after all of `jobs`.
  ghost function After<J>(keys: J -> Keys, jobs: seq<J>): Seen<J> {
    if jobs == [] then Seen({}, {}, {}, [], [])
    else
      var job := jobs[|jobs| - 1];
      Consider(job, keys(job), After(keys, jobs[..|jobs| - 1]))
  }

  method Deduplicate<J>(keys: J -> Keys, jobs: seq<J>) returns (unique: seq<J>)
    ensures unique == After(keys, jobs).unique
  {
    var seenAts, seenContent, seenUrls := {}, {}, {};
    var fingerprints := [];
    unique := [];
    for i := 0 to |jobs|
      invariant After(keys, jobs[..i]) == Seen(seenAts, seenContent, seenUrls, unique, fingerprints)
    {
      assert jobs[..i + 1][..i] == jobs[..i];
      var d := keys(jobs[i]);
      if d.ats.Some? {
        if d.ats.value in seenAts {
          continue;
        }
        seenAts := seenAts + {d.ats.value};
      }
      if d.content in seenContent {
        continue;
      }
      seenContent := seenContent + {d.content};
      if d.url.Some? {
        if d.url.value in seenUrls {
          continue;
        }
        seenUrls := seenUrls + {d.url.value};
      }
      var isNearDup := false;
      for j := 0 to |fingerprints|
        invariant !isNearDup
        invariant !NearOneOf(d.fingerprint, fingerprints[..j])
      {
        if HammingDistance(d.fingerprint, fingerprints[j]) < 3 {
          isNearDup := true;
          break;
        }
      }
      if !isNearDup {
        assert fingerprints[..|fingerprints|] == fingerprints;
        unique := unique + [jobs[i]];
        fingerprints := fingerprints + [d.fingerprint];
      }
    }
    assert jobs[..|jobs|] == jobs;
  }

  // ----- Which jobs are kept -----

  ghost function VerdictAt<J>(keys: J -> Keys, jobs: seq<J>, i: nat): Verdict
    requires i < |jobs|
  {
    Judge(keys(jobs[i]), After(keys, jobs[..i]))
  }

  ghost predicate IsKept<J>(keys: J -> Keys, jobs: seq<J>, i: nat)
    requires i < |jobs|
  {
    VerdictAt(keys, jobs, i) == Kept
  }

  // The positions of the kept jobs, in order.
  ghost function KeptIndices<J>(keys: J -> Keys, jobs: seq<J>, n: nat): seq<nat>
    requires n <= |jobs|
  {
    if n == 0 then []
    else KeptIndices(keys, jobs, n - 1) + if IsKept(keys, jobs, n - 1) then [n - 1] else []
  }

  lemma {:induction false} KeptIndicesAreTheKept<J>(keys: J -> Keys, jobs: seq<J>, n: nat)
    requires n <= |jobs|
    ensures var kept := KeptIndices(keys, jobs, n);
      && (forall m :: 0 <= m < |kept| ==> kept[m] < n && IsKept(keys, jobs, kept[m]))
      && (forall m, m' :: 0 <= m < m' < |kept| ==> kept[m] < kept[m'])
      && (forall i :: 0 <= i < n && IsKept(keys, jobs, i) ==> i in kept)
  {
    hide IsKept;
    if n > 0 {
      KeptIndicesAreTheKept(keys, jobs, n - 1);
    }
  }

  /** The output is the kept jobs in their original order, and the fingerprints are theirs. */
  lemma {:induction false} OutputIsTheKeptJobs<J>(keys: J -> Keys, jobs: seq<J>, n: nat)
    requires n <= |jobs|
    ensures var s, kept := After(keys, jobs[..n]), KeptIndices(keys, jobs, n);
      && |s.unique| == |s.fingerprints| == |kept|
      && (forall m :: 0 <= m < |kept| ==> kept[m] < n && s.unique[m] == jobs[kept[m]])
      && (forall m :: 0 <= m < |kept| ==> s.fingerprints[m] == keys(jobs[kept[m]]).fingerprint)
  {
    hide Judge;
    if n > 0 {
      assert jobs[..n][..n - 1] == jobs[..n - 1];
      OutputIsTheKeptJobs(keys, jobs, n - 1);
    }
  }

  // ----- The three seen-sets -----

  datatype Layer = Ats | Content | Url

  ghost function KeyAt(d: Keys, layer: Layer): Option<string> {
    match layer
    case Ats => d.ats
    case Content => Some(d.content)
    case Url => d.url
  }

  ghost function SeenAt<J>(s: Seen<J>, layer: Layer): set<string> {
    match layer
    case Ats => s.ats
    case Content => s.content
    case Url => s.urls
  }

  // The verdicts under which a job has passed the check of this layer and left its key there.
  ghost predicate Passes(v: Verdict, layer: Layer) {
    match layer
    case Ats => v != SameAts
    case Content => v != SameAts && v != SameContent
    case Url => v == NearDuplicate || v == Kept
  }

  ghost predicate DroppedAt(v: Verdict, layer: Layer) {
    match layer
    case Ats => v == SameAts
    case Content => v == SameContent
    case Url => v == SameUrl
  }

  /** Job `i` is the one that put `key` into the seen-set of a layer. */
  ghost predicate Claims<J>(keys: J -> Keys, jobs: seq<J>, i: nat, layer: Layer, key: string)
    requires i < |jobs|
  {
    Passes(VerdictAt(keys, jobs, i), layer) && KeyAt(keys(jobs[i]), layer) == Some(key)
  }

  lemma SeenGrowsByClaims<J>(keys: J -> Keys, jobs: seq<J>, i: nat, layer: Layer, key: string)
    requires i < |jobs|
    ensures key in SeenAt(After(keys, jobs[..i + 1]), layer) <==>
      (key in SeenAt(After(keys, jobs[..i]), layer) || Claims(keys, jobs, i, layer, key))
    ensures Claims(keys, jobs, i, layer, key) ==> key !in SeenAt(After(keys, jobs[..i]), layer)
  {
    hide NearOneOf;
    assert jobs[..i + 1][..i] == jobs[..i];
  }

  // A key is in the seen-set just when some job claimed it, and at most one job does.
  lemma {:induction false} SeenIffClaimed<J>(keys: J -> Keys, jobs: seq<J>, n: nat, layer: Layer, key: string)
    requires n <= |jobs|
    ensures key in SeenAt(After(keys, jobs[..n]), layer) <==>
      exists i :: 0 <= i < n && Claims(keys, jobs, i, layer, key)
    ensures forall i, j | 0 <= i < n && 0 <= j < n ::
      Claims(keys, jobs, i, layer, key) && Claims(keys, jobs, j, layer, key) ==> i == j
  {
    hide Claims, After, SeenAt;
    if n > 0 {
      SeenGrowsByClaims(keys, jobs, n - 1, layer, key);
      SeenIffClaimed(keys, jobs, n - 1, layer, key);
    } else {
      NothingSeenAtFirst(keys, jobs, layer);
    }
  }

  lemma NothingSeenAtFirst<J>(keys: J -> Keys, jobs: seq<J>, layer: Layer)
    ensures SeenAt(After(keys, jobs[..0]), layer) == {}
  {
  }

  // ----- Coverage: why a dropped job may be dropped -----

  ghost predicate Related(a: Keys, b: Keys) {
    || (a.ats.Some? && a.ats == b.ats)
    || a.content == b.content
    || (a.url.Some? && a.url == b.url)
    || HammingDistance(a.fingerprint, b.fingerprint) < 3
  }

  // Strictly earlier jobs from `i` down to a kept one, each sharing a key with its neighbour.
  ghost predicate IsChain<J>(keys: J -> Keys, jobs: seq<J>, i: nat, path: seq<nat>) {
    && path != [] && path[0] == i
    && (forall m :: 0 <= m < |path| ==> path[m] < |jobs|)
    && (forall m :: 0 <= m < |path| - 1 ==> path[m + 1] < path[m])
    && (forall m :: 0 <= m < |path| - 1 ==> Related(keys(jobs[path[m]]), keys(jobs[path[m + 1]])))
    && IsKept(keys, jobs, path[|path| - 1])
  }

  lemma DroppedForAnEarlierJob<J>(keys: J -> Keys, jobs: seq<J>, i: nat) returns (j: nat)
    requires i < |jobs| && !IsKept(keys, jobs, i)
    ensures j < i && Related(keys(jobs[i]), keys(jobs[j]))
  {
    var d := keys(jobs[i]);
    match VerdictAt(keys, jobs, i)
    case SameAts =>
      SeenIffClaimed(keys, jobs, i, Ats, d.ats.value);
      j :| 0 <= j < i && Claims(keys, jobs, j, Ats, d.ats.value);
    case SameContent =>
      SeenIffClaimed(keys, jobs, i, Content, d.content);
      j :| 0 <= j < i && Claims(keys, jobs, j, Content, d.content);
    case SameUrl =>
      SeenIffClaimed(keys, jobs, i, Url, d.url.value);
      j :| 0 <= j < i && Claims(keys, jobs, j, Url, d.url.value);
    case NearDuplicate =>
      j := NearKeptJob(keys, jobs, i);
  }

  lemma NearKeptJob<J>(keys: J -> Keys, jobs: seq<J>, i: nat) returns (j: nat)
    requires i < |jobs| && VerdictAt(keys, jobs, i) == NearDuplicate
    ensures j < i && IsKept(keys, jobs, j) && Related(keys(jobs[i]), keys(jobs[j]))
  {
    OutputIsTheKeptJobs(keys, jobs, i);
    KeptIndicesAreTheKept(keys, jobs, i);
    var s, kept := After(keys, jobs[..i]), KeptIndices(keys, jobs, i);
    var f :| f in s.fingerprints && HammingDistance(keys(jobs[i]).fingerprint, f) < 3;
    var m :| 0 <= m < |s.fingerprints| && s.fingerprints[m] == f;
    j := kept[m];
  }

  /** Every job is kept, or reaches a kept job through strictly earlier jobs that share keys pairwise. */
  lemma {:induction false} EveryJobIsCovered<J>(keys: J -> Keys, jobs: seq<J>, i: nat)
    requires i < |jobs|
    ensures exists path :: IsChain(keys, jobs, i, path)
  {
    hide IsKept, Related;
    if IsKept(keys, jobs, i) {
      assert IsChain(keys, jobs, i, [i]);
    } else {
      var j := DroppedForAnEarlierJob(keys, jobs, i);
      EveryJobIsCovered(keys, jobs, j);
      var path :| IsChain(keys, jobs, j, path);
      assert IsChain(keys, jobs, i, [i] + path);
    }
  }

  /** A job dropped on a key shares that key with a kept job just when the job that claimed the key is kept. */
  lemma SharesKeyWithKeptIffClaimantKept<J>(keys: J -> Keys, jobs: seq<J>, i: nat, layer: Layer, key: string)
    requires i < |jobs| && DroppedAt(VerdictAt(keys, jobs, i), layer)
    requires KeyAt(keys(jobs[i]), layer) == Some(key)
    ensures exists j :: 0 <= j < i && Claims(keys, jobs, j, layer, key)
    ensures forall j :: 0 <= j < i && Claims(keys, jobs, j, layer, key) ==>
      (IsKept(keys, jobs, j) <==>
       exists k :: 0 <= k < i && IsKept(keys, jobs, k) && KeyAt(keys(jobs[k]), layer) == Some(key))
  {
    SeenIffClaimed(keys, jobs, i, layer, key);
    forall k | 0 <= k < i && IsKept(keys, jobs, k) && KeyAt(keys(jobs[k]), layer) == Some(key)
      ensures Claims(keys, jobs, k, layer, key)
    {
    }
  }

  // ----- The result has no duplicates, and a second pass changes nothing -----

  ghost predicate PairwiseUnrelated<J>(keys: J -> Keys, jobs: seq<J>) {
    forall i, j :: 0 <= i < j < |jobs| ==> !Related(keys(jobs[i]), keys(jobs[j]))
  }

  lemma KeptJobsUnrelated<J>(keys: J -> Keys, jobs: seq<J>, i: nat, j: nat)
    requires i < j < |jobs| && IsKept(keys, jobs, i) && IsKept(keys, jobs, j)
    ensures !Related(keys(jobs[i]), keys(jobs[j]))
  {
    var a, b := keys(jobs[i]), keys(jobs[j]);
    forall layer: Layer, key | KeyAt(a, layer) == Some(key)
      ensures KeyAt(b, layer) != Some(key)
    {
      SeenIffClaimed(keys, jobs, j, layer, key);
      assert Claims(keys, jobs, i, layer, key);
    }
    assert KeyAt(a, Content) == Some(a.content) && KeyAt(b, Content) == Some(b.content);
    assert a.ats == KeyAt(a, Ats) && b.ats == KeyAt(b, Ats);
    assert a.url == KeyAt(a, Url) && b.url == KeyAt(b, Url);
    OutputIsTheKeptJobs(keys, jobs, j);
    KeptIndicesAreTheKept(keys, jobs, j);
    var s, kept := After(keys, jobs[..j]), KeptIndices(keys, jobs, j);
    var m :| 0 <= m < |kept| && kept[m] == i;
    assert s.fingerprints[m] == a.fingerprint;
    HammingIsAMetric(a.fingerprint, b.fingerprint, b.fingerprint);
  }

  /** Two jobs of the result never share an ATS key, a content key or a URL, and differ in at least three bits. */
  lemma ResultIsPairwiseUnrelated<J>(keys: J -> Keys, jobs: seq<J>)
    ensures PairwiseUnrelated(keys, After(keys, jobs).unique)
  {
    OutputIsTheKeptJobs(keys, jobs, |jobs|);
    KeptIndicesAreTheKept(keys, jobs, |jobs|);
    assert jobs[..|jobs|] == jobs;
    var unique, kept := After(keys, jobs).unique, KeptIndices(keys, jobs, |jobs|);
    forall m, m' | 0 <= m < m' < |unique|
      ensures !Related(keys(unique[m]), keys(unique[m']))
    {
      KeptJobsUnrelated(keys, jobs, kept[m], kept[m']);
    }
  }

  lemma UnrelatedJobIsKept<J>(keys: J -> Keys, jobs: seq<J>, i: nat)
    requires i < |jobs| && forall j :: 0 <= j < i ==> !Related(keys(jobs[j]), keys(jobs[i]))
    ensures IsKept(keys, jobs, i)
  {
    if !IsKept(keys, jobs, i) {
      var j := DroppedForAnEarlierJob(keys, jobs, i);
      var a, b := keys(jobs[j]).fingerprint, keys(jobs[i]).fingerprint;
      HammingIsAMetric(a, b, b);
    }
  }

  /** Deduplication leaves a list alone exactly when no two of its jobs are related. */
  lemma FixedPointIffUnrelated<J>(keys: J -> Keys, jobs: seq<J>)
    ensures After(keys, jobs).unique == jobs <==> PairwiseUnrelated(keys, jobs)
  {
    ResultIsPairwiseUnrelated(keys, jobs);
    if PairwiseUnrelated(keys, jobs) {
      AllKept(keys, jobs, |jobs|);
      assert jobs[..|jobs|] == jobs;
    }
  }

  lemma {:induction false} AllKept<J>(keys: J -> Keys, jobs: seq<J>, n: nat)
    requires n <= |jobs| && PairwiseUnrelated(keys, jobs)
    ensures After(keys, jobs[..n]).unique == jobs[..n]
  {
    if n > 0 {
      assert jobs[..n][..n - 1] == jobs[..n - 1];
      UnrelatedJobIsKept(keys, jobs, n - 1);
      AllKept(keys, jobs, n - 1);
      assert jobs[..n] == jobs[..n - 1] + [jobs[n - 1]];
    }
  }

  /** Deduplicating twice is deduplicating once. */
  lemma DeduplicationIsIdempotent<J>(keys: J -> Keys, jobs: seq<J>)
    ensures After(keys, After(keys, jobs).unique).unique == After(keys, jobs).unique
  {
    ResultIsPairwiseUnrelated(keys, jobs);
    FixedPointIffUnrelated(keys, After(keys, jobs).unique);
  }

  // ----- When every dropped job matches a kept one -----

  ghost predicate DropsMatchKept<J>(keys: J -> Keys, jobs: seq<J>) {
    forall i :: 0 <= i < |jobs| && !IsKept(keys, jobs, i) ==>
      exists k :: 0 <= k < i && IsKept(keys, jobs, k) && Related(keys(jobs[i]), keys(jobs[k]))
  }

  predicate SharesAts(a: Keys, b: Keys) {
    a.ats.Some? && a.ats == b.ats
  }

  // After `a`, job `b` is dropped, but not before it has left a key behind that `c`, unrelated to `a`, then meets.
  ghost predicate Hides(a: Keys, b: Keys, c: Keys) {
    && Related(a, b) && !Related(a, c)
    && (|| SharesAts(b, c)
        || (b.content == c.content && !SharesAts(a, b))
        || (b.url.Some? && b.url == c.url && !SharesAts(a, b) && a.content != b.content))
  }

  lemma RelatedIsSymmetric(a: Keys, b: Keys)
    ensures Related(a, b) <==> Related(b, a)
  {
    HammingIsAMetric(a.fingerprint, b.fingerprint, b.fingerprint);
  }

  // A job that came after a kept one shares no key with it at any layer it has passed.
  lemma PassedApartFromKept<J>(keys: J -> Keys, jobs: seq<J>, k: nat, j: nat, layer: Layer, key: string)
    requires k < j < |jobs| && IsKept(keys, jobs, k) && Claims(keys, jobs, j, layer, key)
    ensures KeyAt(keys(jobs[k]), layer) != Some(key)
  {
    if KeyAt(keys(jobs[k]), layer) == Some(key) {
      assert Claims(keys, jobs, k, layer, key);
      SeenIffClaimed(keys, jobs, j + 1, layer, key);
    }
  }

  // The job that claimed the key for which job `i` is dropped.
  lemma Claimant<J>(keys: J -> Keys, jobs: seq<J>, i: nat, layer: Layer) returns (j: nat, key: string)
    requires i < |jobs| && DroppedAt(VerdictAt(keys, jobs, i), layer)
    ensures j < i && KeyAt(keys(jobs[i]), layer) == Some(key) && Claims(keys, jobs, j, layer, key)
  {
    assert KeyAt(keys(jobs[i]), layer).Some? && KeyAt(keys(jobs[i]), layer).value in SeenAt(After(keys, jobs[..i]), layer);
    key := KeyAt(keys(jobs[i]), layer).value;
    SeenIffClaimed(keys, jobs, i, layer, key);
    j :| 0 <= j < i && Claims(keys, jobs, j, layer, key);
  }

  // A job dropped for the key of a dropped job that matches a kept one: it matches that one too, or is hidden.
  lemma MatchesOrIsHidden<J>(keys: J -> Keys, jobs: seq<J>, k: nat, j: nat, i: nat, layer: Layer, key: string)
    requires k < j < i < |jobs| && IsKept(keys, jobs, k) && Related(keys(jobs[j]), keys(jobs[k]))
    requires Claims(keys, jobs, j, layer, key) && KeyAt(keys(jobs[i]), layer) == Some(key)
    ensures Related(keys(jobs[i]), keys(jobs[k])) || Hides(keys(jobs[k]), keys(jobs[j]), keys(jobs[i]))
  {
    hide IsKept, VerdictAt;
    var a, b, c := keys(jobs[k]), keys(jobs[j]), keys(jobs[i]);
    RelatedIsSymmetric(a, b);
    RelatedIsSymmetric(a, c);
    if layer != Ats && b.ats.Some? {
      assert Claims(keys, jobs, j, Ats, b.ats.value);
      PassedApartFromKept(keys, jobs, k, j, Ats, b.ats.value);
    }
    if layer == Url {
      assert Claims(keys, jobs, j, Content, b.content);
      PassedApartFromKept(keys, jobs, k, j, Content, b.content);
    }
  }

  // In a list without a hiding triple, every dropped job matches an earlier kept one.
  lemma {:induction false} DroppedJobMatchesKept<J>(keys: J -> Keys, jobs: seq<J>, i: nat) returns (k: nat)
    requires i < |jobs| && !IsKept(keys, jobs, i)
    requires forall x, y, z :: 0 <= x < y < z < |jobs| ==> !Hides(keys(jobs[x]), keys(jobs[y]), keys(jobs[z]))
    ensures k < i && IsKept(keys, jobs, k) && Related(keys(jobs[i]), keys(jobs[k]))
  {
    if VerdictAt(keys, jobs, i) == NearDuplicate {
      k := NearKeptJob(keys, jobs, i);
      return;
    }
    var layer := match VerdictAt(keys, jobs, i) case SameAts => Ats case SameContent => Content case _ => Url;
    var j, key := Claimant(keys, jobs, i, layer);
    if IsKept(keys, jobs, j) {
      k := j;
    } else {
      k := DroppedJobMatchesKept(keys, jobs, j);
      MatchesOrIsHidden(keys, jobs, k, j, i, layer, key);
    }
  }

  lemma HidingTripleFails<J>(keys: J -> Keys, a: J, b: J, c: J)
    requires Hides(keys(a), keys(b), keys(c))
    ensures !DropsMatchKept(keys, [a, b, c])
    ensures IsKept(keys, [a, b, c], 0) && !IsKept(keys, [a, b, c], 1) && !IsKept(keys, [a, b, c], 2)
  {
    var jobs := [a, b, c];
    assert jobs[..0] == [] && jobs[..1] == [a] && jobs[..2] == [a, b] && [a][..0] == [] && [a, b][..1] == [a];
    assert After(keys, []) == Seen({}, {}, {}, [], []);
    assert IsKept(keys, jobs, 0);
    if IsKept(keys, jobs, 1) {
      KeptJobsUnrelated(keys, jobs, 0, 1);
    }
    var layer := if SharesAts(keys(b), keys(c)) then Ats
                 else if keys(b).content == keys(c).content && !SharesAts(keys(a), keys(b)) then Content else Url;
    var key := KeyAt(keys(c), layer).value;
    assert Claims(keys, jobs, 1, layer, key);
    SeenIffClaimed(keys, jobs, 2, layer, key);
    assert !IsKept(keys, jobs, 2);
    RelatedIsSymmetric(keys(a), keys(c));
  }

  lemma NothingHiddenMatches<J>(keys: J -> Keys, jobs: seq<J>)
    requires forall x, y, z :: 0 <= x < y < z < |jobs| ==> !Hides(keys(jobs[x]), keys(jobs[y]), keys(jobs[z]))
    ensures DropsMatchKept(keys, jobs)
  {
    hide IsKept, Hides, Related;
    forall i | 0 <= i < |jobs| && !IsKept(keys, jobs, i)
      ensures exists k :: 0 <= k < i && IsKept(keys, jobs, k) && Related(keys(jobs[i]), keys(jobs[k]))
    {
      var k := DroppedJobMatchesKept(keys, jobs, i);
    }
  }

  ghost predicate IsOver<J(!new)>(pool: J -> bool, jobs: seq<J>) {
    forall job :: job in jobs ==> pool(job)
  }

  ghost predicate NothingHides<J(!new)>(keys: J -> Keys, pool: J -> bool) {
    forall a, b, c :: pool(a) && pool(b) && pool(c) ==> !Hides(keys(a), keys(b), keys(c))
  }

  /**
   When "every dropped job duplicates a kept one" is true: in every list over a pool of jobs it is, if and only if no
   three jobs of the pool are such that the second hides the third from the first.
   */
  lemma DropsMatchKeptIffNothingHides<J(!new)>(keys: J -> Keys, pool: J -> bool)
    ensures (forall jobs :: IsOver(pool, jobs) ==> DropsMatchKept(keys, jobs)) <==> NothingHides(keys, pool)
  {
    hide DropsMatchKept, Hides;
    forall jobs | NothingHides(keys, pool) && IsOver(pool, jobs) ensures DropsMatchKept(keys, jobs) {
      NothingHiddenMatches(keys, jobs);
    }
    forall a, b, c | pool(a) && pool(b) && pool(c) && Hides(keys(a), keys(b), keys(c))
      ensures exists jobs :: IsOver(pool, jobs) && !DropsMatchKept(keys, jobs)
    {
      HidingTripleFails(keys, a, b, c);
      assert IsOver(pool, [a, b, c]);
    }
  }
}
