/**
 How backend/app/scraping/deduplication.py computes the four keys of a scraped job.

 Unseen, and so inputs: Unicode folding, the two digests, URL normalisation, the low 64 digest bits of a
 token, lower-casing, and the ATS identity that is read off the payload and its URL.
 */
module ScrapedJobs {
  import opened Wrappers
  import opened Text
  import opened Normalization
  import Levels
  import opened Simhash
  import opened Deduplication

  datatype ScrapedJob = ScrapedJob(title: string, companyName: string, sourceUrl: Option<string>,
                                   description: Option<string>)

  datatype AtsIdentity = AtsIdentity(scope: Option<string>, provider: Option<string>, jobId: Option<string>)

  datatype Environment = Environment(
    unicode: Unicode, lower: string -> string, sha256: string -> string, md5: string -> string,
    tokenHash: TokenHash, normalizeUrl: string -> string, identify: ScrapedJob -> AtsIdentity)

  function KeyText(scope: string, provider: string, jobId: string): string {
    scope + "|" + (provider + "|" + jobId)
  }

  /** `compute_ats_composite_key`, before hashing: the text that names an ATS job. */
  function AtsText(env: Environment, id: AtsIdentity): Option<string> {
    if OrEmpty(id.provider) == "" || OrEmpty(id.jobId) == "" then None
    else
      var scope := env.lower(Strip(OrEmpty(id.scope)));
      var provider := env.lower(Strip(id.provider.value));
      var jobId := Strip(id.jobId.value);
      if provider == "" || jobId == "" then None
      else Some(KeyText(scope, provider, jobId))
  }

  function AtsKey(env: Environment, id: AtsIdentity): Option<string> {
    match AtsText(env, id)
    case None => None
    case Some(text) => Some(env.sha256(text))
  }

  // The words the fingerprint is made of: title, company and the first 500 characters of the description.
  function Tokens(env: Environment, job: ScrapedJob): seq<string> {
    var description := OrEmpty(job.description);
    var opening := if |description| <= 500 then description else description[..500];
    SplitWords(env.lower(job.title + " " + job.companyName + " " + opening))
  }

  ghost function KeysOf(env: Environment, job: ScrapedJob): Keys {
    Keys(AtsKey(env, env.identify(job)),
         env.md5(ContentString(env.unicode, job.title, job.companyName)),
         if OrEmpty(job.sourceUrl) == "" then None else Some(env.normalizeUrl(job.sourceUrl.value)),
         Fingerprint(env.tokenHash, Tokens(env, job)))
  }

  ghost predicate Injective(digest: string -> string) {
    forall s, t :: digest(s) == digest(t) ==> s == t
  }

  ghost predicate SameTitleAndCompany(env: Environment, a: ScrapedJob, b: ScrapedJob) {
    && StrippedTitle(env.unicode, a.title) == StrippedTitle(env.unicode, b.title)
    && Company(env.unicode, a.companyName) == Company(env.unicode, b.companyName)
  }

  /** Equal content keys mean equal normalised titles and equal normalised companies, and conversely. */
  lemma SameContentKey(env: Environment, a: ScrapedJob, b: ScrapedJob)
    requires Injective(env.md5)
    ensures KeysOf(env, a).content == KeysOf(env, b).content <==> SameTitleAndCompany(env, a, b)
  {
    hide ContentString, StrippedTitle, Company, AtsKey, Fingerprint, Tokens;
    ContentStringIsInjective(env.unicode, a.title, a.companyName, b.title, b.companyName);
  }

  /** An ATS key is missing just when the provider or the job id is blank. */
  lemma AtsKeyPresent(env: Environment, id: AtsIdentity)
    ensures AtsKey(env, id).None? <==>
      (|| OrEmpty(id.provider) == "" || env.lower(Strip(OrEmpty(id.provider))) == ""
       || Strip(OrEmpty(id.jobId)) == "")
  {
  }

  ghost predicate NoBars(env: Environment, id: AtsIdentity) {
    '|' !in env.lower(Strip(OrEmpty(id.scope))) && '|' !in env.lower(Strip(OrEmpty(id.provider)))
  }

  /** Without '|' in scope and provider, equal ATS keys mean the same scope, provider and job id. */
  lemma SameAtsKey(env: Environment, a: AtsIdentity, b: AtsIdentity)
    requires Injective(env.sha256) && NoBars(env, a) && NoBars(env, b)
    requires AtsKey(env, a).Some? && AtsKey(env, b).Some?
    ensures AtsKey(env, a) == AtsKey(env, b) <==>
      (&& env.lower(Strip(OrEmpty(a.scope))) == env.lower(Strip(OrEmpty(b.scope)))
       && env.lower(Strip(OrEmpty(a.provider))) == env.lower(Strip(OrEmpty(b.provider)))
       && Strip(OrEmpty(a.jobId)) == Strip(OrEmpty(b.jobId)))
  {
    hide Strip;
    if AtsKey(env, a) == AtsKey(env, b) {
      var sa, sb := env.lower(Strip(OrEmpty(a.scope))), env.lower(Strip(OrEmpty(b.scope)));
      var pa, pb := env.lower(Strip(a.provider.value)), env.lower(Strip(b.provider.value));
      var ja, jb := Strip(a.jobId.value), Strip(b.jobId.value);
      CutAtFirst('|', sa, pa + "|" + ja, sb, pb + "|" + jb);
      CutAtFirst('|', pa, ja, pb, jb);
    }
  }

  // Other parts, the last two of which are not empty, that make the same text.
  ghost predicate IsOtherReading(s: string, p: string, j: string, s': string, p': string, j': string) {
    && p' != "" && j' != "" && (s' != s || p' != p || j' != j)
    && KeyText(s', p', j') == KeyText(s, p, j)
  }

  // Every other reading cuts the text at two bars, other ones than those between the parts.
  lemma OtherReadingNeedsBars(s: string, p: string, j: string, s': string, p': string, j': string)
    requires p != "" && j != "" && IsOtherReading(s, p, j, s', p', j')
    ensures '|' in s || ('|' in p && p != "|") || '|' in j[..|j| - 1]
  {
    var t := KeyText(s, p, j);
    KeyTextParts(s, p, j);
    KeyTextParts(s', p', j');
    hide KeyText;
    var x, y, x', y' := |s|, |s| + 1 + |p|, |s'|, |s'| + 1 + |p'|;
    assert x' < x ==> s[x'] == '|';
    assert y' > y ==> j[..|j| - 1][y' - y - 1] == j[y' - y - 1] == '|';
    assert x < x' < y ==> p[x' - x - 1] == '|';
    assert x < y' < y ==> p[y' - x - 1] == '|';
  }

  lemma KeyTextParts(s: string, p: string, j: string)
    ensures var t, x, y := KeyText(s, p, j), |s|, |s| + 1 + |p|;
      && |t| == y + 1 + |j| && t[x] == '|' && t[y] == '|'
      && t[..x] == s && t[x + 1..y] == p && t[y + 1..] == j
      && (forall k :: 0 <= k < x ==> t[k] == s[k])
      && (forall k :: x < k < y ==> t[k] == p[k - x - 1])
      && (forall k :: y < k < |t| ==> t[k] == j[k - y - 1])
  {
  }

  lemma BarsGiveAnotherReading(s: string, p: string, j: string) returns (s': string, p': string, j': string)
    requires p != "" && j != ""
    requires '|' in s || ('|' in p && p != "|") || '|' in j[..|j| - 1]
    ensures IsOtherReading(s, p, j, s', p', j')
  {
    var t := KeyText(s, p, j);
    if '|' in s {
      var k :| 0 <= k < |s| && s[k] == '|';
      s', p', j' := s[..k], s[k + 1..] + "|" + p, j;
      assert s == s[..k] + "|" + s[k + 1..];
    } else if '|' in p && p != "|" {
      var k :| 0 <= k < |p| && p[k] == '|';
      assert p == p[..k] + "|" + p[k + 1..];
      if k > 0 {
        s', p', j' := s, p[..k], p[k + 1..] + "|" + j;
      } else {
        s', p', j' := s + "|" + p[..k], p[k + 1..], j;
      }
    } else {
      var k :| 0 <= k < |j| - 1 && j[k] == '|';
      assert j == j[..k] + "|" + j[k + 1..];
      s', p', j' := s, p + "|" + j[..k], j[k + 1..];
    }
  }

  /**
   The text of a key has another reading if and only if there is a '|' in the scope, in the provider (unless that is
   all of it), or in the job id before its last character.
   */
  lemma KeyTextIsAmbiguousIff(s: string, p: string, j: string)
    requires p != "" && j != ""
    ensures (exists s', p', j' :: IsOtherReading(s, p, j, s', p', j')) <==>
      '|' in s || ('|' in p && p != "|") || '|' in j[..|j| - 1]
  {
    hide IsOtherReading;
    if s', p', j' :| IsOtherReading(s, p, j, s', p', j') {
      OtherReadingNeedsBars(s, p, j, s', p', j');
    } else if '|' in s || ('|' in p && p != "|") || '|' in j[..|j| - 1] {
      var s', p', j' := BarsGiveAnotherReading(s, p, j);
    }
  }

  /** With a '|' in the scope or the provider two different identities can share a key. */
  lemma BarsMakeAtsKeysAmbiguous(env: Environment)
    requires forall s :: s in {"a", "a|b", "b|c", "c"} ==> env.lower(s) == s
    ensures AtsKey(env, AtsIdentity(Some("a|b"), Some("c"), Some("1")))
         == AtsKey(env, AtsIdentity(Some("a"), Some("b|c"), Some("1")))
  {
    assert Strip("a|b") == "a|b" && Strip("b|c") == "b|c" && Strip("1") == "1" && Strip("a") == "a" && Strip("c") == "c";
    assert "a|b" + "|" + ("c" + "|" + "1") == "a" + "|" + ("b|c" + "|" + "1");
  }

  /** A job dropped on its content has an earlier namesake, and no two jobs of the result are namesakes. */
  lemma NamesakesAreDropped(env: Environment, keys: ScrapedJob -> Keys, jobs: seq<ScrapedJob>)
    requires Injective(env.md5) && forall job :: keys(job) == KeysOf(env, job)
    ensures forall i :: 0 <= i < |jobs| && VerdictAt(keys, jobs, i) == SameContent ==>
      exists j :: 0 <= j < i && SameTitleAndCompany(env, jobs[i], jobs[j])
    ensures var unique := After(keys, jobs).unique;
      forall m, n :: 0 <= m < n < |unique| ==> !SameTitleAndCompany(env, unique[m], unique[n])
  {
    hide KeysOf;
    forall i | 0 <= i < |jobs| && VerdictAt(keys, jobs, i) == SameContent
      ensures exists j :: 0 <= j < i && SameTitleAndCompany(env, jobs[i], jobs[j])
    {
      var content := keys(jobs[i]).content;
      SeenIffClaimed(keys, jobs, i, Content, content);
      var j :| 0 <= j < i && Claims(keys, jobs, j, Content, content);
      SameContentKey(env, jobs[i], jobs[j]);
    }
    var unique := After(keys, jobs).unique;
    ResultIsPairwiseUnrelated(keys, jobs);
    forall m, n | 0 <= m < n < |unique|
      ensures !SameTitleAndCompany(env, unique[m], unique[n])
    {
      SameContentKey(env, unique[m], unique[n]);
    }
  }

  // ----- What the keys look at -----

  /**
   The fingerprint is that of the words of title, company and the first 500 characters of the description; there is a
   URL key just when there is a URL, and it is the normalised one.
   */
  lemma FingerprintAndUrl(env: Environment, job: ScrapedJob)
    requires forall x, y :: env.lower(x + " " + y) == env.lower(x) + " " + env.lower(y)
    ensures var text := if job.description.Some? then job.description.value else "";
      var opening := if |text| > 500 then text[..500] else text;
      KeysOf(env, job).fingerprint == Fingerprint(env.tokenHash,
        SplitWords(env.lower(job.title)) + SplitWords(env.lower(job.companyName)) + SplitWords(env.lower(opening)))
    ensures KeysOf(env, job).url ==
      match job.sourceUrl
      case None => None
      case Some(url) => if url == "" then None else Some(env.normalizeUrl(url))
  {
    hide AtsKey, Fingerprint, ContentString, SplitWords;
    var text := OrEmpty(job.description);
    var opening := if |text| <= 500 then text else text[..500];
    assert env.lower(job.title + " " + job.companyName + " " + opening)
        == env.lower(job.title + " " + job.companyName) + " " + env.lower(opening);
    SplitAtSpace(env.lower(job.title) + " " + env.lower(job.companyName), env.lower(opening));
    SplitAtSpace(env.lower(job.title), env.lower(job.companyName));
  }

  /**
   A level in a title does not matter to the content key, unless it parts two words that make another level: "senior
   nurse" and "nurse" have the same key.
   */
  lemma LevelsDoNotMatter(env: Environment, a: ScrapedJob, b: ScrapedJob, xs: seq<string>, level: string, ys: seq<string>)
    requires Injective(env.md5) && Levels.ReadsWords(env.unicode)
    requires Levels.IsLevel(level) && a.companyName == b.companyName
    requires TitleWords(env.unicode, a.title) == xs + [level] + ys && TitleWords(env.unicode, b.title) == xs + ys
    ensures KeysOf(env, a).content == KeysOf(env, b).content <==> !Levels.MeetAsPair(env.unicode, xs, ys)
  {
    hide KeysOf, StrippedTitle, Company, Levels.IsLevel, Levels.MeetAsPair, TitleWords;
    SameContentKey(env, a, b);
    Levels.InsertedLevelIsStripped(env.unicode, a.title, b.title, xs, level, ys);
  }

  /** Of two such jobs, whatever came between them, the later one is not kept. */
  lemma SeniorDuplicateIsDropped(env: Environment, keys: ScrapedJob -> Keys, jobs: seq<ScrapedJob>, i: nat, j: nat)
    requires forall job :: keys(job) == KeysOf(env, job)
    requires i < j < |jobs| && KeysOf(env, jobs[i]).content == KeysOf(env, jobs[j]).content
    ensures !(IsKept(keys, jobs, i) && IsKept(keys, jobs, j))
  {
    hide KeysOf, IsKept;
    if IsKept(keys, jobs, i) && IsKept(keys, jobs, j) {
      KeptJobsUnrelated(keys, jobs, i, j);
    }
  }

  // ----- A dropped job that matches no kept one -----

  function PlainHash(token: string): Word {
    seq(BITS, _ => token == "z")
  }

  // Nothing is folded, normalised or digested, no job has an ATS identity, and only the token "z" has set bits.
  function PlainEnvironment(): Environment {
    Environment(Unicode(s => s, _ => true), s => s, s => s, s => s, PlainHash, s => s, _ => AtsIdentity(None, None, None))
  }

  lemma {:induction false} AllOnes(w: seq<bool>)
    requires forall i :: 0 <= i < |w| ==> w[i]
    ensures Ones(w) == |w|
  {
    if w != [] {
      AllOnes(w[..|w| - 1]);
    }
  }

  lemma PlainCompanies()
    ensures var u := PlainEnvironment().unicode;
      Company(u, "a") != Company(u, "") && StrippedTitle(u, "") == ""
  {
    var u := PlainEnvironment().unicode;
    assert "a"[1..] == "";
    assert Depunctuate("a") == "a";
    assert CollapseSpaces("a") == "a" by {
      assert CollapseSpaces("") == "";
    }
    assert Clean(u, "a") == "a";
    assert LeadingWord("") == 0 && LeadingWord("a") == 1;
    assert SplitWords("a") == ["a"] by {
      assert "a"[..1] == "a" && SplitWords("") == [];
    }
    assert WithoutSuffixes(["a"]) == ["a"];
  }

  lemma PlainTokens()
    ensures SplitWords("  ") == [] && SplitWords("  z") == ["z"] && SplitWords(" a ") == ["a"]
  {
    assert "  "[1..] == " " && " "[1..] == "" && SplitWords("") == [] && SplitWords(" ") == [];
    assert "  z"[1..] == " z" && " z"[1..] == "z" && " a "[1..] == "a ";
    SplitFirstWord("z", "");
    SplitFirstWord("a", " ");
    assert "z" + "" == "z" && "a" + " " == "a ";
  }

  ghost function PlainKeys(): ScrapedJob -> Keys {
    job => KeysOf(PlainEnvironment(), job)
  }

  lemma PlainFingerprints()
    ensures Fingerprint(PlainHash, ["a"]) == Fingerprint(PlainHash, []) == seq(BITS, _ => false)
    ensures Fingerprint(PlainHash, ["z"]) == seq(BITS, _ => true)
  {
    assert ["a"][..0] == [] && ["z"][..0] == [];
    forall i | 0 <= i < BITS
      ensures Counter(PlainHash, ["a"], i) == -1 && Counter(PlainHash, ["z"], i) == 1
    {
      assert !PlainHash("a")[i] && PlainHash("z")[i];
    }
  }

  /**
   "Every dropped job duplicates a kept one" is false: the second job goes by its URL but leaves its title and company
   behind, for which the third goes; and the third resembles the first, the only one kept, in nothing.
   */
  lemma ADroppedJobMayMatchNoKeptJob()
    ensures var a := ScrapedJob("", "a", Some("u"), None);
      var b := ScrapedJob("", "", Some("u"), None);
      var c := ScrapedJob("", "", None, Some("z"));
      && Hides(PlainKeys()(a), PlainKeys()(b), PlainKeys()(c))
      && !DropsMatchKept(PlainKeys(), [a, b, c])
      && After(PlainKeys(), [a, b, c]).unique == [a]
  {
    hide StrippedTitle, Company, SplitWords, Strip, Fingerprint, HammingDistance;
    var env := PlainEnvironment();
    var a := ScrapedJob("", "a", Some("u"), None);
    var b := ScrapedJob("", "", Some("u"), None);
    var c := ScrapedJob("", "", None, Some("z"));
    PlainCompanies();
    PlainTokens();
    PlainFingerprints();
    assert Tokens(env, a) == ["a"] by {
      assert "" + " " + "a" + " " + "" == " a ";
    }
    assert Tokens(env, b) == [] by {
      assert "" + " " + "" + " " + "" == "  ";
    }
    assert Tokens(env, c) == ["z"] by {
      assert "" + " " + "" + " " + "z" == "  z";
    }
    Opposites();
    ContentStringIsInjective(env.unicode, a.title, a.companyName, c.title, c.companyName);
    HidingTripleFails(PlainKeys(), a, b, c);
  }

  lemma Opposites()
    ensures HammingDistance(seq(BITS, _ => false), seq(BITS, _ => true)) == BITS
    ensures HammingDistance(seq(BITS, _ => false), seq(BITS, _ => false)) == 0
  {
    var low: Word, high: Word := seq(BITS, _ => false), seq(BITS, _ => true);
    AllOnes(Xor(low, high));
    HammingIsAMetric(low, low, low);
  }
}
