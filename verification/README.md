# JobRadar: verified models

Dafny models of the algorithms and protocols in the JobRadar backend, one module per component, and proofs of
what they keep over every input, run or interleaving. `dafny verify dfyconfig.toml` checks the project (Dafny 4.11).

Code that updates fields step by step is a class or a method with a loop, proved equal to a specification function;
the properties are lemmas about those functions, over whole runs. Tables and Redis hashes are sequences and maps.
What the code cannot control (clocks, sleeps that overshoot, remote answers, digests, classifiers, rounding) is an
input. Floats are reals. Where the code and its comments disagree, the model follows the code.

- **Rate limiting** (`TokenBucket`, `CircuitBreaker`, `RateLimiter`). The bucket stamps the time of entry even when it
  goes on to sleep, so slept time is credited again: `burst + rate * time` is kept by all histories of n grants if and
  only if n is at most burst + 1 (or there is no burst). What always holds is `burst + 2 * rate * time`; it is reached
  on every limiter, and the time asleep is the only excess. The breaker's state and permissions are characterised by
  the reports made to it, and the retry loop's number of calls and back-off are exact.
- **Worker counters** (`WorkerMetrics`, `JobLifecycle`). Atomic increments interleave with syncs that read the
  counters and later write them back. Counters never exceed the increments and never fall below those made outside
  syncs. On every interleaving, overlapping syncs and expiries included, a counter is its increments less a stated
  loss, and exact if and only if no sync whose write survives has an increment inside it. A registered job has an
  exact tally of what its tries count.
- **Deduplication** (`Text`, `Normalization`, `Levels`, `Simhash`, `Deduplication`, `ScrapedJobs`). The class comment
  speaks of three layers; the code has a fourth, the ATS key, in front. Dropped jobs leave keys behind, so a dropped
  job need not match any kept one (three scraped jobs show it); it is linked to a kept one by a chain of earlier jobs.
  Over a pool of jobs every dropped job does match a kept one if and only if no job of the pool hides another from a
  third. The result is pairwise unrelated and a fixed point. A level inserted into a title does not change its content
  key, so a "senior nurse" is a duplicate of a "nurse", unless it parts "entry" or "mid" from "level".
- **Text similarity** (`Cosine`, `TfIdf`). Cauchy-Schwarz over finite maps, with its case of equality. For any weights
  the cosine is in [-1, 1], not [0, 1] as its comment says; although the idf can be negative, similarities within a
  corpus are in [0, 1], and it is settled when they are 0 and 1.
- **Queue health and telemetry** (`QueueState`, `Decimal`, `SchedulerHealth`, `Telemetry`). The heartbeat that the
  scheduler writes is read back field by field and passes the health check, for exactly stated queue names; a
  telemetry tick writes the levels of each snapshot and publishes what that changes; the log of transitions is, for
  each scope, a chain that leads from the silent baseline to the state hash, whatever ticks crash.
- **Application pipeline and email** (`Pipeline`, `EmailIntake`). The history of each application is a walk along the
  allowed edges that ends in its status and stamps. A mail moves an application exactly where its signal and the edges
  lead; replaying mail changes nothing.
- **Company insights** (`Sums`, `Outcomes`). The incrementally updated rows equal the figures computed from all
  outcomes, in whatever order they were recorded. Amending an outcome reaches no row, and it is settled when that
  leaves the row wrong.
- **Automatic applications** (`RuleEngine`, `AutoApply`). Best rules, at most one submission per job and user, the
  company cooldown and the limit of each calendar day, over every mix of attempts and batches. The daily limit counts
  the run under way but not submissions: it bounds the filled runs by one less than the limit, and the submissions
  only where it lets nothing through.
- **Scrape batches** (`TargetBatch`). What robots.txt forbids is not scraped; otherwise the first step that is not
  given up decides a visit. The results add up, attempts tell their step, failure counts tell the visits; an aborted
  batch rolls its tables back and still reports what they held.

## Model

| member | source | states |
|---|---|---|
| TokenBucket.TokenBucketLimiter.constructor | backend/app/scraping/rate_limiter.py:40-45 | a full bucket stamped with the time of creation |
| TokenBucket.TokenBucketLimiter.Acquire | backend/app/scraping/rate_limiter.py:47-59 | one call under the lock: new tokens, stamp and grant time for every entry time and every overshoot of the sleep; tokens stay between zero and burst |
| TokenBucket.AcquireStep | backend/app/scraping/rate_limiter.py:47-59 | one grant costs one unit of credit, where credit is the tokens plus what accrues until the grant, and sleeping earns its own time once more |
| TokenBucket.TokensStayInRange | backend/app/scraping/rate_limiter.py:47-59 | after any lock-serialised calls, tokens are in [0, burst] and the stamp is the last entry |
| TokenBucket.SleptWithinElapsed | backend/app/scraping/rate_limiter.py:54-57 | the calls sleep no longer, all together, than passes until the last grant |
| TokenBucket.GrantsWithinCredit | backend/app/scraping/rate_limiter.py:47-59 | potential argument: grants plus remaining tokens never exceed the initial credit with slept time counted twice |
| TokenBucket.SleptTimeIsTheOnlyExcess | backend/app/scraping/rate_limiter.py:47-59 | from first entry to last grant, grants exceed burst plus accrual only by what accrues while asleep |
| TokenBucket.RateBound | backend/app/scraping/rate_limiter.py:47-59 | n grants from first entry to last grant satisfy n <= burst + 2 * rate * time, from any reachable bucket |
| TokenBucket.NominalBoundWithoutEarlySleep | backend/app/scraping/rate_limiter.py:47-59 | burst + rate * time holds as long as no call before the last sleeps |
| TokenBucket.RateBoundIsAttained | backend/app/scraping/rate_limiter.py:47-59 | on every limiter the factor 2 is reached, for any number of periods |
| TokenBucket.NominalBoundWhenSaturated | backend/app/scraping/rate_limiter.py:47-59 | the failing family: callers queued on a full bucket break burst + rate * time as soon as there are more than burst + 1 of them |
| TokenBucket.EarlySleepTakesAPeriod | backend/app/scraping/rate_limiter.py:47-59 | once a call that is not the last sleeps, a whole period passes between first entry and last grant |
| TokenBucket.NoBurstKeepsNominalBound | backend/app/scraping/rate_limiter.py:47-59 | without a burst, every history keeps burst + rate * time |
| TokenBucket.NominalBoundIff | backend/app/scraping/rate_limiter.py:47-59 | over all buckets, entry times and overshoots: every history of n grants keeps burst + rate * time if and only if n is at most burst + 1, or burst is 0 |
| CircuitBreaker.CircuitBreaker.constructor | backend/app/scraping/rate_limiter.py:68-73 | a closed breaker without failures |
| CircuitBreaker.CircuitBreaker.CanExecute | backend/app/scraping/rate_limiter.py:75-86 | the permission and the move to half-open, state by state |
| CircuitBreaker.CircuitBreaker.RecordSuccess | backend/app/scraping/rate_limiter.py:88-90 | a success closes the breaker, forgets the count and keeps the last failure time |
| CircuitBreaker.CircuitBreaker.RecordFailure | backend/app/scraping/rate_limiter.py:92-97 | a failure is counted and stamped, and opens the breaker from the threshold on |
| CircuitBreaker.StateReflectsReports | backend/app/scraping/rate_limiter.py:75-97 | over every run with threshold >= 1: the count is the failures since the last success, closed if and only if that is below the threshold, half-open only once the cooldown is over |
| CircuitBreaker.PermissionRule | backend/app/scraping/rate_limiter.py:75-86 | permission is given if and only if the failures since the last success are below the threshold or the latest failure is at least the recovery time ago |
| CircuitBreaker.RuleDecidesIffThresholdPositive | backend/app/scraping/rate_limiter.py:75-97 | that rule decides every permission if and only if the threshold is at least 1 |
| RateLimiter.RateLimiter.constructor | backend/app/scraping/rate_limiter.py:103-109 | a bucket of burst one and a fresh breaker, set up from the policy |
| RateLimiter.RateLimiter.WithRetry | backend/app/scraping/rate_limiter.py:111-150 | the whole retry loop of a sole caller: ending, calls made, back-off slept, clock, bucket and breaker left behind |
| RateLimiter.EndingTellsTheLastCall | backend/app/scraping/rate_limiter.py:124-150 | only the last call may return; a value closes the breaker, a failure carries the last call's error, and no call at all is made only with negative retries |
| RateLimiter.CallsNeverShrink | backend/app/scraping/rate_limiter.py:124-150 | a permitted attempt is made |
| RateLimiter.FailingCallsFrom | backend/app/scraping/rate_limiter.py:124-150 | for a call that always fails: number of calls, failures counted, ending and back-off from any attempt on |
| RateLimiter.FailingCallsExactly | backend/app/scraping/rate_limiter.py:124-150 | it is called min(max_retries + 1, threshold - failures) times if and only if the attempts run out first or the back-off ends before the cooldown |
| RateLimiter.ExhaustedBackoff | backend/app/scraping/rate_limiter.py:142-150 | full exhaustion plans back-offs of base * (2^max_retries - 1) and ends in the last error |
| RateLimiter.EveryCallTakesAToken | backend/app/scraping/rate_limiter.py:111-150 | every call made takes a token first: the loop leaves the bucket as its acquisitions do, one for each call, all granted by its end |
| RateLimiter.CallsKeepTheRate | backend/app/scraping/rate_limiter.py:111-150 | so c calls of a loop that takes time t satisfy c <= 1 + 2 * rps * t |
| WorkerMetrics.RoleMetrics.Increment | backend/app/runtime/worker_metrics.py:101-116 | the atomic increment of one counter |
| WorkerMetrics.RoleMetrics.GetCounterValues | backend/app/runtime/worker_metrics.py:43-57 | every counter is read, a missing one as zero |
| WorkerMetrics.RoleMetrics.WriteBack | backend/app/runtime/worker_metrics.py:60-81 | the counters read before overwrite whatever they have become |
| WorkerMetrics.RoleMetrics.Expire | backend/app/runtime/worker_metrics.py:30-31 | an expired key is the empty hash |
| WorkerMetrics.CounterNeverExceedsIncrements | backend/app/runtime/worker_metrics.py:43-81 | on every interleaving, expiry included, no counter exceeds its increments |
| WorkerMetrics.QuietIncrementsSurvive | backend/app/runtime/worker_metrics.py:43-81 | without expiry, increments made while no sync is pending are never lost |
| WorkerMetrics.CounterBounds | backend/app/runtime/worker_metrics.py:43-116 | the two-sided bound on every interleaving of increments, reads and writes by any number of processes |
| WorkerMetrics.CounterIsMadeLessLost | backend/app/runtime/worker_metrics.py:43-116 | on every interleaving, expiry and overlapping syncs included, each counter is its increments less what the surviving writes left out |
| WorkerMetrics.CounterIsExactIff | backend/app/runtime/worker_metrics.py:43-116 | so it is exact if and only if no sync whose write survives has an increment between its read and its write, and no expiry followed one |
| WorkerMetrics.AnOverlapCanSaveAnIncrement | backend/app/runtime/worker_metrics.py:60-81 | an increment inside one sync is kept when an overlapping sync reads later and writes last |
| WorkerMetrics.SerialSyncsLoseTheirWindows | backend/app/runtime/worker_metrics.py:60-81 | whenever the syncs of a run without expiry took turns, they lost exactly the increments between their read and their write |
| WorkerMetrics.QuietRunsAreExact | backend/app/runtime/worker_metrics.py:60-81 | with no increment inside a sync the counter is exact, overlapping syncs included |
| WorkerMetrics.SerialRunsAreExactIffQuiet | backend/app/runtime/worker_metrics.py:60-81 | derived from the general condition: whenever the syncs took turns, the counter is exact between them if and only if no increment fell inside one |
| WorkerMetrics.AnIncrementCanBeLost | backend/app/runtime/worker_metrics.py:60-81 | the shortest run that loses an increment |
| WorkerMetrics.SnapshotIsTheLatest | backend/app/runtime/worker_metrics.py:60-81 | on every interleaving the other fields of the hash are those of the latest write since it last expired |
| JobLifecycle.RunWithLifecycle | backend/app/runtime/job_lifecycle.py:41-128 | one try: what is raised to the queue, and which counters of the role it increments |
| JobLifecycle.EachIncrementCounts | backend/app/runtime/job_lifecycle.py:68-127 | in the role's hash each counter grows by the number of its increments |
| JobLifecycle.DelaysGrow | backend/app/runtime/job_lifecycle.py:37-38 | delays lie between 30 and 300 seconds, never shrink, and are capped exactly from the fifth try on |
| JobLifecycle.DelaysAre | backend/app/runtime/job_lifecycle.py:37-38 | the delays are 30, 60, 120 and 240 seconds, and 300 from the fifth try on |
| JobLifecycle.RaisingIsRetriedWhileTriesAreLeft | backend/app/runtime/job_lifecycle.py:80-127 | a raising try is retried after that delay if and only if tries are left, and otherwise fails, exhausted if the job had more than one |
| JobLifecycle.LifeOfARegisteredJob | backend/app/runtime/job_lifecycle.py:14-128 | a registered job ends within max_tries, at its first returning try or its last; completed or failed is counted once unless the last try itself asks for another; retries are the tries but the settling one; exhausted if and only if it failed with max_tries above 1 |
| Simhash.ComputeSimhash | backend/app/scraping/deduplication.py:212-231 | the fingerprint of the tokens: bit i is set if and only if more hashes have it than not |
| Simhash.FingerprintIgnoresOrder | backend/app/scraping/deduplication.py:212-231 | the fingerprint depends on the multiset of tokens only |
| Simhash.FingerprintOfRepeated | backend/app/scraping/deduplication.py:212-231 | repeating the text any number of times leaves it unchanged |
| Simhash.AppendFlips | backend/app/scraping/deduplication.py:212-231 | a further token flips a bit if and only if its counter was 0 and the token has it, or 1 and the token has it not |
| Simhash.AppendMovesLittle | backend/app/scraping/deduplication.py:212-235 | so it moves the fingerprint by at most the number of close bits |
| Simhash.HammingIsAMetric | backend/app/scraping/deduplication.py:233-235 | zero only on equal words, symmetric, triangle inequality |
| Deduplication.Deduplicate | backend/app/scraping/deduplication.py:149-191 | the loop over the three seen sets and the fingerprints, as the fold of its four layers |
| Deduplication.KeptIndicesAreTheKept | backend/app/scraping/deduplication.py:149-191 | the kept positions, in increasing order, are exactly those of the jobs that pass all layers |
| Deduplication.OutputIsTheKeptJobs | backend/app/scraping/deduplication.py:149-191 | the result is the order-preserving subsequence of the kept jobs, with their fingerprints beside it |
| Deduplication.SeenIffClaimed | backend/app/scraping/deduplication.py:160-189 | a key is seen if and only if exactly one earlier job, kept or dropped later on, was first to bring it that far |
| Deduplication.DroppedForAnEarlierJob | backend/app/scraping/deduplication.py:149-191 | every dropped job is related to an earlier job by a key or by fewer than three bits |
| Deduplication.EveryJobIsCovered | backend/app/scraping/deduplication.py:149-191 | every job leads to a kept one by a chain of strictly earlier, related jobs |
| Deduplication.SharesKeyWithKeptIffClaimantKept | backend/app/scraping/deduplication.py:160-189 | layer by layer: a job dropped for a key shares that key with a kept job if and only if the job that claimed it was kept |
| Deduplication.DropsMatchKeptIffNothingHides | backend/app/scraping/deduplication.py:149-191 | in all lists over a pool every dropped job is related to a kept earlier one, if and only if no three jobs of the pool have keys such that the second is dropped for the first, leaves a key behind, and the third meets that key without being related to the first |
| Deduplication.DroppedJobMatchesKept | backend/app/scraping/deduplication.py:149-191 | in a list without such a triple, in this order, every dropped job is related to a kept earlier one |
| Deduplication.HidingTripleFails | backend/app/scraping/deduplication.py:149-191 | any such triple, deduplicated by itself, keeps the first job only and drops the third without a match |
| Deduplication.ResultIsPairwiseUnrelated | backend/app/scraping/deduplication.py:149-191 | no two jobs of the result share an ATS key, a content key or a URL, or are within three bits |
| Deduplication.FixedPointIffUnrelated | backend/app/scraping/deduplication.py:149-191 | a list is left alone if and only if it is pairwise unrelated |
| Deduplication.DeduplicationIsIdempotent | backend/app/scraping/deduplication.py:149-191 | deduplicating twice is deduplicating once |
| Normalization.NormalizeCompany | backend/app/scraping/normalization.py:120-129 | the loop that pops trailing suffixes, and the alias, equal the specification of a company's name |
| Normalization.CleanHasNoBar | backend/app/scraping/normalization.py:110-117 | cleaning leaves no '\|' |
| Normalization.TitleHasNoBar | backend/app/scraping/normalization.py:132-146 | nor does any title normalisation bring one back |
| Normalization.ContentStringIsInjective | backend/app/scraping/deduplication.py:193-198 | the text under the content hash is equal if and only if normalised title and company are |
| Normalization.OnlyTrailingSuffixesGo | backend/app/scraping/normalization.py:120-129 | exactly the suffixes at the end are removed |
| Normalization.CompanyIsIdempotent | backend/app/scraping/normalization.py:125-129 | on cleaned tokens, normalising a normalised company changes nothing |
| Normalization.CompanyTwiceIsOnce | backend/app/scraping/normalization.py:114-129 | normalising a company twice, cleaning included, is normalising it once, for a folding that leaves folded text alone |
| Normalization.TitleIsIdempotent | backend/app/scraping/normalization.py:137-139 | on cleaned tokens, expanding an expanded title changes nothing |
| Normalization.TitleTwiceIsOnce | backend/app/scraping/normalization.py:114-139 | normalising a title twice, cleaning included, is normalising it once, for a folding that leaves folded text alone |
| Normalization.CleanedWordsAreTheRuns | backend/app/scraping/normalization.py:114-117 | the words of a cleaned text are the runs between spaces and punctuation of the folded text |
| Normalization.AbbreviationsDoNotMatter | backend/app/scraping/normalization.py:132-139 | two titles that differ in an abbreviation and what it stands for are normalised alike |
| Normalization.CompanyIsItsWords | backend/app/scraping/normalization.py:120-129 | a company is its words before the trailing suffixes, or the alias of these |
| Levels.StrippedTitleIsTheKeptWords | backend/app/scraping/normalization.py:142-146 | a stripped title is what stripping leaves of the title's words, joined by single spaces, where a text is cut into runs of word characters and stripping empties the runs that are a level, and the pairs of runs that "entry level", "mid level" and their hyphenated forms are; for every title |
| Levels.LevelsGo | backend/app/scraping/normalization.py:79-83 | the substitution at every position: the pattern removes exactly those runs, whatever stands between them |
| Levels.StripsInParts | backend/app/scraping/normalization.py:142-146 | stripping works part by part, unless the last run of one part and the first of the next make a level; then both go |
| Levels.PlainWordsAreKept | backend/app/scraping/normalization.py:79-83 | of words of word characters, it leaves those that are none of i to v, 1 to 5, staff, principal, lead, senior, junior, intern, entrylevel and midlevel, nor part of "entry level" or "mid level" |
| Levels.InsertedLevelIsStripped | backend/app/scraping/normalization.py:79-83 | a level inserted anywhere into a title leaves the stripped title as it is, if and only if it does not part an "entry" or "mid" from a following "level" |
| Levels.KeptHasNoLevel | backend/app/scraping/normalization.py:142-146 | before its spaces are collapsed, what is kept holds no level |
| Levels.StrippedWordsAreTitleWords | backend/app/scraping/normalization.py:132-146 | and its words hold no abbreviation: normalised as a title, a stripped title stays |
| Levels.StrippedTwiceIff | backend/app/scraping/normalization.py:142-146 | stripping a stripped title changes nothing if and only if no two of its words meet as "entry level" or "mid level", for a folding that leaves folded text alone |
| Levels.StrippingMayUncoverALevel | backend/app/scraping/normalization.py:142-146 | "entry senior level" leaves "entry level", which leaves nothing |
| ScrapedJobs.SameContentKey | backend/app/scraping/deduplication.py:193-198 | with an injective digest, equal content keys mean equal stripped titles and companies, and conversely; `Levels.StrippedTitleIsTheKeptWords` and `CompanyIsItsWords` say what these are |
| ScrapedJobs.LevelsDoNotMatter | backend/app/scraping/deduplication.py:193-198 | "senior nurse" and "nurse" of one company have the same content key: with an injective digest, a level inserted into a title leaves the key alone if and only if it does not part "entry" or "mid" from "level" |
| ScrapedJobs.SeniorDuplicateIsDropped | backend/app/scraping/deduplication.py:149-198 | of two jobs with the same content key, at most one is kept |
| ScrapedJobs.FingerprintAndUrl | backend/app/scraping/deduplication.py:200-231 | the fingerprint is that of the words of title, company and the first 500 characters of the description; the URL key is the normalised URL, if there is one; for a lower-casing that works part by part |
| ScrapedJobs.AtsKeyPresent | backend/app/scraping/deduplication.py:22-38 | there is an ATS key unless provider or job id is blank |
| ScrapedJobs.SameAtsKey | backend/app/scraping/deduplication.py:22-38 | without '\|' in scope and provider, equal ATS keys mean the same scope, provider and job |
| ScrapedJobs.BarsMakeAtsKeysAmbiguous | backend/app/scraping/deduplication.py:22-38 | with one, two identities can share a key |
| ScrapedJobs.KeyTextIsAmbiguousIff | backend/app/scraping/deduplication.py:22-38 | the text of a key can be read as other parts if and only if there is a '\|' in the scope, in the provider unless that is all of it, or in the job id before its last character |
| ScrapedJobs.ADroppedJobMayMatchNoKeptJob | backend/app/scraping/deduplication.py:149-235 | three scraped jobs of which only the first is kept although the last resembles it in nothing |
| ScrapedJobs.NamesakesAreDropped | backend/app/scraping/deduplication.py:149-198 | a job dropped for its content has an earlier namesake, with the same stripped title and company, and no two results are namesakes |
| Cosine.CauchySchwarz | backend/app/nlp/core.py:256-276 | the inequality on any set of keys, with equality if and only if the vectors are proportional there |
| Cosine.CosineOfAligned | backend/app/nlp/core.py:256-276 | when no shared product is negative: in [0, 1]; positive if and only if some shared product is not zero; 1 if and only if moreover proportional, and zero elsewhere |
| Cosine.CosineOfAny | backend/app/nlp/core.py:256-276 | for any weights: within [-1, 1], positive or negative exactly when the dot product is |
| Cosine.CosineTimesLengths | backend/app/nlp/core.py:256-276 | the cosine times the two lengths is the sum of the products over the shared terms |
| TfIdf.BuildFreqMap | backend/app/nlp/core.py:244-248 | the frequencies of exactly the tokens that occur |
| TfIdf.CountDocuments | backend/app/nlp/core.py:296-300 | each document is counted once for each of its terms |
| TfIdf.TfIdfVectors | backend/app/nlp/core.py:284-316 | the vectors of a corpus; an empty document has none |
| TfIdf.WeighTerms | backend/app/nlp/core.py:303-314 | the weights of one document |
| TfIdf.DocumentFrequencyCounts | backend/app/nlp/core.py:296-300 | a document frequency is the number of documents that have the term |
| TfIdf.WeightsAre | backend/app/nlp/core.py:303-314 | a weight is the share of a document that is the term, times the logarithm of the documents over one more than those that have the term |
| TfIdf.VectorsAreAligned | backend/app/nlp/core.py:284-316 | within a corpus no shared product is negative, even where the idf is |
| TfIdf.CorpusSimilarity | backend/app/nlp/core.py:256-316 | similarities within a corpus lie in [0, 1] and are positive if and only if a shared term is not in all documents but one |
| TfIdf.PositiveIffTokenShared | backend/app/nlp/core.py:319-331 | two texts have positive similarity if and only if they share a token |
| TfIdf.WhollySimilarIff | backend/app/nlp/core.py:319-331 | it is 1 if and only if they share one and the shared tokens are in the same proportions |
| TfIdf.WhollySimilarCases | backend/app/nlp/core.py:319-331 | so for permuted texts, and for texts that share one distinct token |
| QueueState.OverallIsMostSevere | backend/app/runtime/queue_state.py:64-79 | the overall pressure and alert are the most severe of the queues' |
| QueueState.ClassificationIsMonotone | backend/app/runtime/queue_state.py:35-61 | a deeper, older queue is never classified as less severe |
| QueueState.CapturedLevelsIff | backend/app/runtime/queue_state.py:13-61 | for each queue, the depths and ages from which it is elevated, saturated, watched, backlogged and stalled |
| Decimal.ParseOfPrint | backend/app/runtime/healthcheck.py:41-50 | a printed natural number is parsed back |
| SchedulerHealth.ParseHealthFields | backend/app/runtime/healthcheck.py:30-38 | the fields of the tokens that have a '=', the last of equal keys winning |
| SchedulerHealth.CheckScheduler | backend/app/runtime/healthcheck.py:82-150 | the first problem that the checks come upon, in their order |
| SchedulerHealth.CheckQueues | backend/app/runtime/healthcheck.py:98-141 | the first problem of a queue, or the pressures and alerts of all of them |
| SchedulerHealth.PassesIffHealthy | backend/app/runtime/healthcheck.py:82-150 | a payload passes if and only if it states a running scheduler, sound queue records and the overall levels derived from them |
| SchedulerHealth.CheckedQueueRecords | backend/app/runtime/healthcheck.py:100-141 | a queue passes if and only if its depth, pressure and age are valid and its alert is the one these classify as |
| SchedulerHealth.QueuePassesIff | backend/app/runtime/healthcheck.py:100-141 | the same in the texts of the four fields |
| SchedulerHealth.ReportedProblemIsReal | backend/app/runtime/healthcheck.py:82-150 | the problem that a failing check reports is there: a field that is missing, unreadable or negative, an alert that does not follow from pressure and age, or an overall level that is not the queues' |
| SchedulerHealth.AcceptedOverallAlertIsMaximal | backend/app/runtime/healthcheck.py:82-150 | an accepted overall alert is the maximum of the re-derived queue alerts |
| SchedulerHealth.EntriesReadBack | backend/app/runtime/healthcheck.py:30-38 | distinct entries without '=' in their keys are read back, and nothing else |
| SchedulerHealth.PayloadReadsBack | backend/app/runtime/scheduler.py:62-99 | a written payload is parsed back to exactly its fields, for all depths, ages and carriable names |
| SchedulerHealth.WrittenFieldsAre | backend/app/runtime/scheduler.py:62-99 | read back, each queue shows its depth, pressure, alert and age under its four names, and the overall fields the most severe pressure and alert |
| SchedulerHealth.WrittenPayloadPasses | backend/app/runtime/scheduler.py:62-99 | what the scheduler writes passes every check of the reader |
| SchedulerHealth.CarriableIff | backend/app/runtime/scheduler.py:74-97 | exactly which names are carriable: words without '=', all different, none a header key and none equal to a field of one of them |
| SchedulerHealth.NameOfAFieldFails | backend/app/runtime/healthcheck.py:100-131 | a queue called like the pressure or the alert of another makes the check fail: its depth reads as that level, which is no integer |
| SchedulerHealth.DottedNamesCanCollide | backend/app/runtime/healthcheck.py:100-103 | so with the queues "a" and "a.alert" |
| Telemetry.TelemetryStore.RecordQueueTelemetry | backend/app/runtime/telemetry.py:117-192 | a tick: the transitions appended and the hash left behind, spelled out by the next rows; the first one is silent |
| Telemetry.TickWritesTheLevels | backend/app/runtime/telemetry.py:54-66 | after a tick over distinct queues, the fields `<queue>:pressure` and `<queue>:alert` hold the names of each snapshot's own pressure and alert, and the two overall fields those of the most severe |
| Telemetry.TickPublishesTheChanges | backend/app/runtime/telemetry.py:145-190 | on a known hash it publishes one transition for each of these pairs of fields that it changes, from the texts before to the texts after, and none for the others |
| Telemetry.NothingElseIsPublished | backend/app/runtime/telemetry.py:145-190 | and no transition about anything else |
| Telemetry.TelemetryStore.PublishQueueChanges | backend/app/runtime/telemetry.py:169-190 | the transitions of the queues that a tick reports as changed |
| Telemetry.TelemetryStore.ReadCurrentState | backend/app/runtime/telemetry.py:54-66 | the hash fields of one tick; `TickWritesTheLevels` says which texts they hold |
| Telemetry.LevelsAfterTick | backend/app/runtime/telemetry.py:54-77 | after a tick each scope is at what was reported of it, and otherwise where it was |
| Telemetry.AboutTick | backend/app/runtime/telemetry.py:145-190 | on a known hash a tick publishes one transition for each scope it reports as changed, and no other |
| Telemetry.HashIsLatest | backend/app/runtime/telemetry.py:117-192 | the hash holds the latest report of each scope |
| Telemetry.LogLeadsToHash | backend/app/runtime/telemetry.py:117-192 | each scope's transitions chain from the silent baseline to the hash, without repeating a state, although queues may be missing from ticks |
| Telemetry.CrashesOnlyRepeat | backend/app/runtime/telemetry.py:99-192 | ticks that crash before the hash is written leave it alone, and the log contains that of the completed ticks |
| Telemetry.ChangeIsAlreadyLogged | backend/app/runtime/telemetry.py:117-192 | when a tick changes a known hash, the matching transition is in the log already |
| Telemetry.LogContainsTheChain | backend/app/runtime/telemetry.py:99-192 | with crashes, each scope's log still contains a chain from baseline to hash |
| Pipeline.PipelineService.CreateApplication | backend/app/pipeline/service.py:49-74 | a saved application and its first history row |
| Pipeline.PipelineService.RecordApplication | backend/app/auto_apply/orchestrator.py:333-361 | an applied application without history, unless the user has one for the job |
| Pipeline.PipelineService.TransitionStatus | backend/app/pipeline/service.py:100-129 | the rejections, and otherwise the new status, its stamps and the history row |
| Pipeline.TransitionIsMadeIff | backend/app/pipeline/service.py:100-129 | a transition is made if and only if the application is the user's and the new status, by its name, is one that the old one leads to; and what it then changes |
| Pipeline.UnknownNamesAreRefused | backend/app/pipeline/state_machine.py:30-44 | only the eight names are statuses |
| Pipeline.NewApplicationsAre | backend/app/pipeline/service.py:49-74 | how applications start out, saved by the user or applied for automatically |
| Pipeline.OperationKeepsRecords | backend/app/pipeline/service.py:49-129 | every operation keeps each history a walk that ends in the status and accounts for the stamps |
| Pipeline.HistoryTellsTheStory | backend/app/pipeline/service.py:49-129 | so after every run |
| Pipeline.AcceptedIsEarnedAndFinal | backend/app/pipeline/state_machine.py:18-27 | accepted comes last in a history, after an offer after an interview |
| Pipeline.NothingLeavesAccepted | backend/app/pipeline/state_machine.py:30-44 | every transition of an accepted application is rejected and changes nothing |
| Pipeline.HistoryLengthBound | backend/app/pipeline/state_machine.py:18-27 | a history has at most 6 + 6 * (returns to saved) rows |
| Pipeline.HistoryLengthIsReached | backend/app/pipeline/state_machine.py:18-27 | and can have 6 without a return |
| Pipeline.StampsAreThere | backend/app/pipeline/service.py:111-117 | applied, offer and rejected stamps are set as the status requires |
| EmailIntake.EmailService.ProcessInboundMessage | backend/app/email/service.py:47-164 | one message: log, transition, notification and response in every branch, spelled out by the next rows |
| EmailIntake.MatchedMessageMoves | backend/app/email/service.py:111-131 | a new message about an application that is read as "offer", "interview" or "rejection" makes it an offer, interviewing or rejected, with one history row from "email", if and only if the confidence suffices and its status leads there; nothing else moves it, and too little confidence asks for review |
| EmailIntake.MatchedMessageIsLogged | backend/app/email/service.py:68-164 | it is logged with what was read and found, and notified of, for review where it asks for one |
| EmailIntake.UnmatchedMessageIsLogged | backend/app/email/service.py:47-110 | a new message without a signal or an application is logged and changes nothing else |
| EmailIntake.DuplicateIsAnswered | backend/app/email/service.py:54-66 | a duplicate is answered with what its log says |
| EmailIntake.FindDuplicateLog | backend/app/email/service.py:200-227 | a duplicate is found if and only if a log matches by message id, or by sender, subject and body |
| EmailIntake.SyncGmail | backend/app/email/gmail_sync.py:98-147 | the loop over a mailbox and its five counters |
| EmailIntake.GuardedTransitionIsAccepted | backend/app/email/service.py:276-279 | the guarded transition is never rejected by the state machine |
| EmailIntake.DuplicateIffKnown | backend/app/email/service.py:47-66 | a message is a duplicate if and only if a log matches it, and then changes nothing |
| EmailIntake.KnownIff | backend/app/email/service.py:200-227 | such a log has the same message id from the same provider, or the same sender, first 1000 characters of the subject and digest of the body |
| EmailIntake.SyncedIsKnown | backend/app/email/gmail_sync.py:104-147 | every message of a synced mailbox has become a duplicate |
| EmailIntake.ReplayIsNoOp | backend/app/email/gmail_sync.py:104-147 | syncing any list drawn from a synced mailbox, reordered or repeated, changes nothing |
| EmailIntake.CountersAddUp | backend/app/email/gmail_sync.py:98-147 | processed + failed + duplicates is the mailbox; logs grow by the processed and history by the transitions |
| EmailIntake.SignalsAreCounted | backend/app/email/gmail_sync.py:98-147 | the signals counted are the logs added that have one |
| EmailIntake.SyncKeepsInvariants | backend/app/email/gmail_sync.py:98-147 | no message is logged twice, and the pipeline's records stay sound |
| Outcomes.OutcomeService.RecordOutcome | backend/app/outcomes/service.py:25-84 | the rejections, and otherwise the outcome added and its company's row updated |
| Outcomes.OutcomeIsRecordedIff | backend/app/outcomes/service.py:25-84 | an outcome is added if and only if the application is the user's and has none, and refused for the first reason that fails |
| Outcomes.OutcomeService.UpdateOutcome | backend/app/outcomes/service.py:86-108 | an amendment, refused if and only if the user has no outcome for the application |
| Outcomes.AmendmentReaches | backend/app/outcomes/service.py:86-108 | it gives new facts to the user's own outcome of the application, and changes nothing else |
| Outcomes.OutcomeService.UpdateCompanyInsight | backend/app/outcomes/service.py:306-377 | the new row: counts, running averages and rounded rates |
| Outcomes.UpdatedSummary | backend/app/outcomes/service.py:306-377 | updating the exact figures of some outcomes gives the exact figures of one more |
| Outcomes.SummaryCounts | backend/app/outcomes/service.py:253-304 | exact figures count the outcomes with a response, with ghosting, with an offer and with a rejection; the rates are their shares, rounded to two places |
| Outcomes.SummaryAverages | backend/app/outcomes/service.py:253-304 | the averages are sums over their number, and missing when that is zero |
| Outcomes.FactsAre | backend/app/outcomes/service.py:237-252 | they are over the user's outcomes of applications at that company, in order |
| Outcomes.ComputedInsightIs | backend/app/outcomes/service.py:253-304 | the computed insight is these figures, the averages rounded to one and two places |
| Outcomes.OperationKeepsRowsExact | backend/app/outcomes/service.py:25-84 | recording keeps every row equal to the figures over all its outcomes, and rows exist exactly for named companies with an outcome |
| Outcomes.RowsStayExact | backend/app/outcomes/service.py:25-84 | so over every run |
| Outcomes.InsightsMeetTheComputation | backend/app/outcomes/service.py:237-304 | what is reported equals the batch computation up to the rounding of averages, and is refused in the same cases |
| Outcomes.RecordingOrderIsIrrelevant | backend/app/outcomes/service.py:306-377 | recording the same outcomes in another order leaves the same rows |
| Outcomes.AmendmentsDoNotReachRows | backend/app/outcomes/service.py:86-108 | in every run, the rows but for their rejection rates are those of the run without its amendments |
| Outcomes.AmendmentLeavesRowExactIff | backend/app/outcomes/service.py:86-108 | an amendment leaves its row exact if and only if ghosting, response time and offer stay and the rejection rate rounds alike |
| RuleEngine.MatchJobs | backend/app/auto_apply/engine.py:13-24 | the nested loops choose for each job its best rule |
| RuleEngine.MatchesRuleIff | backend/app/auto_apply/engine.py:26-66 | a rule matches if and only if score, keywords, companies, level and remote type are as it asks, spelled out |
| RuleEngine.MentionsIff | backend/app/auto_apply/engine.py:26-66 | mentioning is occurring somewhere, letter by letter, whatever the case |
| RuleEngine.FirstMatchIsBest | backend/app/auto_apply/engine.py:17-23 | the first match in the stably sorted rules is the best one: no matching rule has a higher priority, nor the same and an earlier place |
| RuleEngine.MatchedAreTheMatchable | backend/app/auto_apply/engine.py:13-24 | exactly the jobs that some rule matches are chosen |
| RuleEngine.MatchedOnce | backend/app/auto_apply/engine.py:13-24 | and none twice |
| AutoApply.AutoApplyOrchestrator.CheckSafety | backend/app/auto_apply/safety.py:73-116 | the checks all pass if and only if the user has no application for the job, fewer runs than the limits on this calendar day and in this hour at the system, no application to the company in seven days, no exclusion, a posting under thirty days old, and a system that has worked before or consent |
| AutoApply.AutoApplyOrchestrator.ApplyToJob | backend/app/auto_apply/orchestrator.py:51-129 | one attempt: its run, and the application it records |
| AutoApply.AutoApplyOrchestrator.RunBatch | backend/app/auto_apply/orchestrator.py:131-161 | the attempts of a batch, one after the other |
| AutoApply.PassesIff | backend/app/auto_apply/safety.py:73-116 | the same of the specification: no name is listed as failed if and only if the attempt is cleared in that sense |
| AutoApply.LimitsMean | backend/app/auto_apply/safety.py:134-175 | the runs counted are the filled and running ones that started on the calendar day of the attempt or later, and those at the system within the last 3600 seconds, which must be fewer than 10 at Greenhouse, 3 at Workday and 5 elsewhere |
| AutoApply.GoesIff | backend/app/auto_apply/orchestrator.py:51-129 | an attempt goes on if and only if it has a user and a URL and is cleared, its own run counted |
| AutoApply.GoesMeans | backend/app/auto_apply/safety.py:118-195 | an attempt that goes on is for a job without an application, with a run to spare today and no application to the company in seven days |
| AutoApply.FirstUseNeedsConsent | backend/app/auto_apply/safety.py:253-272 | without consent an attempt goes only to a system for which the user has a filled or submitted run |
| AutoApply.AttemptLeaves | backend/app/auto_apply/orchestrator.py:274-361 | an attempt adds one settled run, and an application if and only if it submits |
| AutoApply.RunEnds | backend/app/auto_apply/orchestrator.py:51-129 | how its run ends: failed, filled or submitted, at which system, and whether it was blocked |
| AutoApply.EveryRunIsSafe | backend/app/auto_apply/orchestrator.py:51-161 | after any mix of attempts, batches and other applications: one submission per user and job; more than seven days after every application to a named company; at most max(0, limit - 1) filled runs of a user on any calendar day |
| AutoApply.BatchTouches | backend/app/auto_apply/orchestrator.py:131-161 | a batch adds at most ten runs, for different candidate jobs, each under a best rule |
| AutoApply.BatchMissesNothing | backend/app/auto_apply/orchestrator.py:131-161 | of the first fifty candidates it takes all that some rule matches, up to ten |
| AutoApply.BatchMakesNoFirstUse | backend/app/auto_apply/orchestrator.py:131-161 | it fills or submits only at a system where an earlier run of the user's has |
| AutoApply.SelectedAreCandidates | backend/app/auto_apply/orchestrator.py:420-449 | the candidates are the user's active new jobs without an application and without a filled, submitted or running run |
| AutoApply.CandidateIff | backend/app/auto_apply/orchestrator.py:420-449 | such a job, spelled out: all its runs have failed |
| AutoApply.ChosenJobsAreNotBlacklisted | backend/app/auto_apply/safety.py:197-224 | a rule never chooses a job that its own exclusions block |
| AutoApply.SubmissionsAreUnlimited | backend/app/auto_apply/safety.py:134-149 | with a daily limit of two or more, one day can see any number of submissions |
| AutoApply.LimitBoundsSubmissionsIff | backend/app/auto_apply/safety.py:134-149 | the daily limit bounds the submissions of every day of every run if and only if it is at most one, and then every run fails |
| AutoApply.SubmissionIsRecordedInPipeline | backend/app/auto_apply/orchestrator.py:333-361 | the application a submission records is the one the pipeline's model records |
| TargetBatch.ScrapingService.ProcessTarget | backend/app/scraping/service.py:245-469 | one visit: its attempts, the target's marks and the results, spelled out by the next rows |
| TargetBatch.ForbiddenIsBlocked | backend/app/scraping/service.py:250-288 | a target above tier 0 that robots.txt forbids is not scraped, whatever its steps would end like: one blocked attempt, one more failure, and nothing found |
| TargetBatch.FirstSuccessDecides | backend/app/scraping/service.py:284-467 | a target that may be visited is decided by its first step that is not given up: if it succeeds, its attempt, tier, status, cache fields and jobs are what the visit leaves |
| TargetBatch.AllGivenUp | backend/app/scraping/service.py:284-467 | and if all are given up, one attempt for each and one more failure |
| TargetBatch.AbortsIff | backend/app/scraping/service.py:245-467 | it breaks if and only if there is no plan, no answer from robots.txt above tier 0, or the first step not given up breaks |
| TargetBatch.ScrapingService.RunTargetBatch | backend/app/scraping/service.py:221-496 | all visits, or the roll-back at the first that breaks; `OneVisitMore` and `UnbrokenIff` reduce a batch to its visits |
| TargetBatch.OneVisitMore | backend/app/scraping/service.py:221-496 | one visit more leaves what it would leave by itself on the tables before, and adds its results to theirs |
| TargetBatch.UnbrokenIff | backend/app/scraping/service.py:221-496 | a batch aborts if and only if one of its visits would by itself |
| TargetBatch.AttemptsOfAVisit | backend/app/scraping/service.py:284-467 | all attempts but the last were given up, escalations count the steps before, the last is successful if and only if the visit is |
| TargetBatch.TargetTellsOfTheLastAttempt | backend/app/scraping/service.py:657-686 | the target's status, tier, failure counts and cache fields agree with the visit's last attempt |
| TargetBatch.JobsOfAVisit | backend/app/scraping/service.py:284-467 | the jobs a visit reports are those its successful attempt extracted |
| TargetBatch.BatchAddsUp | backend/app/scraping/service.py:221-496 | succeeded + failed is attempted, plus one when aborted; jobs found are those extracted; an aborted batch leaves the tables alone and reports the targets before |
| TargetBatch.FailureCountsTellVisits | backend/app/scraping/service.py:657-686 | failures count the failed visits, consecutive failures those since the last success |
| TargetBatch.ConsecutiveFailuresAreFailures | backend/app/scraping/service.py:657-686 | consecutive failures never exceed failures |

## Left out

- Floating-point rounding and overflow: reals stand for floats, so `CosineOfAligned` and the rate bounds hold up to rounding.
- `asyncio` cancellation inside `acquire`, and several callers of `with_retry` on one limiter: `RateLimiter.WithRetry` is for a sole caller; a positive rate and a non-negative back-off base are assumed.
- Redis transport, key names, 64-bit overflow of counters, unknown counter names and a missing connection.
- The callers' schedule of syncs: `WorkerMetrics` takes any interleaving instead.
- How the queue library repeats a job: a try follows each `Retry` until its limit, after which the job is abandoned without a further count.
- NFKD folding and Unicode lower-casing beyond single characters (`unicode` and `lower` are inputs; `CompanyTwiceIsOnce`, `TitleTwiceIsOnce` and `StrippedTwiceIff` assume that folding leaves folded text alone), and characters that a case-insensitive regular expression equates with ASCII letters.
- Digests: SHA-256 and MD5 are arbitrary functions, injective where a lemma says so; token hashes are arbitrary 64-bit words.
- URL normalisation and the recognition of ATS identities by regular expressions: inputs of `ScrapedJobs`.
- The tokenizer and its stop words, and key phrases: `TfIdf` starts from token lists.
- Non-ASCII digits, underscores and signs beyond a leading one in `int()`, which no written payload has.
- The database and worker health checks, the ready marker, and time-to-live of the health key.
- Trimming of the telemetry streams, the stream of snapshots, webhooks, and the extra fields of a transition.
- Listing, reading and editing of applications; editing a company's name, which would detach insights and cooldowns from it.
- How a mail is classified and which application it is about: inputs of `EmailIntake`, as long as the application is the user's. Database errors midway through a message, and fetching and refreshing tokens.
- User statistics over outcomes, and the other descriptive columns of an outcome.
- `AutoApply`: attempts that overlap in time, a run that straddles midnight between its clock readings, an exception from the Lever interface, the budget check (no caller reports spending), form filling, screenshots and review items.
- `TargetBatch`: timestamps, content-change flags and durations; a failing write of jobs or final commit (the former rolls the session back and so breaks the visit); routing and escalation decisions are inputs.
- Language-model features, the remaining routes, the front end, migrations and scripts.
