# GitScore repository scoring, modelled in Dafny

GitScore reduces the metadata of one GitHub repository to a health score out of 10,
together with a per-metric breakdown. This project models three parts of it:

- **`calculateScore` in lib/scoring.js.** Six metrics are scored: README present,
  license present, stars, forks, commits in the last thirty days, and active CI
  workflows. Each metric has a score in [0, 10], a weight from the `WEIGHTS` table,
  and a weighted score. The headline is `(Σ weightedScore / Σ 10·weight) · 10`,
  rounded to one decimal.
- **`getRepositoryScore` in lib/staticData.js.** This is a cache of score reports
  keyed by (owner, repo). On each call it looks for an entry younger than 24 hours.
  On a hit it returns the report stored in that entry. On a miss it fetches and scores the repository,
  upserts the report with the current time and returns it. If anything in the
  `try` block throws, it returns `null`.
- **The legacy scorer defined inline in __tests__/scoring.test.js.** It scores
  seven REST-API signals. Its headline is `min(raw sum, 10)`. Its breakdown
  carries weights that the headline does not use.

Modules:

| file | module | models |
|---|---|---|
| wrappers.dfy | `Wrappers` | `Option`, for nullable fields and for the `null` result |
| numbers.dfy | `Numbers` | `Math.min`; `Number(x.toFixed(1))` as rounding to the nearest tenth, ties away from zero |
| counting.dfy | `Counting` | `xs.filter(p).length` |
| github_data.dfy | `GitHubData` | the shape of the GraphQL result of lib/github.js, and the `?.`/`\|\| []` path lookups |
| scoring.dfy | `Scoring` | `WEIGHTS`, the six extractors, the breakdown, the accumulation loop and `calculateScore` |
| scoring_properties.dfy | `ScoringProperties` | what `calculateScore` guarantees |
| static_data.dfy | `StaticData` | `CACHE_DURATION`, the cache as the class `ScoreCache`, and its laws |
| legacy_scoring.dfy | `LegacyScoring` | the test file's inline scorer and what its tests assert |

Modelling choices:

- Counts are `nat`, timestamps are `int` milliseconds, and scores and weights are exact `real`s.
- The clock is the parameter `now`. The same `now` is used for three things: the cache
  read, the thirty-day window of every commit comparison, and the timestamp that is written.
- `Scoring.CalculateScore` builds `breakdown` one metric at a time, in the order the source
  does. It then hands the breakdown to `Scoring.SumBreakdown`, whose loop follows the
  `forEach` over `Object.values(breakdown)`. Both methods are proved equal to specification
  functions (`Scoring.Report`, `Scoring.SumWeighted`, `Scoring.SumPossible`). The lemmas are
  stated about those functions.
- `ScoreCache` keeps the collection in the field `entries: map<(string, string), Entry>`.
  `GetRepositoryScore` is proved to match the pure function `StaticData.Step`, and the cache
  lemmas are stated about `Step`. Fetching is a function argument that returns a
  `FetchOutcome`, which has three cases:
  - `Fetched(repository)`: the repository is scored.
  - `NullRepository`: `fetchRepoData` resolved to `null`. `calculateScore(null)` then throws,
    so the call returns `null`. (`calculateScore` can also throw on a `null` element of a
    `nodes` list; see "Left out".)
  - `FetchFailed`: `fetchRepoData` threw.

  The ghost counter `fetchCalls` records how often the fetch runs.
- The weight table is a constant, so `maxPossibleScore` is always 80 (`Scoring.MaxPossible`).
  The case of an empty weight table cannot occur.
- A scenario with 150 stars, 30 forks, a README, a license, 2 recent commits and 2 active
  workflows scores 45.38 of 80 points. That gives an exact headline of 5.6725, shown as 5.7
  (`ScoringProperties.WellMaintainedExample`).
- Scoring is deterministic: every operation is a function of its inputs and `now`.

## Model

| member | source | states |
|---|---|---|
| `Numbers.Min` | lib/scoring.js:37 | `Math.min`: the result is one of the two arguments and is no larger than either |
| `Numbers.Round1` | lib/scoring.js:88 | `toFixed(1)`: the result is a multiple of 0.1 within 0.05 of the input; for a non-negative input, ties round up and the result is non-negative |
| `Numbers.Round1Bounds` | lib/scoring.js:85-88 | rounding a value in [0, 10] stays in [0, 10] |
| `Numbers.Round1Monotone` | lib/scoring.js:88 | rounding to one decimal is monotone |
| `Counting.CountWhere` | lib/scoring.js:54-59 | `filter(...).length` is at most the length of the list |
| `Counting.CountWhereIsCardinality` | lib/scoring.js:70 | the filtered count equals the number of positions whose element satisfies the filter |
| `Scoring.Weight` | lib/scoring.js:6-13 | the `WEIGHTS` table; every weight is strictly positive |
| `Scoring.MetricOrder` | lib/scoring.js:20-79 | the order in which `calculateScore` inserts the six keys, which is the order `Object.values(breakdown)` visits them; `Scoring.EveryMetricInOrder` proves it lists every metric, and `Scoring.SumsOverMetricOrder` sums over it |
| `GitHubData.CommitNodes` | lib/scoring.js:53 | `defaultBranchRef?.target?.history?.nodes \|\| []`: when the whole path is present the result is the node list at its end, and a non-empty result only comes from there; any missing link gives `[]` (see `ScoringProperties.MissingHistoryScoresZero`) |
| `GitHubData.WorkflowNodes` | lib/scoring.js:69 | `workflows?.nodes \|\| []`: when `workflows.nodes` is present the result is that list, and a non-empty result only comes from there; a missing link gives `[]` (see `ScoringProperties.MissingWorkflowsScoreZero`) |
| `Wrappers.Truthy` | lib/scoring.js:21 | `!!` of a string-or-null: present and not empty; what it decides is stated by `ScoringProperties.ReadmeScore` and `ScoringProperties.LicenseScore` |
| `Scoring.HasReadme` | lib/scoring.js:21 | `!!repoData.object?.text`; its effect on the readme entry is `ScoringProperties.ReadmeScore` (10 exactly when the text is present and non-empty) |
| `Scoring.HasLicense` | lib/scoring.js:29 | `!!repoData.licenseInfo?.name`; its effect on the license entry is `ScoringProperties.LicenseScore` |
| `Scoring.EveryMetricInOrder` | lib/scoring.js:20-76 | every one of the six metrics occurs in `MetricOrder`, so the breakdown gets all six keys |
| `Scoring.RecentWindow` | lib/scoring.js:56-57 | the 30-day offset of `setDate(getDate() - 30)` as 30·24·60·60·1000 ms; `ScoringProperties.RecentWindowIsStrict` shows where it cuts |
| `Scoring.IsRecent` | lib/scoring.js:54-58 | the commit filter `committedDate > now − 30 days`; its meaning is `ScoringProperties.RecentCommitsScore` and `ScoringProperties.RecentWindowIsStrict` |
| `Scoring.IsActive` | lib/scoring.js:70 | the workflow filter `state === 'ACTIVE'`; its meaning is `ScoringProperties.CiWorkflowsScore` |
| `Scoring.StarsScore` | lib/scoring.js:37 | `min(stars/100, 10)` lies in [0, 10] and is 10 exactly from 1000 stars on; monotonicity and linearity below the cap are `ScoringProperties.StarsScoreShape` |
| `Scoring.ForksScore` | lib/scoring.js:45 | `min(forks/50, 10)` lies in [0, 10] and is 10 exactly from 500 forks on; the rest is `ScoringProperties.ForksScoreShape` |
| `Scoring.RecentCommitCount` | lib/scoring.js:53-59 | the recent-commit count is at most the number of commit nodes; which commits count is `ScoringProperties.RecentCommitsScore` and `ScoringProperties.RecentWindowIsStrict` |
| `Scoring.CommitsScore` | lib/scoring.js:61 | `min(recentCommits, 10)` lies in [0, 10] and is 10 exactly from 10 recent commits on |
| `Scoring.ActiveWorkflowCount` | lib/scoring.js:69-70 | the active-workflow count is at most the number of workflow nodes; which workflows count is `ScoringProperties.CiWorkflowsScore` |
| `Scoring.WorkflowsScore` | lib/scoring.js:71 | `min(2·activeWorkflows, 10)` lies in [0, 10] and is 10 exactly from 5 active workflows on |
| `Scoring.SubScore` | lib/scoring.js:20-76 | the score of each of the six metrics lies in [0, 10]; readme and license score only 0 or 10 (their conditions are `ScoringProperties.ReadmeScore` and `ScoringProperties.LicenseScore`) |
| `Scoring.ResultOf` | lib/scoring.js:22-76 | one entry literal `{ score, weight, weightedScore }`; its invariant is `ScoringProperties.ResultOfInvariant` and its place in the breakdown is `Scoring.BreakdownShape` |
| `Scoring.Breakdown` | lib/scoring.js:16-76 | the `breakdown` object holds an entry for every metric; each entry's content is `Scoring.BreakdownShape` and `ScoringProperties.BreakdownInvariant` |
| `Scoring.BreakdownShape` | lib/scoring.js:16-76 | the breakdown holds every metric, and each entry is the metric's score, its weight and their product |
| `Scoring.SumsOverMetricOrder` | lib/scoring.js:79-82 | the two accumulated sums, written out as the six terms in insertion order |
| `Scoring.BreakdownFromEntries` | lib/scoring.js:16-76 | a map holding each metric's result is the breakdown |
| `Scoring.ExactScoreFormula` | lib/scoring.js:79-85 | the unrounded headline equals (2R + 1.5L + S + 0.8F + 1.2C + 1.5W)/8 of the six sub-scores |
| `Scoring.MaxPossible` | lib/scoring.js:81 | `maxPossibleScore` is 80, so the division never divides by zero |
| `Scoring.TotalWeighted` | lib/scoring.js:79-80 | `totalScore`, the sum of every entry's weighted score; its closed form is `Scoring.TotalWeightedFormula` and the loop that computes it is `Scoring.SumBreakdown` |
| `Scoring.ExactScore` | lib/scoring.js:85 | `finalScore = (totalScore / maxPossibleScore) · 10`; its closed form is `Scoring.ExactScoreFormula`, its bounds are `ScoringProperties.ScoreBounds` |
| `Scoring.Report` | lib/scoring.js:84-90 | the returned score lies in [0, 10], is a multiple of 0.1, and is within 0.05 of the unrounded headline `ExactScore`; its value as a weighted mean is `Scoring.ExactScoreFormula` |
| `Scoring.TotalWeightedFormula` | lib/scoring.js:79-80 | `totalScore` is 2R + 1.5L + S + 0.8F + 1.2C + 1.5W of the six sub-scores |
| `Scoring.SumWeighted` | lib/scoring.js:79-80 | `totalScore` of the `forEach` as a sum over a key order, one term added per visited entry; `Scoring.SumsOverMetricOrder` writes it out over the six metrics, and `Scoring.SumBreakdown`'s loop is proved to compute it |
| `Scoring.SumPossible` | lib/scoring.js:79-81 | `maxPossibleScore` of the `forEach`, one `10·weight` per visited entry; `Scoring.SumsOverMetricOrder` and `Scoring.MaxPossible` give its value 80 |
| `Scoring.SumBreakdown` | lib/scoring.js:79-82 | the loop leaves `totalScore` = Σ weightedScore and `maxPossibleScore` = Σ 10·weight over the six metrics |
| `Scoring.CalculateScore` | lib/scoring.js:15-90 | the method that fills the breakdown field by field, with the binary metrics writing `10·W` or 0 directly, returns exactly the specified report |
| `ScoringProperties.BreakdownInvariant` | lib/scoring.js:22-76 | every metric is present, has its table weight, has a score in [0, 10], and has weightedScore = score·weight |
| `ScoringProperties.BreakdownKeys` | lib/scoring.js:16-76 | the breakdown has exactly the keys readme, license, stars, forks, recentCommits and ciWorkflows |
| `ScoringProperties.ResultOfInvariant` | lib/scoring.js:22-76 | one metric's result has its table weight, a score in [0, 10], and weightedScore = score·weight |
| `ScoringProperties.ReadmeScore` | lib/scoring.js:20-26 | readme scores 10 exactly when `object.text` is present and non-empty, and 0 otherwise; its weighted score is 10·2.0 or 0 |
| `ScoringProperties.LicenseScore` | lib/scoring.js:28-34 | license scores 10 exactly when `licenseInfo.name` is present and non-empty, and 0 otherwise; its weighted score is 10·1.5 or 0 |
| `ScoringProperties.StarsScoreShape` | lib/scoring.js:36-42 | `min(stars/100, 10)` is monotone, is linear below 1000 stars, and is 10 exactly from 1000 stars on |
| `ScoringProperties.ForksScoreShape` | lib/scoring.js:44-50 | `min(forks/50, 10)` is monotone, is linear below 500 forks, and is 10 exactly from 500 forks on |
| `ScoringProperties.RecentCommitsScore` | lib/scoring.js:52-66 | recentCommits scores `min(n, 10)`, where n counts the commits dated strictly after now minus 30 days |
| `ScoringProperties.MissingHistoryScoresZero` | lib/scoring.js:53 | a missing branch, target, history or node list counts as an empty history and scores 0 |
| `ScoringProperties.RecentWindowIsStrict` | lib/scoring.js:58 | a commit exactly 30 days old does not count; one millisecond younger, it does |
| `GitHubData.CommitHistoryLimit` | lib/github.js:27 | `history(first: 10)`: at most 10 commit nodes are returned |
| `GitHubData.WorkflowLimit` | lib/github.js:40 | `workflows(first: 5)`: at most 5 workflow nodes are returned |
| `GitHubData.WithinQueryLimits` | lib/github.js:27-40 | a repository the query can return has at most 10 commit nodes and 5 workflow nodes; `ScoringProperties.RecentCommitsWithinLimit` uses it |
| `ScoringProperties.RecentCommitsWithinLimit` | lib/github.js:27 | with at most 10 commits, as `history(first: 10)` guarantees, the commit score equals the recent count |
| `ScoringProperties.CiWorkflowsScore` | lib/scoring.js:68-76 | ciWorkflows scores `min(2·n, 10)`, where n counts the workflows whose state is `ACTIVE` |
| `ScoringProperties.MissingWorkflowsScoreZero` | lib/scoring.js:69 | missing `workflows` or `workflows.nodes` scores 0 |
| `ScoringProperties.ExactScoreIsWeightedMean` | lib/scoring.js:78-85 | the unrounded headline is 10·Σ weightedScore / 80, which is the weighted mean (2R + 1.5L + S + 0.8F + 1.2C + 1.5W)/8 of the sub-scores |
| `ScoringProperties.ScoreBounds` | lib/scoring.js:84-88 | the exact and the rounded headline both lie in [0, 10], and rounding moves the value by at most 0.05 |
| `ScoringProperties.EmptyRepositoryScoresZero` | lib/scoring.js:20-88 | with every optional field absent and both counts 0, the headline is 0 |
| `ScoringProperties.SaturatedRepositoryScoresTen` | lib/scoring.js:20-88 | with every signal saturated, the headline is 10 |
| `ScoringProperties.MoreStarsNeverLowerScore` | lib/scoring.js:36-42 | more stars, all else equal, never lower the exact or the rounded headline |
| `ScoringProperties.StarsFlatFromThousand` | lib/scoring.js:37 | from 1000 stars on, more stars leave the whole report unchanged |
| `ScoringProperties.WellMaintainedExample` | lib/scoring.js:15-90 | 150 stars, 30 forks, README, license, 2 recent commits and 2 active workflows give exactly 5.6725, reported as 5.7 |
| `StaticData.CacheDuration` | lib/staticData.js:9 | `CACHE_DURATION` is 24 h in milliseconds; what it decides is `StaticData.FindFresh`, `StaticData.ExpiredEntryIsMiss` and `StaticData.MissThenHit` |
| `StaticData.FindFresh` | lib/staticData.js:22-26 | the lookup finds an entry exactly when one is stored under (owner, repo) with timestamp strictly after now − 24 h |
| `StaticData.Compute` | lib/staticData.js:33-34 | fetching then scoring gives a report exactly when the fetch returned a repository; that report's breakdown is the repository's breakdown and its score lies in [0, 10]; a thrown fetch and a `null` repository both give `None` |
| `StaticData.Step` | lib/staticData.js:16-55 | one call keeps every document stored under its own key |
| `StaticData.ScoreCache.GetRepositoryScore` | lib/staticData.js:16-55 | hit: returns the stored report with no fetch and no write. Miss: fetches once, then either upserts and returns the fresh report, or returns `None` with the cache unchanged |
| `StaticData.HitReturnsStored` | lib/staticData.js:28-30 | a fresh entry is returned as stored and the collection is not changed, whatever the fetch would do |
| `StaticData.ExpiredEntryIsMiss` | lib/staticData.js:25 | an entry that is `CACHE_DURATION` old or older behaves as if absent |
| `StaticData.MissStoresReport` | lib/staticData.js:33-50 | a successful miss returns the score and upserts `{owner, repo, score, timestamp: now}` under (owner, repo) |
| `StaticData.UpsertTouchesOnlyItsKey` | lib/staticData.js:37-48 | the set of other keys and each of their entries stay as they were |
| `StaticData.FailureWritesNothing` | lib/staticData.js:51-54 | a failed fetch or an unscorable repository writes nothing and, on a miss, gives `None` |
| `StaticData.MissThenHit` | lib/staticData.js:22-48 | after a successful miss at t, any call at t′ with t′ − t < 24 h is a hit on the same report; from t + 24 h on it is a miss |
| `StaticData.RepeatedRequest` | lib/staticData.js:16-55 | two calls less than 24 h apart, the first a successful miss, return the same report with a single fetch |
| `LegacyScoring.Flag` | __tests__/scoring.test.js:19-21 | truthiness of a boolean-or-null flag: only `true` counts; its effect is `LegacyScoring.BreakdownShape` and `LegacyScoring.MinimalRepositoryScoresZero` |
| `LegacyScoring.RawSum` | __tests__/scoring.test.js:16-23 | the uncapped sum is stars/100 + forks/50 plus between 0 and 6.5 points from the five flags; which flag adds how many points is `LegacyScoring.RawSumFromBreakdown` |
| `LegacyScoring.Binary` | __tests__/scoring.test.js:32-36 | `cond ? 10 : 0`: the score is 10 exactly when the condition holds and 0 exactly when it does not |
| `LegacyScoring.CalculateScore` | __tests__/scoring.test.js:15-39 | the legacy headline lies in [0, 10] and never exceeds the raw sum; the breakdown has exactly the seven keys and every score in [0, 10]; the cap itself is `LegacyScoring.HeadlineBounds` |
| `LegacyScoring.HeadlineBounds` | __tests__/scoring.test.js:16-25 | the headline is the raw sum capped at 10, so it lies in [0, 10] |
| `LegacyScoring.BreakdownShape` | __tests__/scoring.test.js:29-37 | the breakdown has exactly the seven keys, every score lies in [0, 10], and the flag metrics score 10 or 0 |
| `LegacyScoring.FlagEntries` | __tests__/scoring.test.js:32-36 | issues, wiki and pages score 10 exactly when their flag is `true`; license exactly when it is present; description exactly when it is present and not empty |
| `LegacyScoring.RawSumFromBreakdown` | __tests__/scoring.test.js:16-36 | the raw sum is stars/100 + forks/50 + 0.2·issues + 0.1·wiki + 0.1·pages + 0.15·license + 0.1·description of the breakdown scores, so the flags add 2, 1, 1, 1.5 and 1 points |
| `LegacyScoring.Weights` | __tests__/scoring.test.js:79-85 | the weights are 1, 0.8, 0.5, 0.3, 0.3, 0.5 and 0.3 |
| `LegacyScoring.StarsAndForksCap` | __tests__/scoring.test.js:30-31 | stars reach 10 exactly from 1000 and forks exactly from 500; below that both are linear |
| `LegacyScoring.MoreStarsNeverLowerScore` | __tests__/scoring.test.js:16-25 | more stars never lower the legacy headline |
| `LegacyScoring.MockRepositoryScore` | __tests__/scoring.test.js:41-44 | the test's mock repository scores 8.6, which is above 0 |
| `LegacyScoring.HighCountsCapAtTen` | __tests__/scoring.test.js:88-97 | 2000 stars and 1000 forks give stars and forks sub-scores of exactly 10 |
| `LegacyScoring.MinimalRepositoryScoresZero` | __tests__/scoring.test.js:54-66 | zero counts with every flag false or null make every term, every sub-score and the headline 0 |

## Left out

- The GraphQL client of lib/github.js (token, network, error logging). Only the shape of its result is modelled, as `GitHubData.Repository`. Fetching is a function given to the cache.
- MongoDB: connecting, `MONGODB_URI`, and failures of `findOne` or `updateOne`. The collection is an in-memory map, and reads and writes cannot fail. The `console.error` logging in the `catch` block of `getRepositoryScore` is left out as output; only its `null` result is modelled.
- Concurrent duplicate misses, whose outcome is last write wins. Calls are sequential.
- Floating point: weights and scores are exact reals. `toFixed(1)` is exact rounding to the nearest tenth, so it inherits none of the binary-representation quirks of `toFixed`.
- `null` elements inside `history.nodes` or `workflows.nodes`. On such an element the filter callback of `calculateScore` throws and `getRepositoryScore` returns `null`. The model's node lists hold only well-formed nodes, so `StaticData.Compute` never gives `None` for a fetched repository.
- `NaN` from an undefined `stargazerCount` or `forkCount`, and in the legacy scorer from an undefined `stargazers_count` or `forks_count`: counts are always natural numbers (`GitHubData.Repository` and `LegacyScoring.RestRepository`).
- Parsing `committedDate` strings, and the calendar arithmetic of `setDate(getDate() - 30)`. Dates are integers, and the window is a fixed 30 × 86,400,000 ms.
- Separate clock readings: the source reads the clock again for each commit, for the cache lookup and for the stored timestamp. The model uses one `now` per call.
- The React pages and the build and styling configuration.
