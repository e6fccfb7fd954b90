/** lib/scoring.js: the weight table and `calculateScore`, which turns one
    repository record into six weighted metrics and a headline score that is
    their weight-normalised mean, rounded to one decimal. */
module Scoring {
  import opened Wrappers
  import opened GitHubData
  import opened Numbers
  import Counting

  datatype Metric = Readme | License | Stars | Forks | RecentCommits | CiWorkflows

  /** The order in which `calculateScore` adds the keys of `breakdown`, which
      is the order in which `Object.values(breakdown)` visits them. */
  const MetricOrder: seq<Metric> := [Readme, License, Stars, Forks, RecentCommits, CiWorkflows]

  /** `WEIGHTS`. */
  function Weight(m: Metric): (w: real)
    ensures w > 0.0
  {
    match m
    case Readme => 2.0
    case License => 1.5
    case Stars => 1.0
    case Forks => 0.8
    case RecentCommits => 1.2
    case CiWorkflows => 1.5
  }

  datatype MetricResult = MetricResult(score: real, weight: real, weightedScore: real)

  /** The object `calculateScore` returns: `{ score, breakdown }`. */
  datatype ScoreReport = ScoreReport(score: real, breakdown: map<Metric, MetricResult>)

  /** Thirty days in milliseconds: the recent-commit window. */
  const RecentWindow: int := 30 * 24 * 60 * 60 * 1000

  /** `!!repoData.object?.text`. */
  predicate HasReadme(r: Repository)
  {
    r.readme.Some? && Truthy(r.readme.value.text)
  }

  /** `!!repoData.licenseInfo?.name`. */
  predicate HasLicense(r: Repository)
  {
    r.licenseInfo.Some? && Truthy(r.licenseInfo.value.name)
  }

  /** `Math.min(stargazerCount / 100, 10)`. */
  function StarsScore(stargazerCount: nat): (s: real)
    ensures 0.0 <= s <= 10.0
    ensures s == 10.0 <==> stargazerCount >= 1000
  {
    Min(stargazerCount as real / 100.0, 10.0)
  }

  /** `Math.min(forkCount / 50, 10)`. */
  function ForksScore(forkCount: nat): (s: real)
    ensures 0.0 <= s <= 10.0
    ensures s == 10.0 <==> forkCount >= 500
  {
    Min(forkCount as real / 50.0, 10.0)
  }

  /** The filter of the recent-commit count: committed strictly after `now`
      minus thirty days. */
  function IsRecent(now: int): CommitNode -> bool
  {
    (c: CommitNode) => c.committedDate > now - RecentWindow
  }

  /** `recentCommits`: the number of commits in the window. */
  function RecentCommitCount(r: Repository, now: int): (n: nat)
    ensures n <= |CommitNodes(r)|
  {
    Counting.CountWhere(CommitNodes(r), IsRecent(now))
  }

  /** `Math.min(recentCommits, 10)`. */
  function CommitsScore(recentCommits: nat): (s: real)
    ensures 0.0 <= s <= 10.0
    ensures s == 10.0 <==> recentCommits >= 10
  {
    Min(recentCommits as real, 10.0)
  }

  /** The filter of the workflow count: `w.state === 'ACTIVE'`. */
  function IsActive(): WorkflowNode -> bool
  {
    (w: WorkflowNode) => w.state == "ACTIVE"
  }

  /** `activeWorkflows`: the number of workflows whose state is `ACTIVE`. */
  function ActiveWorkflowCount(r: Repository): (n: nat)
    ensures n <= |WorkflowNodes(r)|
  {
    Counting.CountWhere(WorkflowNodes(r), IsActive())
  }

  /** `Math.min(activeWorkflows * 2, 10)`. */
  function WorkflowsScore(activeWorkflows: nat): (s: real)
    ensures 0.0 <= s <= 10.0
    ensures s == 10.0 <==> activeWorkflows >= 5
  {
    Min(activeWorkflows as real * 2.0, 10.0)
  }

  /** The sub-score of one metric: the six extractors of `calculateScore`. */
  function SubScore(m: Metric, r: Repository, now: int): (s: real)
    ensures 0.0 <= s <= 10.0
    ensures (m == Readme || m == License) ==> s == 0.0 || s == 10.0
  {
    match m
    case Readme => if HasReadme(r) then 10.0 else 0.0
    case License => if HasLicense(r) then 10.0 else 0.0
    case Stars => StarsScore(r.stargazerCount)
    case Forks => ForksScore(r.forkCount)
    case RecentCommits => CommitsScore(RecentCommitCount(r, now))
    case CiWorkflows => WorkflowsScore(ActiveWorkflowCount(r))
  }

  /** `MetricOrder` lists every metric. */
  lemma EveryMetricInOrder()
    ensures forall m: Metric :: m in MetricOrder
  {
    forall m: Metric ensures m in MetricOrder {
      match m
      case Readme => assert MetricOrder[0] == m;
      case License => assert MetricOrder[1] == m;
      case Stars => assert MetricOrder[2] == m;
      case Forks => assert MetricOrder[3] == m;
      case RecentCommits => assert MetricOrder[4] == m;
      case CiWorkflows => assert MetricOrder[5] == m;
    }
  }

  /** One breakdown entry: `{ score, weight, weightedScore }`. */
  function ResultOf(m: Metric, r: Repository, now: int): (result: MetricResult)
  {
    var s := SubScore(m, r, now);
    MetricResult(s, Weight(m), s * Weight(m))
  }

  /** The `breakdown` object: one entry per metric. */
  function Breakdown(r: Repository, now: int): (breakdown: map<Metric, MetricResult>)
    ensures forall m: Metric :: m in breakdown
  {
    EveryMetricInOrder();
    map m | m in MetricOrder :: ResultOf(m, r, now)
  }

  /** Sum of `weightedScore` over `ms`, accumulated from the front. */
  function SumWeighted(ms: seq<Metric>, breakdown: map<Metric, MetricResult>): real
    requires forall i | 0 <= i < |ms| :: ms[i] in breakdown
  {
    if ms == [] then 0.0
    else SumWeighted(ms[..|ms| - 1], breakdown) + breakdown[ms[|ms| - 1]].weightedScore
  }

  /** Sum of `10 * weight` over `ms`, accumulated from the front. */
  function SumPossible(ms: seq<Metric>, breakdown: map<Metric, MetricResult>): real
    requires forall i | 0 <= i < |ms| :: ms[i] in breakdown
  {
    if ms == [] then 0.0
    else SumPossible(ms[..|ms| - 1], breakdown) + 10.0 * breakdown[ms[|ms| - 1]].weight
  }

  /** The two sums over all six metrics, one term per metric. */
  lemma SumsOverMetricOrder(breakdown: map<Metric, MetricResult>)
    requires forall m: Metric :: m in breakdown
    ensures SumWeighted(MetricOrder, breakdown)
         == breakdown[Readme].weightedScore + breakdown[License].weightedScore
          + breakdown[Stars].weightedScore + breakdown[Forks].weightedScore
          + breakdown[RecentCommits].weightedScore + breakdown[CiWorkflows].weightedScore
    ensures SumPossible(MetricOrder, breakdown)
         == 10.0 * (breakdown[Readme].weight + breakdown[License].weight
          + breakdown[Stars].weight + breakdown[Forks].weight
          + breakdown[RecentCommits].weight + breakdown[CiWorkflows].weight)
  {
    var o := MetricOrder;
    var p5, p4, p3, p2, p1 := o[..5], o[..4], o[..3], o[..2], o[..1];
    assert o[..5] == p5 && p5[..4] == p4 && p4[..3] == p3 && p3[..2] == p2 && p2[..1] == p1 && p1[..0] == [];
    assert SumWeighted(p1, breakdown) == breakdown[Readme].weightedScore;
    assert SumWeighted(p2, breakdown) == SumWeighted(p1, breakdown) + breakdown[License].weightedScore;
    assert SumWeighted(p3, breakdown) == SumWeighted(p2, breakdown) + breakdown[Stars].weightedScore;
    assert SumWeighted(p4, breakdown) == SumWeighted(p3, breakdown) + breakdown[Forks].weightedScore;
    assert SumWeighted(p5, breakdown) == SumWeighted(p4, breakdown) + breakdown[RecentCommits].weightedScore;
    assert SumWeighted(o, breakdown) == SumWeighted(p5, breakdown) + breakdown[CiWorkflows].weightedScore;
    assert SumPossible(p1, breakdown) == 10.0 * breakdown[Readme].weight;
    assert SumPossible(p2, breakdown) == SumPossible(p1, breakdown) + 10.0 * breakdown[License].weight;
    assert SumPossible(p3, breakdown) == SumPossible(p2, breakdown) + 10.0 * breakdown[Stars].weight;
    assert SumPossible(p4, breakdown) == SumPossible(p3, breakdown) + 10.0 * breakdown[Forks].weight;
    assert SumPossible(p5, breakdown) == SumPossible(p4, breakdown) + 10.0 * breakdown[RecentCommits].weight;
    assert SumPossible(o, breakdown) == SumPossible(p5, breakdown) + 10.0 * breakdown[CiWorkflows].weight;
  }

  /** The breakdown holds every metric with its own weight. */
  lemma BreakdownShape(r: Repository, now: int)
    ensures forall m: Metric :: m in Breakdown(r, now) && Breakdown(r, now)[m] == ResultOf(m, r, now)
  {
    EveryMetricInOrder();
  }

  /** A map that holds every metric's result is the breakdown. */
  lemma BreakdownFromEntries(r: Repository, now: int, breakdown: map<Metric, MetricResult>)
    requires forall m: Metric :: m in breakdown && breakdown[m] == ResultOf(m, r, now)
    ensures breakdown == Breakdown(r, now)
  {
    BreakdownShape(r, now);
    assert breakdown.Keys == Breakdown(r, now).Keys;
  }

  /** `totalScore` of the source: the sum of the six weighted scores. */
  function TotalWeighted(r: Repository, now: int): real
  {
    BreakdownShape(r, now);
    SumWeighted(MetricOrder, Breakdown(r, now))
  }

  /** `maxPossibleScore` of the source: the sum of `10 * weight`. */
  function MaxPossible(r: Repository, now: int): (p: real)
    ensures p == 80.0
  {
    var bd := Breakdown(r, now);
    BreakdownShape(r, now);
    SumsOverMetricOrder(bd);
    SumPossible(MetricOrder, bd)
  }

  /** `(totalScore / maxPossibleScore) * 10`, before rounding. */
  function ExactScore(r: Repository, now: int): real
  {
    (TotalWeighted(r, now) / MaxPossible(r, now)) * 10.0
  }

  /** `totalScore` as the weighted sum of the six sub-scores. */
  lemma TotalWeightedFormula(r: Repository, now: int)
    ensures TotalWeighted(r, now)
         == 2.0 * SubScore(Readme, r, now) + 1.5 * SubScore(License, r, now)
          + 1.0 * SubScore(Stars, r, now) + 0.8 * SubScore(Forks, r, now)
          + 1.2 * SubScore(RecentCommits, r, now) + 1.5 * SubScore(CiWorkflows, r, now)
  {
    var bd := Breakdown(r, now);
    BreakdownShape(r, now);
    SumsOverMetricOrder(bd);
  }

  /** The unrounded headline as the weighted mean of the six sub-scores. */
  lemma ExactScoreFormula(r: Repository, now: int)
    ensures ExactScore(r, now)
         == (2.0 * SubScore(Readme, r, now) + 1.5 * SubScore(License, r, now)
             + 1.0 * SubScore(Stars, r, now) + 0.8 * SubScore(Forks, r, now)
             + 1.2 * SubScore(RecentCommits, r, now) + 1.5 * SubScore(CiWorkflows, r, now)) / 8.0
  {
    TotalWeightedFormula(r, now);
  }

  /** What `calculateScore(repoData)` returns when the clock reads `now`. */
  function Report(r: Repository, now: int): (report: ScoreReport)
    ensures 0.0 <= report.score <= 10.0
    ensures (report.score * 10.0).Floor as real == report.score * 10.0
    ensures -0.05 < report.score - ExactScore(r, now) <= 0.05
  {
    ExactScoreFormula(r, now);
    Round1Bounds(ExactScore(r, now));
    ScoreReport(Round1(ExactScore(r, now)), Breakdown(r, now))
  }

  /** The `forEach` over `Object.values(breakdown)` that accumulates
      `totalScore` and `maxPossibleScore`, visiting the metrics in insertion order. */
  method SumBreakdown(breakdown: map<Metric, MetricResult>) returns (totalScore: real, maxPossibleScore: real)
    requires forall m: Metric :: m in breakdown
    ensures totalScore == SumWeighted(MetricOrder, breakdown)
    ensures maxPossibleScore == SumPossible(MetricOrder, breakdown)
  {
    totalScore, maxPossibleScore := 0.0, 0.0;
    var i := 0;
    while i < |MetricOrder|
      invariant 0 <= i <= |MetricOrder|
      invariant totalScore == SumWeighted(MetricOrder[..i], breakdown)
      invariant maxPossibleScore == SumPossible(MetricOrder[..i], breakdown)
    {
      var metric := breakdown[MetricOrder[i]];
      assert MetricOrder[..i + 1][..i] == MetricOrder[..i];
      totalScore := totalScore + metric.weightedScore;
      maxPossibleScore := maxPossibleScore + 10.0 * metric.weight;
      i := i + 1;
    }
    assert MetricOrder[..i] == MetricOrder;
  }

  /** `calculateScore`: builds `breakdown` one metric at a time, then sums the
      weighted scores and the maximum possible scores over the breakdown's
      values, and normalises. */
  method CalculateScore(repoData: Repository, now: int) returns (report: ScoreReport)
    ensures report == Report(repoData, now)
  {
    var breakdown: map<Metric, MetricResult> := map[];

    var hasReadme := HasReadme(repoData);
    breakdown := breakdown[Readme := MetricResult(
      if hasReadme then 10.0 else 0.0, Weight(Readme), if hasReadme then 10.0 * Weight(Readme) else 0.0)];

    var hasLicense := HasLicense(repoData);
    breakdown := breakdown[License := MetricResult(
      if hasLicense then 10.0 else 0.0, Weight(License), if hasLicense then 10.0 * Weight(License) else 0.0)];

    var starsScore := StarsScore(repoData.stargazerCount);
    breakdown := breakdown[Stars := MetricResult(starsScore, Weight(Stars), starsScore * Weight(Stars))];

    var forksScore := ForksScore(repoData.forkCount);
    breakdown := breakdown[Forks := MetricResult(forksScore, Weight(Forks), forksScore * Weight(Forks))];

    var recentCommits := Counting.CountWhere(CommitNodes(repoData), IsRecent(now));
    var commitsScore := CommitsScore(recentCommits);
    breakdown := breakdown[RecentCommits := MetricResult(
      commitsScore, Weight(RecentCommits), commitsScore * Weight(RecentCommits))];

    var activeWorkflows := Counting.CountWhere(WorkflowNodes(repoData), IsActive());
    var workflowsScore := WorkflowsScore(activeWorkflows);
    breakdown := breakdown[CiWorkflows := MetricResult(
      workflowsScore, Weight(CiWorkflows), workflowsScore * Weight(CiWorkflows))];

    forall m: Metric ensures m in breakdown && breakdown[m] == ResultOf(m, repoData, now) {
      match m
      case Readme =>
      case License =>
      case Stars =>
      case Forks =>
      case RecentCommits =>
      case CiWorkflows =>
    }
    BreakdownFromEntries(repoData, now, breakdown);

    var totalScore, maxPossibleScore := SumBreakdown(breakdown);
    assert maxPossibleScore == MaxPossible(repoData, now);

    var finalScore := (totalScore / maxPossibleScore) * 10.0;
    report := ScoreReport(Round1(finalScore), breakdown);
  }
}
