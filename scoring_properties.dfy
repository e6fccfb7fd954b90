/** What lib/scoring.js promises of `calculateScore`, proved about the model
    in module Scoring. */
module ScoringProperties {
  import opened Wrappers
  import opened GitHubData
  import opened Numbers
  import opened Scoring
  import Counting

  /** A breakdown entry for metric `m`: the metric's weight, a score in
      [0, 10], and a weighted score that is the product of the two. */
  predicate WellFormedEntry(m: Metric, e: MetricResult)
  {
    e.weight == Weight(m) && 0.0 <= e.score <= 10.0 && e.weightedScore == e.score * e.weight
  }

  /** Every metric is in the breakdown, and every entry is well formed. */
  lemma BreakdownInvariant(r: Repository, now: int)
    ensures forall m: Metric :: m in Breakdown(r, now) && WellFormedEntry(m, Breakdown(r, now)[m])
  {
    forall m: Metric ensures m in Breakdown(r, now) && WellFormedEntry(m, Breakdown(r, now)[m]) {
      BreakdownShape(r, now);
      ResultOfInvariant(m, r, now);
    }
  }

  /** One metric's result is a well-formed entry. */
  lemma ResultOfInvariant(m: Metric, r: Repository, now: int)
    ensures WellFormedEntry(m, ResultOf(m, r, now))
  {
  }

  /** The breakdown has exactly the six keys. */
  lemma BreakdownKeys(r: Repository, now: int)
    ensures Breakdown(r, now).Keys == {Readme, License, Stars, Forks, RecentCommits, CiWorkflows}
  {
    BreakdownShape(r, now);
    var bd := Breakdown(r, now);
    assert Readme in bd && License in bd && Stars in bd && Forks in bd && RecentCommits in bd && CiWorkflows in bd;
  }

  /** The binary metrics: 10 exactly when the field is present and not empty,
      0 otherwise (a missing nested object included), and the weighted score
      is `10 * weight` or 0. */
  lemma ReadmeScore(r: Repository, now: int)
    ensures var e := Breakdown(r, now)[Readme];
      && (e.score == 10.0 <==> r.readme.Some? && r.readme.value.text.Some? && |r.readme.value.text.value| > 0)
      && (e.score == 10.0 || e.score == 0.0)
      && e.weightedScore == (if e.score == 10.0 then 10.0 * Weight(Readme) else 0.0)
  {
    BreakdownShape(r, now);
  }

  lemma LicenseScore(r: Repository, now: int)
    ensures var e := Breakdown(r, now)[License];
      && (e.score == 10.0 <==> r.licenseInfo.Some? && r.licenseInfo.value.name.Some? && |r.licenseInfo.value.name.value| > 0)
      && (e.score == 10.0 || e.score == 0.0)
      && e.weightedScore == (if e.score == 10.0 then 10.0 * Weight(License) else 0.0)
  {
    BreakdownShape(r, now);
  }

  /** `min(count / 100, 10)`: monotone, below 10 under 1000 stars and flat at 10 from there. */
  lemma StarsScoreShape(a: nat, b: nat)
    requires a <= b
    ensures StarsScore(a) <= StarsScore(b)
    ensures StarsScore(a) == 10.0 <==> a >= 1000
    ensures a < 1000 ==> StarsScore(a) == a as real / 100.0
  {
  }

  /** `min(count / 50, 10)`: monotone, below 10 under 500 forks and flat at 10 from there. */
  lemma ForksScoreShape(a: nat, b: nat)
    requires a <= b
    ensures ForksScore(a) <= ForksScore(b)
    ensures ForksScore(a) == 10.0 <==> a >= 500
    ensures a < 500 ==> ForksScore(a) == a as real / 50.0
  {
  }

  /** The recent-commits score is `min(n, 10)` where n counts the commits
      dated strictly after `now` minus thirty days. */
  lemma RecentCommitsScore(r: Repository, now: int)
    ensures var nodes := CommitNodes(r);
      Breakdown(r, now)[RecentCommits].score
        == Min((|set i | 0 <= i < |nodes| && nodes[i].committedDate > now - RecentWindow|) as real, 10.0)
  {
    BreakdownShape(r, now);
    var nodes := CommitNodes(r);
    Counting.CountWhereIsCardinality(nodes, IsRecent(now));
    assert Counting.Matching(nodes, IsRecent(now))
        == set i | 0 <= i < |nodes| && nodes[i].committedDate > now - RecentWindow;
  }

  /** A missing `defaultBranchRef`, `target`, `history` or `nodes` is an empty
      history: score 0, no error. */
  lemma MissingHistoryScoresZero(r: Repository, now: int)
    requires || r.defaultBranchRef.None?
             || r.defaultBranchRef.value.target.None?
             || r.defaultBranchRef.value.target.value.history.None?
             || r.defaultBranchRef.value.target.value.history.value.nodes.None?
    ensures Breakdown(r, now)[RecentCommits].score == 0.0
  {
    BreakdownShape(r, now);
  }

  /** The window is strict: a commit exactly thirty days old does not count;
      one millisecond earlier on the clock, it does. */
  lemma RecentWindowIsStrict(r: Repository, now: int)
    requires r.defaultBranchRef == Some(BranchRef(Some(Target(Some(History(Some([CommitNode(now - RecentWindow)])))))))
    ensures Breakdown(r, now)[RecentCommits].score == 0.0
    ensures Breakdown(r, now - 1)[RecentCommits].score == 1.0
  {
    BreakdownShape(r, now);
    BreakdownShape(r, now - 1);
    assert [CommitNode(now - RecentWindow)][..0] == [];
  }

  /** Within the query's `history(first: 10)` limit the cap of 10 is never
      reached below the count itself: the score is the count. */
  lemma RecentCommitsWithinLimit(r: Repository, now: int)
    requires WithinQueryLimits(r)
    ensures Breakdown(r, now)[RecentCommits].score == RecentCommitCount(r, now) as real
  {
    BreakdownShape(r, now);
  }

  /** The CI score is `min(2 * n, 10)` where n counts the workflows whose state
      is `ACTIVE`. */
  lemma CiWorkflowsScore(r: Repository, now: int)
    ensures var nodes := WorkflowNodes(r);
      Breakdown(r, now)[CiWorkflows].score
        == Min(2.0 * (|set i | 0 <= i < |nodes| && nodes[i].state == "ACTIVE"|) as real, 10.0)
  {
    BreakdownShape(r, now);
    var nodes := WorkflowNodes(r);
    Counting.CountWhereIsCardinality(nodes, IsActive());
    assert Counting.Matching(nodes, IsActive())
        == set i | 0 <= i < |nodes| && nodes[i].state == "ACTIVE";
  }

  /** A missing `workflows` or `workflows.nodes` scores 0. */
  lemma MissingWorkflowsScoreZero(r: Repository, now: int)
    requires r.workflows.None? || r.workflows.value.nodes.None?
    ensures Breakdown(r, now)[CiWorkflows].score == 0.0
  {
    BreakdownShape(r, now);
  }

  /** The headline before rounding is the weight-normalised mean
      `10 * sum(weightedScore) / sum(10 * weight)`, the denominator is 80, and
      in terms of the sub-scores it is their weighted mean. */
  lemma ExactScoreIsWeightedMean(r: Repository, now: int)
    ensures var bd := Breakdown(r, now);
      && MaxPossible(r, now) == 80.0
      && ExactScore(r, now) == 10.0 * TotalWeighted(r, now) / 80.0
      && ExactScore(r, now)
         == (2.0 * bd[Readme].score + 1.5 * bd[License].score + 1.0 * bd[Stars].score
             + 0.8 * bd[Forks].score + 1.2 * bd[RecentCommits].score + 1.5 * bd[CiWorkflows].score) / 8.0
  {
    var bd := Breakdown(r, now);
    BreakdownShape(r, now);
    SumsOverMetricOrder(bd);
    ExactScoreFormula(r, now);
  }

  /** Both the exact and the rounded headline lie in [0, 10], and rounding moves
      the value by at most 0.05. */
  lemma ScoreBounds(r: Repository, now: int)
    ensures 0.0 <= ExactScore(r, now) <= 10.0
    ensures 0.0 <= Report(r, now).score <= 10.0
    ensures -0.05 < Report(r, now).score - ExactScore(r, now) <= 0.05
  {
    ExactScoreFormula(r, now);
    Round1Bounds(ExactScore(r, now));
  }

  /** No README, no license, no history, no workflows, and no stars or forks:
      the headline is 0. */
  lemma EmptyRepositoryScoresZero(r: Repository, now: int)
    requires r.readme.None? && r.licenseInfo.None? && r.defaultBranchRef.None? && r.workflows.None?
    requires r.stargazerCount == 0 && r.forkCount == 0
    ensures ExactScore(r, now) == 0.0
    ensures Report(r, now).score == 0.0
  {
    ExactScoreFormula(r, now);
    Round1OfTenth(0);
  }

  /** Every signal saturated: the headline is 10. */
  lemma SaturatedRepositoryScoresTen(r: Repository, now: int)
    requires HasReadme(r) && HasLicense(r)
    requires r.stargazerCount >= 1000 && r.forkCount >= 500
    requires RecentCommitCount(r, now) >= 10 && ActiveWorkflowCount(r) >= 5
    ensures ExactScore(r, now) == 10.0
    ensures Report(r, now).score == 10.0
  {
    ExactScoreFormula(r, now);
    Round1OfTenth(100);
  }

  /** More stars, everything else equal, never lowers the headline. */
  lemma MoreStarsNeverLowerScore(r: Repository, now: int, stars: nat)
    requires r.stargazerCount <= stars
    ensures ExactScore(r, now) <= ExactScore(r.(stargazerCount := stars), now)
    ensures Report(r, now).score <= Report(r.(stargazerCount := stars), now).score
  {
    var r' := r.(stargazerCount := stars);
    ExactScoreFormula(r, now);
    ExactScoreFormula(r', now);
    StarsScoreShape(r.stargazerCount, stars);
    assert SubScore(Stars, r, now) <= SubScore(Stars, r', now);
    assert SubScore(Readme, r, now) == SubScore(Readme, r', now);
    assert SubScore(License, r, now) == SubScore(License, r', now);
    assert SubScore(Forks, r, now) == SubScore(Forks, r', now);
    assert SubScore(RecentCommits, r, now) == SubScore(RecentCommits, r', now);
    assert SubScore(CiWorkflows, r, now) == SubScore(CiWorkflows, r', now);
    assert ExactScore(r, now) <= ExactScore(r', now);
    Round1Monotone(ExactScore(r, now), ExactScore(r', now));
  }

  /** From 1000 stars on, more stars change nothing in the report. */
  lemma StarsFlatFromThousand(r: Repository, now: int, stars: nat)
    requires 1000 <= r.stargazerCount && 1000 <= stars
    ensures Report(r, now) == Report(r.(stargazerCount := stars), now)
  {
    var r' := r.(stargazerCount := stars);
    BreakdownShape(r, now);
    forall m: Metric ensures ResultOf(m, r, now) == ResultOf(m, r', now) {
      StarsScoreShape(r.stargazerCount, r.stargazerCount);
      StarsScoreShape(stars, stars);
    }
    BreakdownFromEntries(r', now, Breakdown(r, now));
  }

  /** Scenario with 150 stars, 30 forks, a README, a license, two recent
      commits and two active workflows: 45.38 of 80 points, so 5.6725 exactly
      and 5.7 after rounding. */
  lemma WellMaintainedExample(now: int)
    ensures var r := Repository(
      Some("example"), Some("An example"), 150, 30,
      Some(LicenseInfo(Some("MIT License"))),
      Some(BranchRef(Some(Target(Some(History(Some([CommitNode(now), CommitNode(now - 1000)]))))))),
      Some(Blob(Some("# Example"))),
      Some(WorkflowConnection(Some([WorkflowNode("CI", "ACTIVE"), WorkflowNode("Release", "ACTIVE")]))));
      && ExactScore(r, now) == 5.6725
      && Report(r, now).score == 5.7
  {
    var r := Repository(
      Some("example"), Some("An example"), 150, 30,
      Some(LicenseInfo(Some("MIT License"))),
      Some(BranchRef(Some(Target(Some(History(Some([CommitNode(now), CommitNode(now - 1000)]))))))),
      Some(Blob(Some("# Example"))),
      Some(WorkflowConnection(Some([WorkflowNode("CI", "ACTIVE"), WorkflowNode("Release", "ACTIVE")]))));
    var commits := [CommitNode(now), CommitNode(now - 1000)];
    assert commits[..1] == [CommitNode(now)] && commits[..1][..0] == [];
    assert IsRecent(now)(CommitNode(now)) && IsRecent(now)(CommitNode(now - 1000));
    assert Counting.CountWhere(commits[..1], IsRecent(now)) == 1;
    assert RecentCommitCount(r, now) == 2;
    var workflows := [WorkflowNode("CI", "ACTIVE"), WorkflowNode("Release", "ACTIVE")];
    assert workflows[..1] == [WorkflowNode("CI", "ACTIVE")] && workflows[..1][..0] == [];
    assert Counting.CountWhere(workflows[..1], IsActive()) == 1;
    assert ActiveWorkflowCount(r) == 2;
    ExactScoreIsWeightedMean(r, now);
    assert ExactScore(r, now) == 5.6725;
    assert (5.6725 * 10.0 + 0.5).Floor == 57;
  }
}
