/** The scorer that __tests__/scoring.test.js defines inline and tests (the
    same formula as the page pages/score/[owner]/[repo].js): a capped raw sum
    of seven signals of the GitHub REST repository object, with a breakdown of
    seven sub-scores and fixed weights that the headline does not use. */
module LegacyScoring {
  import opened Wrappers
  import opened Numbers

  /** The REST `license` object; only its presence matters. */
  datatype LicenseObject = LicenseObject(name: string)

  datatype RestRepository = RestRepository(
    stargazersCount: nat,
    forksCount: nat,
    hasIssues: Option<bool>,
    hasWiki: Option<bool>,
    hasPages: Option<bool>,
    license: Option<LicenseObject>,
    description: Option<string>)

  datatype Metric = Stars | Forks | Issues | Wiki | Pages | License | Description

  const AllMetrics: set<Metric> := {Stars, Forks, Issues, Wiki, Pages, License, Description}

  datatype MetricEntry = MetricEntry(score: real, weight: real)

  datatype LegacyReport = LegacyReport(score: real, breakdown: map<Metric, MetricEntry>)

  /** JavaScript truthiness of a boolean-or-null flag. */
  predicate Flag(b: Option<bool>)
  {
    b == Some(true)
  }

  /** The uncapped sum inside the headline's `Math.min`. */
  function RawSum(d: RestRepository): (sum: real)
    ensures d.stargazersCount as real / 100.0 + d.forksCount as real / 50.0 <= sum
    ensures sum <= d.stargazersCount as real / 100.0 + d.forksCount as real / 50.0 + 6.5
  {
    d.stargazersCount as real / 100.0
    + d.forksCount as real / 50.0
    + (if Flag(d.hasIssues) then 2.0 else 0.0)
    + (if Flag(d.hasWiki) then 1.0 else 0.0)
    + (if Flag(d.hasPages) then 1.0 else 0.0)
    + (if d.license.Some? then 1.5 else 0.0)
    + (if Truthy(d.description) then 1.0 else 0.0)
  }

  /** `cond ? 10 : 0` of the flag sub-scores. */
  function Binary(b: bool): (score: real)
    ensures score == 10.0 <==> b
    ensures score == 0.0 <==> !b
  {
    if b then 10.0 else 0.0
  }

  /** The inline `calculateScore` of the test file. */
  function CalculateScore(d: RestRepository): (report: LegacyReport)
    ensures 0.0 <= report.score <= 10.0
    ensures report.score <= RawSum(d)
    ensures report.breakdown.Keys == AllMetrics
    ensures forall m | m in report.breakdown :: 0.0 <= report.breakdown[m].score <= 10.0
  {
    LegacyReport(
      Min(RawSum(d), 10.0),
      map[
        Stars := MetricEntry(Min(d.stargazersCount as real / 100.0, 10.0), 1.0),
        Forks := MetricEntry(Min(d.forksCount as real / 50.0, 10.0), 0.8),
        Issues := MetricEntry(Binary(Flag(d.hasIssues)), 0.5),
        Wiki := MetricEntry(Binary(Flag(d.hasWiki)), 0.3),
        Pages := MetricEntry(Binary(Flag(d.hasPages)), 0.3),
        License := MetricEntry(Binary(d.license.Some?), 0.5),
        Description := MetricEntry(Binary(Truthy(d.description)), 0.3)])
  }

  /** The headline lies in [0, 10]: it is the raw sum where that is at most 10,
      and 10 otherwise. */
  lemma HeadlineBounds(d: RestRepository)
    ensures 0.0 <= CalculateScore(d).score <= 10.0
    ensures RawSum(d) <= 10.0 ==> CalculateScore(d).score == RawSum(d)
    ensures RawSum(d) >= 10.0 ==> CalculateScore(d).score == 10.0
  {
  }

  /** The breakdown has exactly the seven keys, every score lies in [0, 10],
      and the five flag metrics score 10 or 0. */
  lemma BreakdownShape(d: RestRepository)
    ensures CalculateScore(d).breakdown.Keys == AllMetrics
    ensures forall m | m in CalculateScore(d).breakdown ::
      0.0 <= CalculateScore(d).breakdown[m].score <= 10.0
    ensures forall m | m in CalculateScore(d).breakdown && m != Stars && m != Forks ::
      CalculateScore(d).breakdown[m].score in {0.0, 10.0}
  {
  }

  /** Which flag makes which entry 10: `has_issues`, `has_wiki` and `has_pages`
      when they are `true`, `license` when it is present, and `description`
      when it is present and not empty. */
  lemma FlagEntries(d: RestRepository)
    ensures var b := CalculateScore(d).breakdown;
      && (b[Issues].score == 10.0 <==> d.hasIssues == Some(true))
      && (b[Wiki].score == 10.0 <==> d.hasWiki == Some(true))
      && (b[Pages].score == 10.0 <==> d.hasPages == Some(true))
      && (b[License].score == 10.0 <==> d.license.Some?)
      && (b[Description].score == 10.0 <==> d.description.Some? && |d.description.value| > 0)
  {
  }

  /** The raw sum in terms of the breakdown: stars and forks uncapped, then
      2, 1, 1, 1.5 and 1 points for the issues, wiki, pages, license and
      description entries that score 10. */
  lemma RawSumFromBreakdown(d: RestRepository)
    ensures var b := CalculateScore(d).breakdown;
      RawSum(d) == d.stargazersCount as real / 100.0 + d.forksCount as real / 50.0
        + 0.2 * b[Issues].score + 0.1 * b[Wiki].score + 0.1 * b[Pages].score
        + 0.15 * b[License].score + 0.1 * b[Description].score
  {
  }

  /** The fixed weights. */
  lemma Weights(d: RestRepository)
    ensures var b := CalculateScore(d).breakdown;
      && b[Stars].weight == 1.0 && b[Forks].weight == 0.8 && b[Issues].weight == 0.5
      && b[Wiki].weight == 0.3 && b[Pages].weight == 0.3 && b[License].weight == 0.5
      && b[Description].weight == 0.3
  {
  }

  /** Stars saturate at 1000 and forks at 500; below that they are linear. */
  lemma StarsAndForksCap(d: RestRepository)
    ensures var b := CalculateScore(d).breakdown;
      && (b[Stars].score == 10.0 <==> d.stargazersCount >= 1000)
      && (b[Forks].score == 10.0 <==> d.forksCount >= 500)
      && (d.stargazersCount < 1000 ==> b[Stars].score == d.stargazersCount as real / 100.0)
      && (d.forksCount < 500 ==> b[Forks].score == d.forksCount as real / 50.0)
  {
  }

  /** More stars, everything else equal, never lowers the headline. */
  lemma MoreStarsNeverLowerScore(d: RestRepository, stars: nat)
    requires d.stargazersCount <= stars
    ensures CalculateScore(d).score <= CalculateScore(d.(stargazersCount := stars)).score
  {
  }

  /** The test's mock repository scores 8.6. */
  lemma MockRepositoryScore()
    ensures var mock := RestRepository(150, 30, Some(true), Some(true), Some(true),
                                       Some(LicenseObject("MIT")), Some("A test repository"));
      CalculateScore(mock).score == 8.6 && CalculateScore(mock).score > 0.0
  {
  }

  /** With 2000 stars and 1000 forks both sub-scores are exactly 10. */
  lemma HighCountsCapAtTen()
    ensures var high := RestRepository(2000, 1000, Some(true), Some(true), Some(true),
                                       Some(LicenseObject("MIT")), Some("A test repository"));
      CalculateScore(high).breakdown[Stars].score == 10.0
      && CalculateScore(high).breakdown[Forks].score == 10.0
  {
  }

  /** Zero counts and every flag false or null: every term is 0, and so is the
      headline. */
  lemma MinimalRepositoryScoresZero(d: RestRepository)
    requires d.stargazersCount == 0 && d.forksCount == 0
    requires !Flag(d.hasIssues) && !Flag(d.hasWiki) && !Flag(d.hasPages)
    requires d.license.None? && !Truthy(d.description)
    ensures RawSum(d) == 0.0
    ensures CalculateScore(d).score == 0.0
    ensures forall m | m in CalculateScore(d).breakdown :: CalculateScore(d).breakdown[m].score == 0.0
  {
  }
}
