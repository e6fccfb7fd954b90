/** lib/staticData.js: `getRepositoryScore`, a read-then-upsert cache of score
    reports keyed by (owner, repo) with a 24-hour freshness window checked at
    read time. The MongoDB collection is a map; fetching is a function given by
    the caller; the clock is a parameter. */
module StaticData {
  import opened Wrappers
  import opened GitHubData
  import opened Scoring

  /** `CACHE_DURATION`: 24 hours in milliseconds. */
  const CacheDuration: int := 24 * 60 * 60 * 1000

  type Key = (string, string)

  /** A document of the `scores` collection. */
  datatype Entry = Entry(owner: string, repo: string, score: ScoreReport, timestamp: int)

  /** What `fetchRepoData(owner, repo)` does: it returns a repository, returns
      `null` (and `calculateScore(null)` then throws), or throws. */
  datatype FetchOutcome = Fetched(repository: Repository) | NullRepository | FetchFailed

  /** Every document is stored under its own (owner, repo). */
  ghost predicate WellKeyed(entries: map<Key, Entry>)
  {
    forall k | k in entries :: entries[k].owner == k.0 && entries[k].repo == k.1
  }

  /** The `findOne` filter `{ owner, repo, timestamp: { $gt: now - CACHE_DURATION } }`. */
  function FindFresh(entries: map<Key, Entry>, owner: string, repo: string, now: int): (found: Option<Entry>)
    requires WellKeyed(entries)
    ensures found.Some? <==> (owner, repo) in entries && entries[(owner, repo)].timestamp > now - CacheDuration
    ensures found.Some? ==> found.value == entries[(owner, repo)]
    ensures found.Some? ==>
      found.value.owner == owner && found.value.repo == repo && found.value.timestamp > now - CacheDuration
  {
    var k := (owner, repo);
    if k in entries && entries[k].timestamp > now - CacheDuration then Some(entries[k]) else None
  }

  /** Fetch then score: `None` when `fetchRepoData` throws or when it returns
      `null`, on which `calculateScore` throws. (A `null` element of a `nodes`
      list, on which `calculateScore` would throw too, is not part of this model.) */
  function Compute(outcome: FetchOutcome, now: int): (score: Option<ScoreReport>)
    ensures score.Some? <==> outcome.Fetched?
    ensures score.Some? ==> score.value.breakdown == Breakdown(outcome.repository, now)
    ensures score.Some? ==> 0.0 <= score.value.score <= 10.0
  {
    match outcome
    case Fetched(data) => Some(Report(data, now))
    case NullRepository => None
    case FetchFailed => None
  }

  /** One call of `getRepositoryScore`, as a function of the collection before
      the call: its result and the collection after it. */
  function Step(entries: map<Key, Entry>, owner: string, repo: string, now: int, outcome: FetchOutcome)
    : (after: (Option<ScoreReport>, map<Key, Entry>))
    requires WellKeyed(entries)
    ensures WellKeyed(after.1)
  {
    match FindFresh(entries, owner, repo, now)
    case Some(cached) => (Some(cached.score), entries)
    case None =>
      match Compute(outcome, now)
      case Some(score) => (Some(score), entries[(owner, repo) := Entry(owner, repo, score, now)])
      case None => (None, entries)
  }

  /** A hit returns the stored report and writes nothing, whatever the fetch
      would have done. */
  lemma HitReturnsStored(entries: map<Key, Entry>, owner: string, repo: string, now: int, outcome: FetchOutcome)
    requires WellKeyed(entries)
    requires (owner, repo) in entries && entries[(owner, repo)].timestamp > now - CacheDuration
    ensures Step(entries, owner, repo, now, outcome) == (Some(entries[(owner, repo)].score), entries)
  {
  }

  /** Freshness is strict: an entry `CACHE_DURATION` old or older behaves
      exactly as if there were no entry at all. */
  lemma ExpiredEntryIsMiss(entries: map<Key, Entry>, owner: string, repo: string, now: int, outcome: FetchOutcome)
    requires WellKeyed(entries)
    requires (owner, repo) in entries && now - entries[(owner, repo)].timestamp >= CacheDuration
    ensures WellKeyed(entries - {(owner, repo)})
    ensures FindFresh(entries, owner, repo, now).None?
    ensures Step(entries, owner, repo, now, outcome).0 == Step(entries - {(owner, repo)}, owner, repo, now, outcome).0
    ensures Step(entries, owner, repo, now, outcome).1 - {(owner, repo)}
         == Step(entries - {(owner, repo)}, owner, repo, now, outcome).1 - {(owner, repo)}
  {
  }

  /** A miss whose fetch succeeds returns the fresh report and upserts it under
      (owner, repo) with timestamp `now`. */
  lemma MissStoresReport(entries: map<Key, Entry>, owner: string, repo: string, now: int, data: Repository)
    requires WellKeyed(entries)
    requires FindFresh(entries, owner, repo, now).None?
    ensures Step(entries, owner, repo, now, Fetched(data))
         == (Some(Report(data, now)), entries[(owner, repo) := Entry(owner, repo, Report(data, now), now)])
  {
  }

  /** The upsert replaces the entry of (owner, repo), if any, and leaves the
      entry of every other key as it was. */
  lemma UpsertTouchesOnlyItsKey(entries: map<Key, Entry>, owner: string, repo: string, now: int, outcome: FetchOutcome)
    requires WellKeyed(entries)
    ensures var after := Step(entries, owner, repo, now, outcome).1;
      && after.Keys - {(owner, repo)} == entries.Keys - {(owner, repo)}
      && forall k | k in entries && k != (owner, repo) :: after[k] == entries[k]
  {
  }

  /** A failed fetch or a repository that cannot be scored writes nothing and,
      on a miss, gives `None`. */
  lemma FailureWritesNothing(entries: map<Key, Entry>, owner: string, repo: string, now: int, outcome: FetchOutcome)
    requires WellKeyed(entries)
    requires !outcome.Fetched?
    ensures Step(entries, owner, repo, now, outcome).1 == entries
    ensures FindFresh(entries, owner, repo, now).None? ==> Step(entries, owner, repo, now, outcome).0 == None
  {
  }

  /** After a successful miss at `t`, a request for the same key at any `t'`
      with `t' - t < CACHE_DURATION` is a hit on the same report and writes
      nothing; from `t + CACHE_DURATION` on it is a miss again. */
  lemma MissThenHit(entries: map<Key, Entry>, owner: string, repo: string, t: int, t': int,
                    data: Repository, outcome': FetchOutcome)
    requires WellKeyed(entries)
    requires FindFresh(entries, owner, repo, t).None?
    ensures var (first, stored) := Step(entries, owner, repo, t, Fetched(data));
      && (t' - t < CacheDuration ==> Step(stored, owner, repo, t', outcome') == (first, stored))
      && (t' - t >= CacheDuration ==> FindFresh(stored, owner, repo, t').None?)
  {
  }

  /** The `scores` collection and the operation that reads and writes it. */
  class ScoreCache {
    var entries: map<Key, Entry>
    /** How many times the upstream fetch was called. */
    ghost var fetchCalls: nat

    ghost predicate Valid()
      reads this
    {
      WellKeyed(entries)
    }

    constructor ()
      ensures Valid() && entries == map[] && fetchCalls == 0
    {
      entries := map[];
      fetchCalls := 0;
    }

    /** `getRepositoryScore(owner, repo)`: a fresh entry is returned without
        fetching or writing; otherwise the repository is fetched and scored, the
        report is upserted with timestamp `now` and returned; if fetching or
        scoring fails, `None` is returned and nothing is written. */
    method GetRepositoryScore(owner: string, repo: string, now: int, fetch: (string, string) -> FetchOutcome)
      returns (result: Option<ScoreReport>)
      requires Valid()
      modifies this
      ensures Valid()
      ensures (result, entries) == Step(old(entries), owner, repo, now, fetch(owner, repo))
      ensures var hit := FindFresh(old(entries), owner, repo, now);
        && (hit.Some? ==> result == Some(hit.value.score) && entries == old(entries) && fetchCalls == old(fetchCalls))
        && (hit.None? ==> fetchCalls == old(fetchCalls) + 1)
        && (hit.None? && fetch(owner, repo).Fetched? ==>
              var score := Report(fetch(owner, repo).repository, now);
              result == Some(score) && entries == old(entries)[(owner, repo) := Entry(owner, repo, score, now)])
        && (hit.None? && !fetch(owner, repo).Fetched? ==> result == None && entries == old(entries))
    {
      var cachedResult := FindFresh(entries, owner, repo, now);
      if cachedResult.Some? {
        return Some(cachedResult.value.score);
      }
      var outcome := fetch(owner, repo);
      fetchCalls := fetchCalls + 1;
      match outcome {
        case Fetched(repoData) =>
          var score := CalculateScore(repoData, now);
          entries := entries[(owner, repo) := Entry(owner, repo, score, now)];
          result := Some(score);
        case NullRepository =>
          result := None;
        case FetchFailed =>
          result := None;
      }
    }
  }

  /** Two requests for the same repository less than `CACHE_DURATION` apart:
      if the first one misses and succeeds, the second returns the same report
      and does not fetch. */
  method RepeatedRequest(cache: ScoreCache, owner: string, repo: string, t: int, t': int,
                         fetch: (string, string) -> FetchOutcome)
    returns (first: Option<ScoreReport>, second: Option<ScoreReport>)
    requires cache.Valid()
    requires t' - t < CacheDuration
    modifies cache
    ensures cache.Valid()
    ensures old(FindFresh(cache.entries, owner, repo, t)).None? && first.Some? ==>
      second == first && cache.fetchCalls == old(cache.fetchCalls) + 1
  {
    first := cache.GetRepositoryScore(owner, repo, t, fetch);
    second := cache.GetRepositoryScore(owner, repo, t', fetch);
  }
}
