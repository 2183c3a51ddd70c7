/** The command-line indexing pass and the comparison query of
    internal/github/fetcher.go: `IndexAll` and `GetCompareData`. */
module Fetcher {
  import opened Wrappers
  import opened Sorting
  import opened Cache
  import opened Remote
  import opened Indexing

  /** The release table after saving `rs` in order, one upsert per release. */
  function TagMap(m: map<string, Release>, rs: seq<Release>): (m': map<string, Release>)
    ensures (forall t :: t in m ==> m[t].tagName == t) ==> (forall t :: t in m' ==> m'[t].tagName == t)
    decreases |rs|
  {
    if rs == [] then m
    else TagMap(m, rs[..|rs| - 1])[rs[|rs| - 1].tagName := rs[|rs| - 1]]
  }

  /** Saves the releases in order. What ends up stored is stated by
      `SaveReleasesLastWins` and `SaveReleasesKeys`. */
  function SaveReleases(st: Store, rs: seq<Release>): (st': Store)
    ensures st'.commits == st.commits && st'.files == st.files && st'.nextId == st.nextId
    ensures Valid(st) ==> Valid(st')
  {
    st.(releases := TagMap(st.releases, rs))
  }

  /** Saving one more release extends the fold by one save. */
  lemma SaveReleasesSnoc(st: Store, rs: seq<Release>, r: Release)
    ensures SaveReleases(st, rs + [r]) == SaveRelease(SaveReleases(st, rs), r)
  {
    assert (rs + [r])[..|rs|] == rs;
  }

  /** No later release in `rs` has the tag of rs[k]. */
  predicate LastWithTag(rs: seq<Release>, k: nat)
    requires k < |rs|
  {
    forall k' :: k < k' < |rs| ==> rs[k'].tagName != rs[k].tagName
  }

  predicate TagIn(rs: seq<Release>, t: string) {
    exists k :: 0 <= k < |rs| && rs[k].tagName == t
  }

  /** For each tag, the last release carrying it is the one stored: the
      release table is keyed by tag alone. */
  lemma {:induction false} SaveReleasesLastWins(st: Store, rs: seq<Release>, k: nat)
    requires k < |rs| && LastWithTag(rs, k)
    ensures rs[k].tagName in SaveReleases(st, rs).releases
    ensures SaveReleases(st, rs).releases[rs[k].tagName] == rs[k]
  {
    TagMapLastWins(st.releases, rs, k);
  }

  lemma {:induction false} TagMapLastWins(m: map<string, Release>, rs: seq<Release>, k: nat)
    requires k < |rs| && LastWithTag(rs, k)
    ensures rs[k].tagName in TagMap(m, rs) && TagMap(m, rs)[rs[k].tagName] == rs[k]
    decreases |rs|
  {
    var n := |rs| - 1;
    if k < n {
      assert rs[..n][k] == rs[k];
      assert LastWithTag(rs[..n], k) by {
        forall k' | k < k' < n ensures rs[..n][k'].tagName != rs[..n][k].tagName {
          assert rs[..n][k'] == rs[k'];
        }
      }
      TagMapLastWins(m, rs[..n], k);
      assert rs[n].tagName != rs[k].tagName;
    }
  }

  /** Saving releases adds exactly their tags and leaves every other tag's
      release as it was. */
  lemma {:induction false} SaveReleasesKeys(st: Store, rs: seq<Release>, t: string)
    ensures t in SaveReleases(st, rs).releases <==> t in st.releases || TagIn(rs, t)
    ensures !TagIn(rs, t) && t in st.releases ==> SaveReleases(st, rs).releases[t] == st.releases[t]
  {
    TagMapKeys(st.releases, rs, t);
  }

  lemma {:induction false} TagMapKeys(m: map<string, Release>, rs: seq<Release>, t: string)
    ensures t in TagMap(m, rs) <==> t in m || TagIn(rs, t)
    ensures !TagIn(rs, t) && t in m ==> TagMap(m, rs)[t] == m[t]
    decreases |rs|
  {
    if rs != [] {
      var n := |rs| - 1;
      TagMapKeys(m, rs[..n], t);
      if TagIn(rs[..n], t) {
        var k :| 0 <= k < n && rs[..n][k].tagName == t;
        assert rs[k].tagName == t;
      }
      if TagIn(rs, t) && rs[n].tagName != t {
        var k :| 0 <= k < |rs| && rs[k].tagName == t;
        assert rs[..n][k].tagName == t;
      }
    }
  }

  /** Why `IndexAll` gave up before visiting any pair. */
  datatype IndexError =
    | FetchReleasesFailed(cause: string)
    | SaveReleaseFailed(tag: string)

  /** The counters the pass logs at the end. */
  datatype IndexSummary = IndexSummary(processed: nat, skipped: nat)

  /** The release-saving loop of IndexAll: save in list order and stop at
      the first failed save, reporting its position. */
  method SaveReleaseList(ctx: Ctx, st0: Store, rels: seq<Release>) returns (failedAt: Option<nat>, st: Store)
    ensures failedAt.None? <==> forall k :: 0 <= k < |rels| ==> !ctx.faults.releaseSaveFails(k)
    ensures failedAt.None? ==> st == SaveReleases(st0, rels)
    ensures failedAt.Some? ==>
      && failedAt.value < |rels| && ctx.faults.releaseSaveFails(failedAt.value)
      && (forall j :: 0 <= j < failedAt.value ==> !ctx.faults.releaseSaveFails(j))
      && st == SaveReleases(st0, rels[..failedAt.value])
  {
    st := st0;
    for k := 0 to |rels|
      invariant st == SaveReleases(st0, rels[..k])
      invariant forall j :: 0 <= j < k ==> !ctx.faults.releaseSaveFails(j)
    {
      if ctx.faults.releaseSaveFails(k) {
        return Some(k), st;
      }
      assert rels[..k + 1] == rels[..k] + [rels[k]];
      SaveReleasesSnoc(st0, rels[..k], rels[k]);
      st := SaveRelease(st, rels[k]);
    }
    assert rels[..|rels|] == rels;
    failedAt := None;
  }

  /** One turn of the pair loop: probe pair i and, unless the probe reports
      it cached, fetch and store it. */
  method VisitNext(ctx: Ctx, ps: seq<Pair>, i: nat, saved: Store, outcomes: seq<PairOutcome>, st: Store,
                   calls: seq<Call>)
    returns (skippedIt: bool, outcomes': seq<PairOutcome>, st': Store, calls': seq<Call>)
    requires i < |ps| && PairsRun(outcomes, st, calls) == VisitPairs(ctx, ps[..i], saved)
    ensures skippedIt <==> ProbeSaysCached(ctx, i, ps[i], st)
    ensures PairsRun(outcomes', st', calls') == VisitPairs(ctx, ps[..i + 1], saved)
    ensures CountSkipped(outcomes') == CountSkipped(outcomes) + (if skippedIt then 1 else 0)
  {
    if ProbeSaysCached(ctx, i, ps[i], st) {
      VisitStepCached(ctx, ps, i, saved, PairsRun(outcomes, st, calls));
      assert (outcomes + [Skipped])[..|outcomes|] == outcomes;
      return true, outcomes + [Skipped], st, calls;
    }
    VisitStepFetched(ctx, ps, i, saved, PairsRun(outcomes, st, calls));
    var step := FetchAndStore(ctx, i, ps[i], st);
    assert (outcomes + [step.outcome])[..|outcomes|] == outcomes;
    return false, outcomes + [step.outcome], step.store, calls + step.calls;
  }

  /** The pair loop of IndexAll: visit each pair in turn, counting it as
      skipped or processed. */
  method IndexPairList(ctx: Ctx, ps: seq<Pair>, saved: Store)
    returns (processed: nat, skipped: nat, outcomes: seq<PairOutcome>, st: Store, calls: seq<Call>)
    ensures processed + skipped == |ps|
    ensures skipped == CountSkipped(outcomes)
    ensures PairsRun(outcomes, st, calls) == VisitPairs(ctx, ps, saved)
  {
    st := saved;
    outcomes, calls := [], [];
    processed, skipped := 0, 0;
    for i := 0 to |ps|
      invariant PairsRun(outcomes, st, calls) == VisitPairs(ctx, ps[..i], saved)
      invariant skipped == CountSkipped(outcomes)
      invariant processed + skipped == i
    {
      var skippedIt;
      skippedIt, outcomes, st, calls := VisitNext(ctx, ps, i, saved, outcomes, st, calls);
      if skippedIt {
        skipped := skipped + 1;
      } else {
        processed := processed + 1;
      }
    }
    assert ps[..|ps|] == ps;
  }

  /** IndexAll: fetch the release list; save every release, stopping at the
      first failed save; then visit each consecutive pair, skipping the ones
      the store already holds rows for. `processed` counts the pairs that got
      past the probe, whether or not their fetches then succeeded. */
  method IndexAll(ctx: Ctx, st0: Store)
    returns (res: Result<IndexSummary, IndexError>, st: Store, outcomes: seq<PairOutcome>, calls: seq<Call>)
    ensures FetchReleases(ctx.remote, ctx.owner, ctx.repo).Err? ==>
      && res == Err(FetchReleasesFailed(FetchReleases(ctx.remote, ctx.owner, ctx.repo).error))
      && st == st0 && outcomes == [] && calls == []
    ensures FetchReleases(ctx.remote, ctx.owner, ctx.repo).Ok? ==>
      var rels := FetchReleases(ctx.remote, ctx.owner, ctx.repo).value;
      && (res.Err? <==> exists k :: 0 <= k < |rels| && ctx.faults.releaseSaveFails(k))
      && (res.Err? ==> exists k ::
            && 0 <= k < |rels| && ctx.faults.releaseSaveFails(k)
            && (forall j :: 0 <= j < k ==> !ctx.faults.releaseSaveFails(j))
            && res.error == SaveReleaseFailed(rels[k].tagName)
            && st == SaveReleases(st0, rels[..k]) && outcomes == [] && calls == [])
    ensures res.Ok? ==>
      var rels := FetchReleases(ctx.remote, ctx.owner, ctx.repo).value;
      var ps := Pairs(rels);
      && res.value.processed + res.value.skipped == |ps|
      && res.value.skipped == CountSkipped(outcomes)
      && PairsRun(outcomes, st, calls) == VisitPairs(ctx, ps, SaveReleases(st0, rels))
      && (forall i :: 0 <= i < |ps| && !ctx.faults.probeFails(i) && PairCached(st0, ctx.owner, ctx.repo, ps[i]) ==>
            outcomes[i] == Skipped)
      && (forall c :: c in calls ==>
            && c.pair < |ps| && !outcomes[c.pair].Skipped?
            && c.fromSha == ps[c.pair].from.commitSha && c.toSha == ps[c.pair].to.commitSha)
      && (forall k :: |st0.files| <= k < |st.files| ==> RowOfSomePair(ctx, ps, st.files[k].change))
    ensures |st0.files| <= |st.files| && st.files[..|st0.files|] == st0.files
    ensures Valid(st0) ==> Valid(st)
  {
    var fetched := FetchReleases(ctx.remote, ctx.owner, ctx.repo);
    if fetched.Err? {
      return Err(FetchReleasesFailed(fetched.error)), st0, [], [];
    }
    var rels := fetched.value;
    var failedAt, saved := SaveReleaseList(ctx, st0, rels);
    if failedAt.Some? {
      return Err(SaveReleaseFailed(rels[failedAt.value].tagName)), saved, [], [];
    }
    var ps := Pairs(rels);
    var processed, skipped;
    processed, skipped, outcomes, st, calls := IndexPairList(ctx, ps, saved);
    forall i | 0 <= i < |ps| && !ctx.faults.probeFails(i) && PairCached(st0, ctx.owner, ctx.repo, ps[i])
      ensures outcomes[i] == Skipped
    {
      VisitSkipsCached(ctx, ps, saved, i);
    }
    VisitCalls(ctx, ps, saved);
    VisitRows(ctx, ps, saved);
    res := Ok(IndexSummary(processed, skipped));
  }

  /** What a comparison returns: both releases, the window's commits, the
      pair's file changes and the PR count. */
  datatype CompareResult = CompareResult(
    fromRelease: Release,
    toRelease: Release,
    commits: seq<Commit>,
    files: seq<FileChange>,
    prCount: nat)

  datatype CompareError = ReleaseNotFound(tag: string)

  /** GetCompareData: look both tags up in the repository, then gather the
      commits, file changes and PR count between them. */
  method GetCompareData(st: Store, owner: string, repo: string, fromTag: string, toTag: string)
    returns (r: Result<CompareResult, CompareError>)
    ensures GetRelease(st, owner, repo, fromTag).Err? ==> r == Err(ReleaseNotFound(fromTag))
    ensures GetRelease(st, owner, repo, fromTag).Ok? && GetRelease(st, owner, repo, toTag).Err? ==>
      r == Err(ReleaseNotFound(toTag))
    ensures r.Ok? <==> GetRelease(st, owner, repo, fromTag).Ok? && GetRelease(st, owner, repo, toTag).Ok?
    ensures r.Ok? ==>
      && r.value.fromRelease == st.releases[fromTag] && r.value.toRelease == st.releases[toTag]
      && (forall c :: c in r.value.commits <==> c in CommitsInWindow(st, owner, repo, fromTag, toTag))
      && (forall i, j :: 0 <= i < j < |r.value.commits| ==> r.value.commits[i].date <= r.value.commits[j].date)
      && Distinct(r.value.commits)
      && |r.value.commits| == |CommitsInWindow(st, owner, repo, fromTag, toTag)|
      && r.value.files == GetFileChanges(st, owner, repo, fromTag, toTag)
      && r.value.prCount == PrCountBetween(st, owner, repo, fromTag, toTag)
      && r.value.prCount <= |r.value.commits|
  {
    var from := GetRelease(st, owner, repo, fromTag);
    if from.Err? {
      return Err(ReleaseNotFound(fromTag));
    }
    var to := GetRelease(st, owner, repo, toTag);
    if to.Err? {
      return Err(ReleaseNotFound(toTag));
    }
    var commits := GetCommitsBetween(st, owner, repo, fromTag, toTag);
    var files := GetFileChanges(st, owner, repo, fromTag, toTag);
    var prCount := PrCountBetween(st, owner, repo, fromTag, toTag);
    PrCountWithinCommits(st, owner, repo, fromTag, toTag);
    r := Ok(CompareResult(from.value, to.value, commits, files, prCount));
  }
}
