/** The per-pair step shared by both indexing loops (`IndexAll` in
    internal/github/fetcher.go and `runIndexingAsync` in cmd/mcp/server.go):
    pairing consecutive releases, probing the store, and fetching and saving
    one pair's commits and file changes. */
module Indexing {
  import opened Wrappers
  import opened Cache
  import opened Remote

  /** `from` is the older release (releases[i+1]), `to` the newer (releases[i]). */
  datatype Pair = Pair(from: Release, to: Release)

  /** Store failures, as an oracle: which release save (by position), which
      cache probe (by pair), and which commit or file save (by pair and
      position) returns an error. A failed write leaves the store unchanged;
      a failed probe answers "not cached". */
  datatype Faults = Faults(
    releaseSaveFails: nat -> bool,
    probeFails: nat -> bool,
    commitSaveFails: (nat, nat) -> bool,
    fileSaveFails: (nat, nat) -> bool)

  /** One run's fixed inputs: the repository, the remote and the store faults. */
  datatype Ctx = Ctx(owner: string, repo: string, remote: Oracle, faults: Faults)

  /** What visiting one pair did. `Stored(landed)` counts the file-change
      rows that reached the store. */
  datatype PairOutcome =
    | Skipped
    | CommitFetchFailed
    | FileFetchFailed
    | Stored(landed: nat)

  datatype PairStep = PairStep(outcome: PairOutcome, store: Store, calls: seq<Call>)

  /** The pairs the loop visits: (releases[i+1], releases[i]) for each i,
      in list order; none for fewer than two releases. */
  function Pairs(rels: seq<Release>): (ps: seq<Pair>)
    ensures |ps| == if |rels| <= 1 then 0 else |rels| - 1
    ensures forall i :: 0 <= i < |ps| ==> ps[i].from == rels[i + 1] && ps[i].to == rels[i]
    ensures forall i :: 0 <= i < |ps| - 1 ==> ps[i].from == ps[i + 1].to
  {
    if |rels| <= 1 then []
    else seq(|rels| - 1, i requires 0 <= i < |rels| - 1 => Pair(rels[i + 1], rels[i]))
  }

  predicate PairCached(st: Store, owner: string, repo: string, p: Pair) {
    HasFileChangesCached(st, owner, repo, p.from.tagName, p.to.tagName)
  }

  /** How many of the first n writes succeed. */
  function CountOk(fails: nat -> bool, n: nat): (k: nat)
    ensures k <= n
  {
    if n == 0 then 0 else CountOk(fails, n - 1) + (if fails(n - 1) then 0 else 1)
  }

  /** Some write of `x` in `xs` succeeds. */
  predicate SavedAt<T(==)>(xs: seq<T>, fails: nat -> bool, x: T) {
    exists k :: 0 <= k < |xs| && !fails(k) && xs[k] == x
  }

  /** The elements whose write succeeds, in order: what a loop that ignores
      failed saves leaves behind. */
  function Kept<T(==)>(xs: seq<T>, fails: nat -> bool): (r: seq<T>)
    ensures |r| == CountOk(fails, |xs|)
    ensures forall x :: x in r ==> x in xs
    ensures forall k :: 0 <= k < |xs| && !fails(k) ==> xs[k] in r
    decreases |xs|
  {
    if xs == [] then []
    else
      var n := |xs| - 1;
      var init := Kept(xs[..n], fails);
      assert forall k :: 0 <= k < n ==> xs[..n][k] == xs[k];
      if fails(n) then init else init + [xs[n]]
  }

  /** Keeping from one more element. */
  lemma KeptSnoc<T>(xs: seq<T>, i: nat, fails: nat -> bool)
    requires i < |xs|
    ensures Kept(xs[..i + 1], fails) == Kept(xs[..i], fails) + (if fails(i) then [] else [xs[i]])
  {
    assert xs[..i + 1][..i] == xs[..i];
  }

  /** Keeping from a list is keeping from all but its last element, then
      the last one unless its write fails. */
  lemma KeptLast<T>(xs: seq<T>, fails: nat -> bool)
    requires xs != []
    ensures Kept(xs, fails) == Kept(xs[..|xs| - 1], fails) + (if fails(|xs| - 1) then [] else [xs[|xs| - 1]])
  {
  }

  /** Only elements whose write succeeds are kept: an element that appears
      in `xs` solely at failing positions is left out. */
  lemma {:induction false} KeptOnlySaved<T>(xs: seq<T>, fails: nat -> bool)
    ensures forall x :: x in Kept(xs, fails) ==> SavedAt(xs, fails, x)
    decreases |xs|
  {
    if xs != [] {
      var n := |xs| - 1;
      KeptOnlySaved(xs[..n], fails);
      KeptLast(xs, fails);
      forall x | x in Kept(xs, fails) ensures SavedAt(xs, fails, x) {
        if x in Kept(xs[..n], fails) {
          var k :| 0 <= k < n && !fails(k) && xs[..n][k] == x;
          assert xs[k] == x;
        } else {
          assert !fails(n) && xs[n] == x;
        }
      }
    }
  }

  /** With no failed write, everything is kept. */
  lemma {:induction false} KeptAll<T>(xs: seq<T>, fails: nat -> bool)
    requires forall k :: 0 <= k < |xs| ==> !fails(k)
    ensures Kept(xs, fails) == xs
    decreases |xs|
  {
    if xs != [] {
      var n := |xs| - 1;
      assert !fails(n);
      KeptAll(xs[..n], fails);
      KeptLast(xs, fails);
      assert xs[..n] + [xs[n]] == xs;
    }
  }

  /** Saves each commit whose write does not fail; later saves of a sha
      replace earlier ones. Which commit ends up under each sha is stated by
      `SaveCommitsLastWins` and `SaveCommitsKeys`. */
  function SaveCommits(st: Store, cs: seq<Commit>, fails: nat -> bool): (st': Store)
    ensures st'.releases == st.releases && st'.files == st.files && st'.nextId == st.nextId
    ensures st.commits.Keys <= st'.commits.Keys
    ensures forall j :: 0 <= j < |cs| && !fails(j) ==> cs[j].sha in st'.commits
    ensures Valid(st) ==> Valid(st')
    decreases |cs|
  {
    if cs == [] then st
    else
      var init := SaveCommits(st, cs[..|cs| - 1], fails);
      assert forall j :: 0 <= j < |cs| - 1 ==> cs[..|cs| - 1][j] == cs[j];
      if fails(|cs| - 1) then init else SaveCommit(init, cs[|cs| - 1])
  }

  /** No later successful save in `cs` has the sha of cs[k]. */
  predicate LastSavedWithSha(cs: seq<Commit>, fails: nat -> bool, k: nat)
    requires k < |cs|
  {
    forall k' :: k < k' < |cs| && !fails(k') ==> cs[k'].sha != cs[k].sha
  }

  predicate ShaSaved(cs: seq<Commit>, fails: nat -> bool, h: string) {
    exists k :: 0 <= k < |cs| && !fails(k) && cs[k].sha == h
  }

  /** Under each sha the store holds the last commit carrying it whose save
      succeeded: the commit table is keyed by sha alone. */
  lemma {:induction false} SaveCommitsLastWins(st: Store, cs: seq<Commit>, fails: nat -> bool, k: nat)
    requires k < |cs| && !fails(k) && LastSavedWithSha(cs, fails, k)
    ensures cs[k].sha in SaveCommits(st, cs, fails).commits
    ensures SaveCommits(st, cs, fails).commits[cs[k].sha] == cs[k]
    decreases |cs|
  {
    var n := |cs| - 1;
    var init := SaveCommits(st, cs[..n], fails);
    assert SaveCommits(st, cs, fails) == if fails(n) then init else SaveCommit(init, cs[n]);
    if k < n {
      assert !fails(n) ==> cs[n].sha != cs[k].sha;
      assert cs[..n][k] == cs[k];
      assert LastSavedWithSha(cs[..n], fails, k) by {
        forall k' | k < k' < n && !fails(k') ensures cs[..n][k'].sha != cs[..n][k].sha {
          assert cs[..n][k'] == cs[k'];
        }
      }
      SaveCommitsLastWins(st, cs[..n], fails, k);
    }
  }

  /** Saving commits adds exactly the shas of the successful saves and
      leaves every other sha's commit as it was. */
  lemma {:induction false} SaveCommitsKeys(st: Store, cs: seq<Commit>, fails: nat -> bool, h: string)
    ensures h in SaveCommits(st, cs, fails).commits <==> h in st.commits || ShaSaved(cs, fails, h)
    ensures !ShaSaved(cs, fails, h) && h in st.commits ==> SaveCommits(st, cs, fails).commits[h] == st.commits[h]
    decreases |cs|
  {
    if cs != [] {
      var n := |cs| - 1;
      var init := SaveCommits(st, cs[..n], fails);
      assert SaveCommits(st, cs, fails) == if fails(n) then init else SaveCommit(init, cs[n]);
      SaveCommitsKeys(st, cs[..n], fails, h);
      ShaSavedSnoc(cs, fails, h);
    }
  }

  /** A sha is saved by `cs` iff it is saved by all but the last commit or
      by the last one. */
  lemma ShaSavedSnoc(cs: seq<Commit>, fails: nat -> bool, h: string)
    requires cs != []
    ensures ShaSaved(cs, fails, h) <==>
      ShaSaved(cs[..|cs| - 1], fails, h) || (!fails(|cs| - 1) && cs[|cs| - 1].sha == h)
  {
    var n := |cs| - 1;
    if ShaSaved(cs[..n], fails, h) {
      var k :| 0 <= k < n && !fails(k) && cs[..n][k].sha == h;
      assert cs[k].sha == h;
    }
    if ShaSaved(cs, fails, h) && (fails(n) || cs[n].sha != h) {
      var k :| 0 <= k < |cs| && !fails(k) && cs[k].sha == h;
      assert cs[..n][k].sha == h;
    }
  }

  /** Appends a row for each file change whose write does not fail, in order. */
  function SaveFileChanges(st: Store, fcs: seq<FileChange>, fails: nat -> bool): (st': Store)
    ensures st'.releases == st.releases && st'.commits == st.commits
    ensures |st'.files| == |st.files| + CountOk(fails, |fcs|)
    ensures st'.files[..|st.files|] == st.files
    ensures forall k :: 0 <= k < |Kept(fcs, fails)| ==> st'.files[|st.files| + k].change == Kept(fcs, fails)[k]
    ensures forall k :: |st.files| <= k < |st'.files| ==> st'.files[k].change in fcs
    ensures forall j :: 0 <= j < |fcs| && !fails(j) ==>
      exists k :: |st.files| <= k < |st'.files| && st'.files[k].change == fcs[j]
    ensures Valid(st) ==> Valid(st')
    decreases |fcs|
  {
    if fcs == [] then st
    else
      var n := |fcs| - 1;
      var init := SaveFileChanges(st, fcs[..n], fails);
      assert forall j :: 0 <= j < n ==> fcs[..n][j] == fcs[j];
      KeptLast(fcs, fails);
      if fails(n) then
        init
      else
        var st' := SaveFileChange(init, fcs[n]);
        assert st'.files[..|init.files|] == init.files;
        assert st'.files[..|st.files|] == init.files[..|st.files|];
        assert |init.files| == |st.files| + |Kept(fcs[..n], fails)|;
        assert forall k :: 0 <= k < |init.files| ==> st'.files[k] == init.files[k];
        assert st'.files[|init.files|].change == fcs[n];
        assert forall k :: |st.files| <= k < |init.files| ==> st'.files[k].change in fcs[..n];
        st'
  }

  /** Sets every record's release pair to (fromTag, toTag). */
  function Stamp(fcs: seq<FileChange>, fromTag: string, toTag: string): (r: seq<FileChange>)
    ensures |r| == |fcs|
    ensures forall j :: 0 <= j < |r| ==> r[j] == fcs[j].(fromRelease := fromTag, toRelease := toTag)
  {
    seq(|fcs|, j requires 0 <= j < |fcs| => fcs[j].(fromRelease := fromTag, toRelease := toTag))
  }

  /** Which commit saves of pair i fail, by position. */
  function CommitFails(ctx: Ctx, i: nat): nat -> bool {
    (j: nat) => ctx.faults.commitSaveFails(i, j)
  }

  /** Which file-change saves of pair i fail, by position. */
  function FileFails(ctx: Ctx, i: nat): nat -> bool {
    (j: nat) => ctx.faults.fileSaveFails(i, j)
  }

  /** Stamping a repository's changes with a pair's tags gives changes of
      that pair. */
  lemma StampedMatch(files: seq<FileChange>, owner: string, repo: string, fromTag: string, toTag: string)
    ensures (forall j :: 0 <= j < |files| ==> files[j].owner == owner && files[j].repo == repo) ==>
      forall x :: x in Stamp(files, fromTag, toTag) ==> RowMatches(x, owner, repo, fromTag, toTag)
  {
  }

  /** The second half of a visit, once the commits are saved: fetch the
      file changes, then stamp and save them. `calls` are the calls made so
      far. */
  function FetchDiff(ctx: Ctx, i: nat, p: Pair, st: Store, calls: seq<Call>): (r: PairStep)
    ensures r.outcome.FileFetchFailed? || r.outcome.Stored?
    ensures r.outcome.FileFetchFailed? <==>
      p.from.commitSha != "" && p.to.commitSha != ""
      && ctx.remote.compareFiles(i, p.from.commitSha, p.to.commitSha).Err?
    ensures r.outcome.FileFetchFailed? ==> r.store == st
    ensures r.store.releases == st.releases && r.store.commits == st.commits
    ensures |st.files| <= |r.store.files| && r.store.files[..|st.files|] == st.files
    ensures forall k :: |st.files| <= k < |r.store.files| ==>
      RowMatches(r.store.files[k].change, ctx.owner, ctx.repo, p.from.tagName, p.to.tagName)
    ensures r.outcome.Stored? ==> |r.store.files| == |st.files| + r.outcome.landed
    ensures r.outcome.Stored? && r.outcome.landed > 0 ==> PairCached(r.store, ctx.owner, ctx.repo, p)
    ensures r.calls == calls + FetchFileChanges(ctx.remote, ctx.owner, ctx.repo, i, p.from.commitSha, p.to.commitSha).calls
    ensures p.from.commitSha == "" || p.to.commitSha == "" ==> r.outcome == Stored(0) && r.store == st
    ensures Valid(st) ==> Valid(r.store)
  {
    var ff := FetchFileChanges(ctx.remote, ctx.owner, ctx.repo, i, p.from.commitSha, p.to.commitSha);
    match ff.result
    case Err(_) => PairStep(FileFetchFailed, st, calls + ff.calls)
    case Ok(files) =>
      StampedMatch(files, ctx.owner, ctx.repo, p.from.tagName, p.to.tagName);
      var st2 := SaveFileChanges(st, Stamp(files, p.from.tagName, p.to.tagName), FileFails(ctx, i));
      var landed := |st2.files| - |st.files|;
      if landed > 0 then
        assert RowMatches(st2.files[|st.files|].change, ctx.owner, ctx.repo, p.from.tagName, p.to.tagName);
        PairStep(Stored(landed), st2, calls + ff.calls)
      else
        PairStep(Stored(landed), st2, calls + ff.calls)
  }

  /** The part of a visit after the probe said "not cached": fetch and save
      the commits, then fetch, stamp and save the file changes. A failed
      fetch abandons the rest of this pair only. */
  function FetchAndStore(ctx: Ctx, i: nat, p: Pair, st: Store): (r: PairStep)
    ensures !r.outcome.Skipped?
    ensures r.outcome.CommitFetchFailed? ==> r.store == st
    ensures r.outcome.FileFetchFailed? ==> r.store.files == st.files
    ensures r.store.releases == st.releases
    ensures st.commits.Keys <= r.store.commits.Keys
    ensures |st.files| <= |r.store.files| && r.store.files[..|st.files|] == st.files
    ensures forall k :: |st.files| <= k < |r.store.files| ==>
      RowMatches(r.store.files[k].change, ctx.owner, ctx.repo, p.from.tagName, p.to.tagName)
    ensures r.outcome.Stored? ==> |r.store.files| == |st.files| + r.outcome.landed
    ensures r.outcome.Stored? && r.outcome.landed > 0 ==> PairCached(r.store, ctx.owner, ctx.repo, p)
    ensures forall c :: c in r.calls ==>
      c.pair == i && c.fromSha == p.from.commitSha && c.toSha == p.to.commitSha
    ensures p.from.commitSha == "" || p.to.commitSha == "" ==>
      r.outcome == Stored(0) && r.store == st && r.calls == []
    ensures Valid(st) ==> Valid(r.store)
  {
    var fc := FetchCommits(ctx.remote, ctx.owner, ctx.repo, i, p.from.commitSha, p.to.commitSha);
    match fc.result
    case Err(_) => PairStep(CommitFetchFailed, st, fc.calls)
    case Ok(commits) => FetchDiff(ctx, i, p, SaveCommits(st, commits, CommitFails(ctx, i)), fc.calls)
  }

  /** Which fetch fails decides the outcome: the commit comparison first,
      then the file comparison, and only when both shas are set. */
  lemma FetchAndStoreFails(ctx: Ctx, i: nat, p: Pair, st: Store)
    ensures FetchAndStore(ctx, i, p, st).outcome.CommitFetchFailed? <==>
      p.from.commitSha != "" && p.to.commitSha != ""
      && ctx.remote.compareCommits(i, p.from.commitSha, p.to.commitSha).Err?
    ensures FetchAndStore(ctx, i, p, st).outcome.FileFetchFailed? <==>
      p.from.commitSha != "" && p.to.commitSha != ""
      && ctx.remote.compareCommits(i, p.from.commitSha, p.to.commitSha).Ok?
      && ctx.remote.compareFiles(i, p.from.commitSha, p.to.commitSha).Err?
  {
    var fc := FetchCommits(ctx.remote, ctx.owner, ctx.repo, i, p.from.commitSha, p.to.commitSha);
    if fc.result.Ok? {
      assert FetchAndStore(ctx, i, p, st) == FetchDiff(ctx, i, p, SaveCommits(st, fc.result.value, CommitFails(ctx, i)), fc.calls);
    }
  }

  /** Once the file comparison answers, the diff half saves the stamped
      diff and counts the rows that landed. */
  lemma FetchDiffStored(ctx: Ctx, i: nat, p: Pair, st: Store, calls: seq<Call>)
    requires p.from.commitSha != "" && p.to.commitSha != ""
    requires ctx.remote.compareFiles(i, p.from.commitSha, p.to.commitSha).Ok?
    ensures
      var files := FetchFileChanges(ctx.remote, ctx.owner, ctx.repo, i, p.from.commitSha, p.to.commitSha).result.value;
      var st2 := SaveFileChanges(st, Stamp(files, p.from.tagName, p.to.tagName), FileFails(ctx, i));
      FetchDiff(ctx, i, p, st, calls).store == st2
      && FetchDiff(ctx, i, p, st, calls).outcome == Stored(|st2.files| - |st.files|)
  {
  }

  /** With both shas set and both comparisons answered, the visit saves
      the fetched commits, then the stamped diff, and counts the rows that
      landed: the stamped changes whose save succeeds. Which rows those are,
      in order, is `SaveFileChanges`'s contract. */
  lemma FetchAndStoreStored(ctx: Ctx, i: nat, p: Pair, st: Store)
    requires p.from.commitSha != "" && p.to.commitSha != ""
    requires ctx.remote.compareCommits(i, p.from.commitSha, p.to.commitSha).Ok?
    requires ctx.remote.compareFiles(i, p.from.commitSha, p.to.commitSha).Ok?
    ensures
      var commits := FetchCommits(ctx.remote, ctx.owner, ctx.repo, i, p.from.commitSha, p.to.commitSha).result.value;
      var files := FetchFileChanges(ctx.remote, ctx.owner, ctx.repo, i, p.from.commitSha, p.to.commitSha).result.value;
      && FetchAndStore(ctx, i, p, st).outcome
         == Stored(|Kept(Stamp(files, p.from.tagName, p.to.tagName), FileFails(ctx, i))|)
      && FetchAndStore(ctx, i, p, st).store
         == SaveFileChanges(SaveCommits(st, commits, CommitFails(ctx, i)),
                            Stamp(files, p.from.tagName, p.to.tagName), FileFails(ctx, i))
  {
    var fc := FetchCommits(ctx.remote, ctx.owner, ctx.repo, i, p.from.commitSha, p.to.commitSha);
    var st1 := SaveCommits(st, fc.result.value, CommitFails(ctx, i));
    assert FetchAndStore(ctx, i, p, st) == FetchDiff(ctx, i, p, st1, fc.calls);
    FetchDiffStored(ctx, i, p, st1, fc.calls);
  }

  /** Once the commit comparison answers, the commit table is what saving
      the fetched commits makes it, whatever the file comparison does: the
      commit saves come first and stay. Every compared commit whose save
      succeeds is stored under its sha. */
  lemma FetchAndStoreCommits(ctx: Ctx, i: nat, p: Pair, st: Store)
    requires p.from.commitSha != "" && p.to.commitSha != ""
    requires ctx.remote.compareCommits(i, p.from.commitSha, p.to.commitSha).Ok?
    ensures FetchAndStore(ctx, i, p, st).store.commits
            == SaveCommits(st, FetchCommits(ctx.remote, ctx.owner, ctx.repo, i, p.from.commitSha, p.to.commitSha).result.value,
                           CommitFails(ctx, i)).commits
    ensures forall j :: 0 <= j < |ctx.remote.compareCommits(i, p.from.commitSha, p.to.commitSha).value|
                        && !ctx.faults.commitSaveFails(i, j) ==>
      ctx.remote.compareCommits(i, p.from.commitSha, p.to.commitSha).value[j].sha
      in FetchAndStore(ctx, i, p, st).store.commits
  {
    var fc := FetchCommits(ctx.remote, ctx.owner, ctx.repo, i, p.from.commitSha, p.to.commitSha);
    var st1 := SaveCommits(st, fc.result.value, CommitFails(ctx, i));
    assert FetchAndStore(ctx, i, p, st) == FetchDiff(ctx, i, p, st1, fc.calls);
    var api := ctx.remote.compareCommits(i, p.from.commitSha, p.to.commitSha).value;
    forall j | 0 <= j < |api| && !ctx.faults.commitSaveFails(i, j)
      ensures api[j].sha in FetchAndStore(ctx, i, p, st).store.commits
    {
      assert !CommitFails(ctx, i)(j);
      assert fc.result.value[j].sha == api[j].sha;
    }
  }

  /** A failed file comparison abandons the pair after its commits are
      saved: the store is the old one with those commits, no file-change
      row is added, and whether the pair reads as cached is as before, so
      the next run fetches the pair again in full. */
  lemma FileFetchFailedKeepsCommits(ctx: Ctx, i: nat, p: Pair, st: Store)
    requires FetchAndStore(ctx, i, p, st).outcome.FileFetchFailed?
    ensures FetchCommits(ctx.remote, ctx.owner, ctx.repo, i, p.from.commitSha, p.to.commitSha).result.Ok?
    ensures FetchAndStore(ctx, i, p, st).store
            == SaveCommits(st, FetchCommits(ctx.remote, ctx.owner, ctx.repo, i, p.from.commitSha, p.to.commitSha).result.value,
                           CommitFails(ctx, i))
    ensures FetchAndStore(ctx, i, p, st).store.files == st.files
    ensures PairCached(FetchAndStore(ctx, i, p, st).store, ctx.owner, ctx.repo, p) <==> PairCached(st, ctx.owner, ctx.repo, p)
  {
    var fc := FetchCommits(ctx.remote, ctx.owner, ctx.repo, i, p.from.commitSha, p.to.commitSha);
    if fc.result.Ok? {
      var st1 := SaveCommits(st, fc.result.value, CommitFails(ctx, i));
      assert FetchAndStore(ctx, i, p, st) == FetchDiff(ctx, i, p, st1, fc.calls);
    }
  }

  /** A non-empty diff whose every save succeeds lands whole, and the pair
      then reads as cached. */
  lemma FullDiffLands(ctx: Ctx, i: nat, p: Pair, st: Store)
    requires p.from.commitSha != "" && p.to.commitSha != ""
    requires ctx.remote.compareCommits(i, p.from.commitSha, p.to.commitSha).Ok?
    requires ctx.remote.compareFiles(i, p.from.commitSha, p.to.commitSha).Ok?
    requires ctx.remote.compareFiles(i, p.from.commitSha, p.to.commitSha).value != []
    requires forall j :: 0 <= j < |ctx.remote.compareFiles(i, p.from.commitSha, p.to.commitSha).value| ==>
      !ctx.faults.fileSaveFails(i, j)
    ensures FetchAndStore(ctx, i, p, st).outcome
            == Stored(|ctx.remote.compareFiles(i, p.from.commitSha, p.to.commitSha).value|)
    ensures PairCached(FetchAndStore(ctx, i, p, st).store, ctx.owner, ctx.repo, p)
  {
    FetchAndStoreStored(ctx, i, p, st);
    var files := FetchFileChanges(ctx.remote, ctx.owner, ctx.repo, i, p.from.commitSha, p.to.commitSha).result.value;
    var stamped := Stamp(files, p.from.tagName, p.to.tagName);
    assert forall j :: 0 <= j < |stamped| ==> !FileFails(ctx, i)(j);
    KeptAll(stamped, FileFails(ctx, i));
  }

  /** The probe said "cached": the pair is skipped. A failed probe reads as
      "not cached". */
  predicate ProbeSaysCached(ctx: Ctx, i: nat, p: Pair, st: Store) {
    !ctx.faults.probeFails(i) && PairCached(st, ctx.owner, ctx.repo, p)
  }

  /** Visits the i-th pair on store `st`: probe, then fetch and store unless
      the probe said cached. */
  function IndexPair(ctx: Ctx, i: nat, p: Pair, st: Store): (r: PairStep)
    ensures r.outcome.Skipped? <==> ProbeSaysCached(ctx, i, p, st)
    ensures r.outcome.Skipped? ==> r.store == st && r.calls == []
    ensures r.store.releases == st.releases
    ensures st.commits.Keys <= r.store.commits.Keys
    ensures |st.files| <= |r.store.files| && r.store.files[..|st.files|] == st.files
    ensures forall k :: |st.files| <= k < |r.store.files| ==>
      RowMatches(r.store.files[k].change, ctx.owner, ctx.repo, p.from.tagName, p.to.tagName)
    ensures r.outcome.Stored? && r.outcome.landed > 0 ==> PairCached(r.store, ctx.owner, ctx.repo, p)
    ensures forall c :: c in r.calls ==>
      c.pair == i && c.fromSha == p.from.commitSha && c.toSha == p.to.commitSha
    ensures Valid(st) ==> Valid(r.store)
  {
    if ProbeSaysCached(ctx, i, p, st) then PairStep(Skipped, st, [])
    else FetchAndStore(ctx, i, p, st)
  }

  /** The outcomes, final store and remote calls of visiting pairs 0..|ps|-1
      in order, starting from store `st`. */
  datatype PairsRun = PairsRun(outcomes: seq<PairOutcome>, store: Store, calls: seq<Call>)

  /** Both indexing loops after the releases are saved: visit every pair in
      order, each on the store the previous visits left. What the visits add
      up to is stated by the lemmas below. */
  function VisitPairs(ctx: Ctx, ps: seq<Pair>, st: Store): (r: PairsRun)
    ensures |r.outcomes| == |ps|
    ensures r.store.releases == st.releases
    ensures st.commits.Keys <= r.store.commits.Keys
    ensures |st.files| <= |r.store.files| && r.store.files[..|st.files|] == st.files
    ensures Valid(st) ==> Valid(r.store)
    decreases |ps|
  {
    if ps == [] then PairsRun([], st, [])
    else
      var n := |ps| - 1;
      var init := VisitPairs(ctx, ps[..n], st);
      var step := IndexPair(ctx, n, ps[n], init.store);
      assert step.store.files[..|st.files|] == init.store.files[..|st.files|];
      PairsRun(init.outcomes + [step.outcome], step.store, init.calls + step.calls)
  }

  /** Visiting one more pair extends the run by that pair's step. */
  lemma VisitPairsSnoc(ctx: Ctx, ps: seq<Pair>, i: nat, st: Store)
    requires i < |ps|
    ensures var init := VisitPairs(ctx, ps[..i], st);
      var step := IndexPair(ctx, i, ps[i], init.store);
      VisitPairs(ctx, ps[..i + 1], st) == PairsRun(init.outcomes + [step.outcome], step.store, init.calls + step.calls)
  {
    assert ps[..i + 1][..i] == ps[..i];
  }

  /** The loop step for a pair the probe reports cached. */
  lemma VisitStepCached(ctx: Ctx, ps: seq<Pair>, i: nat, saved: Store, run: PairsRun)
    requires i < |ps| && run == VisitPairs(ctx, ps[..i], saved)
    requires ProbeSaysCached(ctx, i, ps[i], run.store)
    ensures VisitPairs(ctx, ps[..i + 1], saved) == PairsRun(run.outcomes + [Skipped], run.store, run.calls)
  {
    VisitPairsSnoc(ctx, ps, i, saved);
  }

  /** The loop step for a pair the probe does not report cached. */
  lemma VisitStepFetched(ctx: Ctx, ps: seq<Pair>, i: nat, saved: Store, run: PairsRun)
    requires i < |ps| && run == VisitPairs(ctx, ps[..i], saved)
    requires !ProbeSaysCached(ctx, i, ps[i], run.store)
    ensures var step := FetchAndStore(ctx, i, ps[i], run.store);
      VisitPairs(ctx, ps[..i + 1], saved) == PairsRun(run.outcomes + [step.outcome], step.store, run.calls + step.calls)
  {
    VisitPairsSnoc(ctx, ps, i, saved);
  }

  /** Visiting one more pair leaves the earlier outcomes as they were. */
  lemma VisitPairsKeepsOutcomes(ctx: Ctx, ps: seq<Pair>, st: Store)
    requires ps != []
    ensures VisitPairs(ctx, ps[..|ps| - 1], st).outcomes == VisitPairs(ctx, ps, st).outcomes[..|ps| - 1]
  {
    var n := |ps| - 1;
    VisitPairsSnoc(ctx, ps, n, st);
    assert ps[..n + 1] == ps;
  }

  /** The run over the first j pairs is the start of the whole run. */
  lemma {:induction false} VisitPairsPrefix(ctx: Ctx, ps: seq<Pair>, st: Store, j: nat)
    requires j <= |ps|
    ensures VisitPairs(ctx, ps[..j], st).outcomes == VisitPairs(ctx, ps, st).outcomes[..j]
    decreases |ps|
  {
    if j == |ps| {
      assert ps[..j] == ps;
    } else {
      var n := |ps| - 1;
      var front := ps[..n];
      var all := VisitPairs(ctx, ps, st).outcomes;
      var before := VisitPairs(ctx, front, st).outcomes;
      VisitPairsPrefix(ctx, front, st, j);
      assert front[..j] == ps[..j];
      assert VisitPairs(ctx, ps[..j], st).outcomes == before[..j];
      VisitPairsKeepsOutcomes(ctx, ps, st);
      PrefixOfPrefix(before, all, n, j);
    }
  }

  lemma PrefixOfPrefix<T>(a: seq<T>, b: seq<T>, n: nat, j: nat)
    requires j <= n <= |b| && a == b[..n]
    ensures a[..j] == b[..j]
  {
  }

  /** The last pair, cached before the loop and probed without failure, is
      skipped. */
  lemma VisitSkipsCachedLast(ctx: Ctx, ps: seq<Pair>, st: Store)
    requires ps != [] && !ctx.faults.probeFails(|ps| - 1)
    requires PairCached(st, ctx.owner, ctx.repo, ps[|ps| - 1])
    ensures VisitPairs(ctx, ps, st).outcomes[|ps| - 1] == Skipped
  {
    var n := |ps| - 1;
    var init := VisitPairs(ctx, ps[..n], st);
    CachedMonotone(st, init.store, ctx.owner, ctx.repo, ps[n].from.tagName, ps[n].to.tagName);
    VisitStepCached(ctx, ps, n, st, init);
    assert ps[..n + 1] == ps;
  }

  /** A pair already cached when the loop starts is skipped, unless its
      probe fails: earlier visits only append rows. */
  lemma {:induction false} VisitSkipsCached(ctx: Ctx, ps: seq<Pair>, st: Store, i: nat)
    requires i < |ps| && !ctx.faults.probeFails(i) && PairCached(st, ctx.owner, ctx.repo, ps[i])
    ensures VisitPairs(ctx, ps, st).outcomes[i] == Skipped
  {
    assert ps[..i + 1][i] == ps[i];
    VisitSkipsCachedLast(ctx, ps[..i + 1], st);
    VisitPairsPrefix(ctx, ps, st, i + 1);
  }

  /** One visit keeps every cached pair cached. */
  lemma StepKeepsCached(ctx: Ctx, i: nat, p: Pair, st: Store, q: Pair)
    requires PairCached(st, ctx.owner, ctx.repo, q)
    ensures PairCached(IndexPair(ctx, i, p, st).store, ctx.owner, ctx.repo, q)
  {
    CachedMonotone(st, IndexPair(ctx, i, p, st).store, ctx.owner, ctx.repo, q.from.tagName, q.to.tagName);
  }

  /** A pair whose visit stored rows is cached when the loop ends. */
  lemma {:induction false} VisitCachesStored(ctx: Ctx, ps: seq<Pair>, st: Store, i: nat)
    requires i < |ps|
    requires VisitPairs(ctx, ps, st).outcomes[i].Stored? && VisitPairs(ctx, ps, st).outcomes[i].landed > 0
    ensures PairCached(VisitPairs(ctx, ps, st).store, ctx.owner, ctx.repo, ps[i])
    decreases |ps|
  {
    var n := |ps| - 1;
    var init := VisitPairs(ctx, ps[..n], st);
    var step := IndexPair(ctx, n, ps[n], init.store);
    if i < n {
      assert init.outcomes[i] == VisitPairs(ctx, ps, st).outcomes[i];
      VisitCachesStored(ctx, ps[..n], st, i);
      assert ps[..n][i] == ps[i];
      StepKeepsCached(ctx, n, ps[n], init.store, ps[i]);
    }
  }

  /** Every remote call belongs to a visited pair that was not skipped and
      carries that pair's SHAs. */
  lemma {:induction false} VisitCalls(ctx: Ctx, ps: seq<Pair>, st: Store)
    ensures forall c :: c in VisitPairs(ctx, ps, st).calls ==>
      && c.pair < |ps|
      && !VisitPairs(ctx, ps, st).outcomes[c.pair].Skipped?
      && c.fromSha == ps[c.pair].from.commitSha
      && c.toSha == ps[c.pair].to.commitSha
    decreases |ps|
  {
    if ps != [] {
      var n := |ps| - 1;
      var init := VisitPairs(ctx, ps[..n], st);
      var step := IndexPair(ctx, n, ps[n], init.store);
      var r := VisitPairs(ctx, ps, st);
      assert r == PairsRun(init.outcomes + [step.outcome], step.store, init.calls + step.calls);
      VisitCalls(ctx, ps[..n], st);
      forall c | c in r.calls
        ensures && c.pair < |ps| && !r.outcomes[c.pair].Skipped?
                && c.fromSha == ps[c.pair].from.commitSha && c.toSha == ps[c.pair].to.commitSha
      {
        if c in init.calls {
          assert r.outcomes[c.pair] == init.outcomes[c.pair];
          assert ps[..n][c.pair] == ps[c.pair];
        } else {
          assert c in step.calls && r.outcomes[n] == step.outcome;
        }
      }
    }
  }

  /** `fc` is a row of the repository for one of the pairs in `ps`. */
  predicate RowOfSomePair(ctx: Ctx, ps: seq<Pair>, fc: FileChange) {
    exists i :: 0 <= i < |ps| && RowMatches(fc, ctx.owner, ctx.repo, ps[i].from.tagName, ps[i].to.tagName)
  }

  /** Every row the loop appends belongs to the repository and to one of
      the visited pairs. */
  lemma {:induction false} VisitRows(ctx: Ctx, ps: seq<Pair>, st: Store)
    ensures forall k :: |st.files| <= k < |VisitPairs(ctx, ps, st).store.files| ==>
      RowOfSomePair(ctx, ps, VisitPairs(ctx, ps, st).store.files[k].change)
    decreases |ps|
  {
    if ps != [] {
      var n := |ps| - 1;
      var init := VisitPairs(ctx, ps[..n], st);
      var r := VisitPairs(ctx, ps, st);
      VisitRows(ctx, ps[..n], st);
      forall k | |st.files| <= k < |r.store.files|
        ensures RowOfSomePair(ctx, ps, r.store.files[k].change)
      {
        var fc := r.store.files[k].change;
        if k < |init.store.files| {
          assert fc == init.store.files[k].change;
          assert RowOfSomePair(ctx, ps[..n], fc);
          var i :| 0 <= i < n &&
            RowMatches(fc, ctx.owner, ctx.repo, ps[..n][i].from.tagName, ps[..n][i].to.tagName);
          assert ps[..n][i] == ps[i];
        } else {
          assert RowMatches(fc, ctx.owner, ctx.repo, ps[n].from.tagName, ps[n].to.tagName);
        }
      }
    }
  }

  /** Re-indexing: a second run over the same pairs, on the store the first
      run left, skips every pair the first run stored rows for (unless its
      probe fails) and makes no remote call for it. */
  lemma RerunSkipsStoredPairs(ctx: Ctx, ctx2: Ctx, ps: seq<Pair>, st: Store, i: nat)
    requires ctx2.owner == ctx.owner && ctx2.repo == ctx.repo
    requires i < |ps| && !ctx2.faults.probeFails(i)
    requires VisitPairs(ctx, ps, st).outcomes[i].Stored? && VisitPairs(ctx, ps, st).outcomes[i].landed > 0
    ensures VisitPairs(ctx2, ps, VisitPairs(ctx, ps, st).store).outcomes[i] == Skipped
    ensures forall c :: c in VisitPairs(ctx2, ps, VisitPairs(ctx, ps, st).store).calls ==> c.pair != i
  {
    var st1 := VisitPairs(ctx, ps, st).store;
    VisitCachesStored(ctx, ps, st, i);
    assert PairCached(st1, ctx2.owner, ctx2.repo, ps[i]);
    VisitSkipsCached(ctx2, ps, st1, i);
    VisitCalls(ctx2, ps, st1);
  }

  /** The number of pairs the loop counts as skipped. */
  function CountSkipped(os: seq<PairOutcome>): (n: nat)
    ensures n <= |os|
  {
    if os == [] then 0
    else CountSkipped(os[..|os| - 1]) + (if os[|os| - 1].Skipped? then 1 else 0)
  }
}
