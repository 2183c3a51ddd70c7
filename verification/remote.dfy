/** The remote history source (the GitHub client in
    internal/github/fetcher.go) as an oracle, and what the fetcher makes of
    its answers: the release-to-record mapping, and the commit and
    file-change fetches with their empty-SHA short circuit.

    Pagination and the HTTP client are not modelled: each oracle field is the
    complete answer of one paginated call (its pages concatenated), or the
    error that ended it. The compare answers are indexed by the pair being
    visited, so that one run may see a transient failure for one pair and
    success for another with the same SHAs. */
module Remote {
  import opened Wrappers
  import opened Cache
  import opened PrNumber

  /** A release as the API reports it; `targetCommitish` may be absent. */
  datatype ApiRelease = ApiRelease(
    tagName: string,
    name: string,
    publishedAt: int,
    targetCommitish: Option<string>,
    body: string)

  datatype ApiCommit = ApiCommit(
    sha: string,
    message: string,
    authorName: string,
    authorEmail: string,
    date: int,
    htmlUrl: string)

  datatype ApiFile = ApiFile(
    filename: string,
    additions: int,
    deletions: int,
    changes: int,
    status: string,
    patch: string)

  /** The whole release listing: the values the page callback reported
      (`page*100/totalPages`, taken as given), then the releases in the order
      the remote returned them, or the error that stopped the listing. */
  datatype ReleaseListing = ReleaseListing(pageReports: seq<int>, result: Result<seq<ApiRelease>, string>)

  /** The remote: the release listing, and for the i-th pair of a run, the
      commit comparison and the file diff between two SHAs. */
  datatype Oracle = Oracle(
    releases: ReleaseListing,
    compareCommits: (nat, string, string) -> Result<seq<ApiCommit>, string>,
    compareFiles: (nat, string, string) -> Result<seq<ApiFile>, string>)

  /** A remote call made while visiting pair `pair`. */
  datatype Call =
    | ListCommits(pair: nat, fromSha: string, toSha: string)
    | DiffFiles(pair: nat, fromSha: string, toSha: string)

  /** The outcome of a fetch and the remote calls it made. */
  datatype Fetched<T> = Fetched(result: Result<seq<T>, string>, calls: seq<Call>)

  /** The commit a release points at: "" when the API gives no
      target_commitish or an empty one. */
  function CommitSha(r: ApiRelease): (sha: string)
    ensures r.targetCommitish.None? ==> sha == ""
    ensures r.targetCommitish.Some? ==> sha == r.targetCommitish.value
  {
    if r.targetCommitish.Some? && r.targetCommitish.value != "" then r.targetCommitish.value else ""
  }

  /** A listed release as a cache record, stamped with the repository. */
  function ToRelease(owner: string, repo: string, r: ApiRelease): (rel: Release)
    ensures rel.tagName == r.tagName && rel.name == r.name && rel.body == r.body
    ensures rel.publishedAt == r.publishedAt && rel.commitSha == CommitSha(r)
    ensures rel.owner == owner && rel.repo == repo
  {
    Release(r.tagName, r.name, r.publishedAt, CommitSha(r), r.body, owner, repo)
  }

  /** The release listing as cache records, in the order the remote gave
      them: nothing re-sorts it. */
  function FetchReleases(o: Oracle, owner: string, repo: string): (r: Result<seq<Release>, string>)
    ensures r.Err? <==> o.releases.result.Err?
    ensures r.Err? ==> r.error == o.releases.result.error
    ensures r.Ok? ==> |r.value| == |o.releases.result.value|
    ensures r.Ok? ==> forall i :: 0 <= i < |r.value| ==>
      var api := o.releases.result.value[i];
      && r.value[i].tagName == api.tagName
      && r.value[i].publishedAt == api.publishedAt
      && r.value[i].commitSha == CommitSha(api)
      && r.value[i].owner == owner && r.value[i].repo == repo
      && r.value[i] == ToRelease(owner, repo, api)
  {
    match o.releases.result
    case Err(e) => Err(e)
    case Ok(api) => Ok(seq(|api|, i requires 0 <= i < |api| => ToRelease(owner, repo, api[i])))
  }

  /** A compared commit as a cache record, with the PR number scanned from
      its message. */
  function ToCommit(owner: string, repo: string, c: ApiCommit): (r: Commit)
    ensures r.sha == c.sha && r.message == c.message && r.date == c.date
    ensures r.author == c.authorName && r.authorEmail == c.authorEmail && r.url == c.htmlUrl
    ensures r.owner == owner && r.repo == repo
    ensures r.prNumber == ExtractPrNumber(c.message)
  {
    Commit(c.sha, c.message, c.authorName, c.authorEmail, c.date, c.htmlUrl, owner, repo, ExtractPrNumber(c.message))
  }

  /** A diffed file as a cache record; the pair's tags are not known here
      and stay empty (Go's zero value) until the indexer stamps them. */
  function ToFileChange(owner: string, repo: string, f: ApiFile): (fc: FileChange)
    ensures fc.filename == f.filename && fc.status == f.status && fc.patch == f.patch
    ensures fc.additions == f.additions && fc.deletions == f.deletions && fc.changes == f.changes
    ensures fc.owner == owner && fc.repo == repo && fc.fromRelease == "" && fc.toRelease == ""
  {
    FileChange(f.filename, f.additions, f.deletions, f.changes, f.status, f.patch, owner, repo, "", "")
  }

  /** fetchCommits / FetchCommitsForIndexing: with either SHA empty, no
      call and an empty list; otherwise one comparison, whose failure is
      passed on. */
  function FetchCommits(o: Oracle, owner: string, repo: string, pair: nat, fromSha: string, toSha: string)
    : (r: Fetched<Commit>)
    ensures fromSha == "" || toSha == "" ==> r.result == Ok([]) && r.calls == []
    ensures fromSha != "" && toSha != "" ==>
      && r.calls == [ListCommits(pair, fromSha, toSha)]
      && (r.result.Err? <==> o.compareCommits(pair, fromSha, toSha).Err?)
      && (r.result.Ok? ==>
            var api := o.compareCommits(pair, fromSha, toSha).value;
            && |r.result.value| == |api|
            && forall i :: 0 <= i < |api| ==> r.result.value[i] == ToCommit(owner, repo, api[i]))
    ensures r.result.Ok? ==> forall c :: c in r.result.value ==>
      c.owner == owner && c.repo == repo && c.prNumber == ExtractPrNumber(c.message)
  {
    if fromSha == "" || toSha == "" then Fetched(Ok([]), [])
    else
      var calls := [ListCommits(pair, fromSha, toSha)];
      match o.compareCommits(pair, fromSha, toSha)
      case Err(e) => Fetched(Err(e), calls)
      case Ok(api) => Fetched(Ok(seq(|api|, i requires 0 <= i < |api| => ToCommit(owner, repo, api[i]))), calls)
  }

  /** fetchFileChanges / FetchFileChangesForIndexing, with the same short
      circuit; the records carry the repository and empty release tags. */
  function FetchFileChanges(o: Oracle, owner: string, repo: string, pair: nat, fromSha: string, toSha: string)
    : (r: Fetched<FileChange>)
    ensures fromSha == "" || toSha == "" ==> r.result == Ok([]) && r.calls == []
    ensures fromSha != "" && toSha != "" ==>
      && r.calls == [DiffFiles(pair, fromSha, toSha)]
      && (r.result.Err? <==> o.compareFiles(pair, fromSha, toSha).Err?)
      && (r.result.Ok? ==>
            var api := o.compareFiles(pair, fromSha, toSha).value;
            && |r.result.value| == |api|
            && forall i :: 0 <= i < |api| ==> r.result.value[i] == ToFileChange(owner, repo, api[i]))
    ensures r.result.Ok? ==> forall f :: f in r.result.value ==> f.owner == owner && f.repo == repo
  {
    if fromSha == "" || toSha == "" then Fetched(Ok([]), [])
    else
      var calls := [DiffFiles(pair, fromSha, toSha)];
      match o.compareFiles(pair, fromSha, toSha)
      case Err(e) => Fetched(Err(e), calls)
      case Ok(api) => Fetched(Ok(seq(|api|, i requires 0 <= i < |api| => ToFileChange(owner, repo, api[i]))), calls)
  }
}
