/** The delta record store of internal/cache/db.go, with the SQLite tables
    replaced by their abstract contents:
      - `releases`: one row per `tag_name` (the table's primary key, which
        does NOT include owner or repo);
      - `commits`: one row per `sha` (primary key, again without owner/repo);
      - `file_changes`: an append-only list of rows with an AUTOINCREMENT id.
    Timestamps are integers (the source stores RFC 3339 text and compares it
    as text). Every query becomes a pure filter, or an ordering of a filter. */
module Cache {
  import opened Wrappers
  import opened Sorting

  datatype Release = Release(
    tagName: string,
    name: string,
    publishedAt: int,
    commitSha: string,
    body: string,
    owner: string,
    repo: string)

  /** `prNumber` is the nullable `pr_number` column: None is stored as NULL. */
  datatype Commit = Commit(
    sha: string,
    message: string,
    author: string,
    authorEmail: string,
    date: int,
    url: string,
    owner: string,
    repo: string,
    prNumber: Option<nat>)

  datatype FileChange = FileChange(
    filename: string,
    additions: int,
    deletions: int,
    changes: int,
    status: string,
    patch: string,
    owner: string,
    repo: string,
    fromRelease: string,
    toRelease: string)

  /** A `file_changes` row: the record plus its AUTOINCREMENT id. */
  datatype FileRow = FileRow(id: nat, change: FileChange)

  /** The three tables; `nextId` is the id the next file-change insert gets. */
  datatype Store = Store(
    releases: map<string, Release>,
    commits: map<string, Commit>,
    files: seq<FileRow>,
    nextId: nat)

  datatype QueryError = NoRows

  const EmptyStore := Store(map[], map[], [], 1)

  /** What every reachable store satisfies: rows are filed under their own
      key, and file-change ids are issued in increasing order. */
  predicate Valid(st: Store) {
    && (forall t :: t in st.releases ==> st.releases[t].tagName == t)
    && (forall h :: h in st.commits ==> st.commits[h].sha == h)
    && (forall j :: 0 <= j < |st.files| ==> st.files[j].id < st.nextId)
    && (forall j, k :: 0 <= j < k < |st.files| ==> st.files[j].id < st.files[k].id)
  }

  // ---------------------------------------------------------------- writes

  /** INSERT OR REPLACE keyed by tag_name: the row for the tag becomes `r`,
      every other row stays. */
  function SaveRelease(st: Store, r: Release): (st': Store)
    ensures st'.releases.Keys == st.releases.Keys + {r.tagName}
    ensures st'.releases[r.tagName] == r
    ensures forall t :: t in st.releases && t != r.tagName ==> st'.releases[t] == st.releases[t]
    ensures st'.commits == st.commits && st'.files == st.files && st'.nextId == st.nextId
    ensures Valid(st) ==> Valid(st')
  {
    st.(releases := st.releases[r.tagName := r])
  }

  /** INSERT OR REPLACE keyed by sha. */
  function SaveCommit(st: Store, c: Commit): (st': Store)
    ensures st'.commits.Keys == st.commits.Keys + {c.sha}
    ensures st'.commits[c.sha] == c
    ensures forall h :: h in st.commits && h != c.sha ==> st'.commits[h] == st.commits[h]
    ensures st'.releases == st.releases && st'.files == st.files && st'.nextId == st.nextId
    ensures Valid(st) ==> Valid(st')
  {
    st.(commits := st.commits[c.sha := c])
  }

  /** Plain INSERT: a new row with a fresh id, whatever rows already exist. */
  function SaveFileChange(st: Store, fc: FileChange): (st': Store)
    ensures |st'.files| == |st.files| + 1
    ensures st'.files[..|st.files|] == st.files
    ensures st'.files[|st.files|].change == fc
    ensures st'.releases == st.releases && st'.commits == st.commits
    ensures Valid(st) ==> Valid(st') && st'.files[|st.files|].id !in set j | 0 <= j < |st.files| :: st.files[j].id
  {
    st.(files := st.files + [FileRow(st.nextId, fc)], nextId := st.nextId + 1)
  }

  // --------------------------------------------------------------- queries

  /** SELECT … WHERE owner = ? AND repo = ? AND tag_name = ?; a tag filed
      under another owner/repo is not found. */
  function GetRelease(st: Store, owner: string, repo: string, tag: string): (r: Result<Release, QueryError>)
    ensures r.Ok? <==> tag in st.releases && st.releases[tag].owner == owner && st.releases[tag].repo == repo
    ensures r.Ok? ==> r.value == st.releases[tag]
    ensures r.Ok? && Valid(st) ==> r.value.tagName == tag
  {
    if tag in st.releases && st.releases[tag].owner == owner && st.releases[tag].repo == repo then
      Ok(st.releases[tag])
    else
      Err(NoRows)
  }

  function ReleasesOf(st: Store, owner: string, repo: string): set<Release> {
    set t | t in st.releases && st.releases[t].owner == owner && st.releases[t].repo == repo :: st.releases[t]
  }

  /** The repository's releases, newest publication first. The result is
      the set of stored values; it is one release per row because in a
      `Valid` store every release sits under its own tag, which the last
      clause states. */
  method GetReleases(st: Store, owner: string, repo: string) returns (r: seq<Release>)
    ensures forall x :: x in r <==> x in st.releases.Values && x.owner == owner && x.repo == repo
    ensures forall i, j :: 0 <= i < j < |r| ==> r[i].publishedAt >= r[j].publishedAt
    ensures Distinct(r)
    ensures Valid(st) ==> forall x :: x in r ==> x.tagName in st.releases && st.releases[x.tagName] == x
  {
    r := SortByKey(ReleasesOf(st, owner, repo), (x: Release) => -x.publishedAt);
  }

  /** The rows the commits-between join selects: the repository's commits
      dated within [published_at of fromTag, published_at of toTag]. The two
      tags are looked up by tag_name alone, whichever repository filed them. */
  function CommitsInWindow(st: Store, owner: string, repo: string, fromTag: string, toTag: string): set<Commit> {
    if fromTag in st.releases && toTag in st.releases then
      var lo := st.releases[fromTag].publishedAt;
      var hi := st.releases[toTag].publishedAt;
      set h | h in st.commits && st.commits[h].owner == owner && st.commits[h].repo == repo
                && lo <= st.commits[h].date <= hi :: st.commits[h]
    else
      {}
  }

  /** Commits of the repository dated between the two releases (by
      timestamp, not by ancestry), oldest first. As with `GetReleases`, the
      result is the set of stored values, one per row in a `Valid` store,
      where every commit sits under its own sha. */
  method GetCommitsBetween(st: Store, owner: string, repo: string, fromTag: string, toTag: string)
    returns (r: seq<Commit>)
    ensures forall x :: x in r <==>
      && x in st.commits.Values && x.owner == owner && x.repo == repo
      && fromTag in st.releases && toTag in st.releases
      && st.releases[fromTag].publishedAt <= x.date <= st.releases[toTag].publishedAt
    ensures forall i, j :: 0 <= i < j < |r| ==> r[i].date <= r[j].date
    ensures Distinct(r)
    ensures |r| == |CommitsInWindow(st, owner, repo, fromTag, toTag)|
    ensures Valid(st) ==> forall x :: x in r ==> x.sha in st.commits && st.commits[x.sha] == x
    ensures fromTag !in st.releases || toTag !in st.releases ==> r == []
    ensures (fromTag in st.releases && toTag in st.releases
             && st.releases[fromTag].publishedAt > st.releases[toTag].publishedAt) ==> r == []
  {
    r := SortByKey(CommitsInWindow(st, owner, repo, fromTag, toTag), (c: Commit) => c.date);
  }

  predicate RowMatches(fc: FileChange, owner: string, repo: string, fromTag: string, toTag: string) {
    fc.owner == owner && fc.repo == repo && fc.fromRelease == fromTag && fc.toRelease == toTag
  }

  /** The changes of the rows matching the 4-key, in row order. */
  function ChangesMatching(rows: seq<FileRow>, owner: string, repo: string, fromTag: string, toTag: string)
    : (r: seq<FileChange>)
    ensures |r| <= |rows|
    ensures forall x :: x in r ==> RowMatches(x, owner, repo, fromTag, toTag)
    ensures forall x :: x in r ==> exists j :: 0 <= j < |rows| && rows[j].change == x
    ensures forall j :: 0 <= j < |rows| && RowMatches(rows[j].change, owner, repo, fromTag, toTag) ==> rows[j].change in r
  {
    if rows == [] then []
    else
      var init := rows[..|rows| - 1];
      var last := rows[|rows| - 1].change;
      var rest := ChangesMatching(init, owner, repo, fromTag, toTag);
      assert forall j :: 0 <= j < |init| ==> init[j] == rows[j];
      if RowMatches(last, owner, repo, fromTag, toTag) then rest + [last] else rest
  }

  /** SELECT … FROM file_changes WHERE owner, repo, from_release, to_release
      match; each returned record carries the query's four key values. The
      query has no ORDER BY, so SQL leaves the order open; the model chooses
      insertion order. */
  function GetFileChanges(st: Store, owner: string, repo: string, fromTag: string, toTag: string)
    : (r: seq<FileChange>)
    ensures forall x :: x in r ==> x.owner == owner && x.repo == repo && x.fromRelease == fromTag && x.toRelease == toTag
    ensures forall x :: x in r ==> exists j :: 0 <= j < |st.files| && st.files[j].change == x
    ensures forall j :: 0 <= j < |st.files| && RowMatches(st.files[j].change, owner, repo, fromTag, toTag)
                        ==> st.files[j].change in r
  {
    ChangesMatching(st.files, owner, repo, fromTag, toTag)
  }

  /** The positions of the rows matching the 4-key, ascending: the rows
      the query's WHERE clause selects, in the table's row order. */
  function MatchingPositions(rows: seq<FileRow>, owner: string, repo: string, fromTag: string, toTag: string)
    : (pos: seq<nat>)
    ensures forall k :: 0 <= k < |pos| ==> pos[k] < |rows| && RowMatches(rows[pos[k]].change, owner, repo, fromTag, toTag)
    ensures forall k, l :: 0 <= k < l < |pos| ==> pos[k] < pos[l]
    ensures forall j :: 0 <= j < |rows| && RowMatches(rows[j].change, owner, repo, fromTag, toTag) ==> j in pos
  {
    if rows == [] then []
    else
      var n := |rows| - 1;
      var init := MatchingPositions(rows[..n], owner, repo, fromTag, toTag);
      assert forall j :: 0 <= j < n ==> rows[..n][j] == rows[j];
      if RowMatches(rows[n].change, owner, repo, fromTag, toTag) then init + [n] else init
  }

  /** The existence probe behind the skip logic: COUNT(*) > 0 over the 4-key. */
  predicate HasFileChangesCached(st: Store, owner: string, repo: string, fromTag: string, toTag: string) {
    exists j :: 0 <= j < |st.files| && RowMatches(st.files[j].change, owner, repo, fromTag, toTag)
  }

  function CountRepoRows(rows: seq<FileRow>, owner: string, repo: string): (n: nat)
    ensures n <= |rows|
  {
    if rows == [] then 0
    else
      var last := rows[|rows| - 1].change;
      CountRepoRows(rows[..|rows| - 1], owner, repo) + (if last.owner == owner && last.repo == repo then 1 else 0)
  }

  /** COUNT(*) of the repository's file-change rows: rows, not pairs. */
  function GetReleasePairCount(st: Store, owner: string, repo: string): nat {
    CountRepoRows(st.files, owner, repo)
  }

  /** The distinct non-null PR numbers among a set of commits. */
  function PrNumbers(cs: set<Commit>): set<nat> {
    set c | c in cs && c.prNumber.Some? :: c.prNumber.value
  }

  /** COUNT(DISTINCT pr_number) over the commits-between window. */
  function PrCountBetween(st: Store, owner: string, repo: string, fromTag: string, toTag: string): nat {
    |PrNumbers(CommitsInWindow(st, owner, repo, fromTag, toTag))|
  }

  // ---------------------------------------------------------------- lemmas

  /** Upsert by tag: saving twice under one tag is saving once with the
      later values, and adds at most one row. */
  lemma SaveReleaseUpsert(st: Store, a: Release, b: Release)
    requires a.tagName == b.tagName
    ensures SaveRelease(SaveRelease(st, a), b) == SaveRelease(st, b)
    ensures |SaveRelease(st, b).releases| == |st.releases| + (if b.tagName in st.releases then 0 else 1)
  {
    var m := st.releases;
    assert m[a.tagName := a][b.tagName := b] == m[b.tagName := b];
  }

  /** Because the key is tag_name alone, another repository's release with
      the same tag replaces the first one, which then can no longer be found
      under its own owner/repo. */
  lemma SameTagOtherRepoOverwrites(st: Store, a: Release, b: Release)
    requires a.tagName == b.tagName && (a.owner != b.owner || a.repo != b.repo)
    ensures GetRelease(SaveRelease(SaveRelease(st, a), b), a.owner, a.repo, a.tagName).Err?
    ensures GetRelease(SaveRelease(SaveRelease(st, a), b), b.owner, b.repo, b.tagName) == Ok(b)
  {
  }

  /** Upsert by sha; a commit saved without a PR number reads back without one. */
  lemma SaveCommitUpsert(st: Store, a: Commit, b: Commit)
    requires a.sha == b.sha
    ensures SaveCommit(SaveCommit(st, a), b) == SaveCommit(st, b)
    ensures SaveCommit(st, b).commits[b.sha].prNumber == b.prNumber
    ensures |SaveCommit(st, b).commits| == |st.commits| + (if b.sha in st.commits then 0 else 1)
  {
    var m := st.commits;
    assert m[a.sha := a][b.sha := b] == m[b.sha := b];
  }

  /** Saving the same file change twice yields two rows with distinct ids. */
  lemma SaveFileChangeTwice(st: Store, fc: FileChange)
    requires Valid(st)
    ensures var st2 := SaveFileChange(SaveFileChange(st, fc), fc);
      && |st2.files| == |st.files| + 2
      && st2.files[|st.files|].change == fc && st2.files[|st.files| + 1].change == fc
      && st2.files[|st.files|].id != st2.files[|st.files| + 1].id
  {
  }

  /** The probe is true exactly when the file-change query is non-empty. */
  lemma CachedIffFileChanges(st: Store, owner: string, repo: string, fromTag: string, toTag: string)
    ensures HasFileChangesCached(st, owner, repo, fromTag, toTag) <==> GetFileChanges(st, owner, repo, fromTag, toTag) != []
  {
    var r := GetFileChanges(st, owner, repo, fromTag, toTag);
    if r != [] {
      assert r[0] in r;
      var j :| 0 <= j < |st.files| && st.files[j].change == r[0];
      assert RowMatches(st.files[j].change, owner, repo, fromTag, toTag);
    }
  }

  /** A store whose file rows extend another's keeps every cached pair cached;
      no operation removes rows, so once cached a pair stays cached. */
  lemma CachedMonotone(st: Store, st': Store, owner: string, repo: string, fromTag: string, toTag: string)
    requires |st.files| <= |st'.files| && st'.files[..|st.files|] == st.files
    requires HasFileChangesCached(st, owner, repo, fromTag, toTag)
    ensures HasFileChangesCached(st', owner, repo, fromTag, toTag)
  {
    var j :| 0 <= j < |st.files| && RowMatches(st.files[j].change, owner, repo, fromTag, toTag);
    assert st'.files[j] == st.files[j];
  }

  /** After one insert a pair is cached iff it was already, or the new row
      carries its key: only a landed row can make a pair cached. */
  lemma CachedAfterSave(st: Store, fc: FileChange, owner: string, repo: string, fromTag: string, toTag: string)
    ensures HasFileChangesCached(SaveFileChange(st, fc), owner, repo, fromTag, toTag)
      <==> HasFileChangesCached(st, owner, repo, fromTag, toTag) || RowMatches(fc, owner, repo, fromTag, toTag)
  {
    var st' := SaveFileChange(st, fc);
    if HasFileChangesCached(st', owner, repo, fromTag, toTag) {
      var j :| 0 <= j < |st'.files| && RowMatches(st'.files[j].change, owner, repo, fromTag, toTag);
      if j < |st.files| {
        assert st'.files[j] == st.files[j];
      }
    }
    if RowMatches(fc, owner, repo, fromTag, toTag) {
      assert RowMatches(st'.files[|st.files|].change, owner, repo, fromTag, toTag);
    }
    if HasFileChangesCached(st, owner, repo, fromTag, toTag) {
      CachedMonotone(st, st', owner, repo, fromTag, toTag);
    }
  }

  /** The model's query returns one change per matching row, taken in row
      order (the order the model chooses where SQL leaves it open). */
  lemma {:induction false} ChangesMatchingInRowOrder(rows: seq<FileRow>, owner: string, repo: string, fromTag: string, toTag: string)
    ensures |ChangesMatching(rows, owner, repo, fromTag, toTag)| == |MatchingPositions(rows, owner, repo, fromTag, toTag)|
    ensures forall k :: 0 <= k < |MatchingPositions(rows, owner, repo, fromTag, toTag)| ==>
      ChangesMatching(rows, owner, repo, fromTag, toTag)[k] == rows[MatchingPositions(rows, owner, repo, fromTag, toTag)[k]].change
    decreases |rows|
  {
    if rows != [] {
      var n := |rows| - 1;
      ChangesMatchingInRowOrder(rows[..n], owner, repo, fromTag, toTag);
      assert forall j :: 0 <= j < n ==> rows[..n][j] == rows[j];
    }
  }

  /** GetFileChanges returns exactly the changes of the matching rows, one
      per row; in the model they come in the order the rows were inserted,
      an order the SQL query itself does not promise. */
  lemma GetFileChangesInRowOrder(st: Store, owner: string, repo: string, fromTag: string, toTag: string)
    ensures var r := GetFileChanges(st, owner, repo, fromTag, toTag);
      var pos := MatchingPositions(st.files, owner, repo, fromTag, toTag);
      && |r| == |pos|
      && forall k :: 0 <= k < |pos| ==> r[k] == st.files[pos[k]].change
  {
    ChangesMatchingInRowOrder(st.files, owner, repo, fromTag, toTag);
  }

  lemma {:induction false} MatchingWithinRepoCount(rows: seq<FileRow>, owner: string, repo: string, fromTag: string, toTag: string)
    ensures |ChangesMatching(rows, owner, repo, fromTag, toTag)| <= CountRepoRows(rows, owner, repo)
  {
    if rows != [] {
      MatchingWithinRepoCount(rows[..|rows| - 1], owner, repo, fromTag, toTag);
    }
  }

  /** The repository's row count bounds the rows of any one of its pairs. */
  lemma PairRowsWithinRepoCount(st: Store, owner: string, repo: string, fromTag: string, toTag: string)
    ensures |GetFileChanges(st, owner, repo, fromTag, toTag)| <= GetReleasePairCount(st, owner, repo)
  {
    MatchingWithinRepoCount(st.files, owner, repo, fromTag, toTag);
  }

  lemma SubsetNoLarger(a: set<nat>, b: set<nat>)
    requires a <= b
    ensures |a| <= |b|
  {
    assert b == a + (b - a);
  }

  lemma {:induction false} ImageNoLarger(cs: set<Commit>)
    ensures |PrNumbers(cs)| <= |cs|
    decreases |cs|
  {
    if cs != {} {
      var c :| c in cs;
      var rest := cs - {c};
      ImageNoLarger(rest);
      if c.prNumber.Some? {
        var bigger := PrNumbers(rest) + {c.prNumber.value};
        assert PrNumbers(cs) <= bigger;
        assert |bigger| <= |PrNumbers(rest)| + 1;
        SubsetNoLarger(PrNumbers(cs), bigger);
      } else {
        assert PrNumbers(cs) <= PrNumbers(rest);
        SubsetNoLarger(PrNumbers(cs), PrNumbers(rest));
      }
    }
  }

  /** The PR count never exceeds the number of commits in the same window. */
  lemma PrCountWithinCommits(st: Store, owner: string, repo: string, fromTag: string, toTag: string)
    ensures PrCountBetween(st, owner, repo, fromTag, toTag) <= |CommitsInWindow(st, owner, repo, fromTag, toTag)|
  {
    ImageNoLarger(CommitsInWindow(st, owner, repo, fromTag, toTag));
  }
}
