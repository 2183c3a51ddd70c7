# ordiff core, modelled in Dafny

ordiff caches a GitHub repository's releases, the commits between
consecutive releases and the files each pair of releases changed. It keeps
them in a local SQLite store and answers comparisons from that cache. This
project models the core of that system:

- the store (`internal/cache/db.go`): releases keyed by tag, commits keyed
  by SHA, and an append-only `file_changes` table with increasing ids. It
  also covers the queries: one release, a repository's releases, commits in
  a date window, the file changes of a pair, the cache probe, the row count
  and the PR count;
- the fetcher (`internal/github/fetcher.go`): how a remote release becomes a
  record, the empty-SHA short circuit of the commit and file fetches,
  `extractPrNumber`, the command-line indexing pass `IndexAll`, and
  `GetCompareData`;
- the MCP server (`cmd/mcp/server.go`): the run status record, the
  `index_repo` start guard, the three status transitions, and the
  `get_index_status` text. It also covers the background run
  `runIndexingAsync` with its progress formulas, and the three text
  renderings `formatReleases`, `formatCompareResult` and
  `formatSummaryData`.

The remote is an oracle (`Remote.Oracle`). It gives the whole release
listing and, for the i-th pair of a run, the commit comparison and the file
diff. Failed store writes and failed cache probes come from a second oracle
(`Indexing.Faults`). Each run is a sequence of pair visits
(`Indexing.VisitPairs`). Both indexing passes are proved to perform that
sequence, starting from the store left after saving the releases. The
background run also returns every status record it publishes, in order.

Modules, one file each:

| module | file | models |
|---|---|---|
| `Wrappers` | wrappers.dfy | `Option`, `Result` |
| `Decimal` | decimal.dfy | `strconv.Itoa`, the value of a digit run, Go's truncating division |
| `Sorting` | sorting.dfy | the `ORDER BY` of the queries |
| `Cache` | cache.dfy | db.go |
| `PrNumber` | prnumber.dfy | `extractPrNumber` |
| `Remote` | remote.dfy | the GitHub answers and their mapping to records |
| `Indexing` | indexing.dfy | one pair visit and the pair loop shared by both passes |
| `Fetcher` | fetcher.dfy | `IndexAll`, `GetCompareData` |
| `Status` | status.dfy | the run status, the start guard, the status text |
| `Server` | server.dfy | `runIndexingAsync` and its progress reports |
| `Format` | format.dfy | the tool texts |

Behaviours of the code that the model keeps as they are:

- The release list is kept in the order the remote returned it. Nothing
  sorts it by date. Pairs are consecutive entries of that list (`from` is
  entry i+1, `to` is entry i).
- A pair counts as processed as soon as the probe says it is not cached,
  before any fetch. A pair whose fetch then fails, or whose release has no
  SHA, is still counted as processed. It stays uncached, so the next run
  visits it again.
- The release table's key is the tag alone. A release of another repository
  with the same tag replaces the stored one (`Cache.SameTagOtherRepoOverwrites`).
- The commits-between query picks commits by date between the two releases'
  publication times. It looks both tags up by tag alone.

## Model

| member | source | states |
|---|---|---|
| Cache.SaveRelease | internal/cache/db.go:143-149 | insert-or-replace by tag: the tag maps to the new release, every other tag keeps its release, commits and file rows are untouched, the store invariant is kept |
| Cache.SaveReleaseUpsert | internal/cache/db.go:143-149 | saving twice under one tag equals saving the later release once; the table grows by one row only for a new tag |
| Cache.SameTagOtherRepoOverwrites | internal/cache/db.go:143-149 | a second repository's release with the same tag makes the first repository's release unfindable by GetRelease |
| Cache.SaveCommit | internal/cache/db.go:151-161 | insert-or-replace by SHA: the SHA maps to the new commit, every other commit is unchanged, nothing else changes |
| Cache.SaveCommitUpsert | internal/cache/db.go:151-161 | saving twice under one SHA equals saving the later commit once, PR number included; one new row at most |
| Cache.SaveFileChange | internal/cache/db.go:175-181 | a plain insert: one more row carrying the change, the old rows as a prefix, an id no earlier row has |
| Cache.SaveFileChangeTwice | internal/cache/db.go:175-181 | saving the same change twice stores two rows with different ids (no deduplication) |
| Cache.GetRelease | internal/cache/db.go:210-225 | found exactly when the tag is stored under the asked owner and repo; then it is that release |
| Cache.GetReleases | internal/cache/db.go:183-208 | exactly the repository's releases, each once, newest publication first; in a valid store each is the row under its own tag, so values and rows correspond one to one |
| Cache.GetCommitsBetween | internal/cache/db.go:227-257 | exactly the repository's commits dated between the two releases' publication times, each once, oldest first; empty when a tag is missing or the window is inverted; in a valid store each is the row under its own SHA |
| Cache.GetFileChanges | internal/cache/db.go:259-283 | every row matching owner, repo and both tags is returned, and only such rows |
| Cache.GetFileChangesInRowOrder | internal/cache/db.go:259-283 | one change per matching row, no more and no fewer; the model returns them in insertion order, which the SQL (no ORDER BY) does not promise |
| Cache.ChangesMatchingInRowOrder | internal/cache/db.go:270-281 | the scan keeps the k-th matching row as its k-th result, for every k |
| Cache.CachedIffFileChanges | internal/cache/db.go:298-308 | the cache probe is true exactly when the file-change query for the pair is non-empty |
| Cache.CachedMonotone | internal/cache/db.go:298-308 | rows are only appended, so a cached pair stays cached |
| Cache.CachedAfterSave | internal/cache/db.go:298-308 | after one insert a pair is cached exactly when it was already cached or the new row carries its key |
| Cache.PairRowsWithinRepoCount | internal/cache/db.go:310-317 | the repository's row count is at least the number of rows of any one pair |
| Cache.PrCountWithinCommits | internal/cache/db.go:285-296 | the number of distinct PR numbers in a window is at most the number of commits in it |
| PrNumber.ExtractPrNumberSpec | internal/github/fetcher.go:226-248 | no number exactly when no prefix's first occurrence is followed somewhere by a digit; otherwise the value of the first digit run after the first prefix that has one |
| PrNumber.ScanFresh | internal/github/fetcher.go:231-239 | from an empty buffer the digit loop returns nothing when no digit follows, else exactly the first maximal digit run |
| PrNumber.ExtractFromSpec | internal/github/fetcher.go:226-248 | over any prefix list: no number iff no prefix is followed by a digit, else the earliest such prefix decides with its first digit run |
| PrNumber.PrPrefixNeverDecides | internal/github/fetcher.go:227-231 | the "PR #" prefix never decides the result: whenever it would find a number, "#" has already found one |
| PrNumber.HashReference | internal/github/fetcher.go:226-248 | a message with no '#' before "#n", and no digit right after n, yields n |
| PrNumber.PullReference | internal/github/fetcher.go:226-248 | a message without '#', with no digit before "pull/n" and none right after n, yields n |
| PrNumber.NoDigitNoNumber | internal/github/fetcher.go:240-247 | a message without digits yields no number |
| PrNumber.HashNumberRoundTrip | internal/github/fetcher.go:226-248 | the decimal text of n after "#" reads back as n |
| Remote.CommitSha | internal/github/fetcher.go:126-129 | the record's SHA is the target commitish when the API gives one, else empty |
| Remote.ToRelease | internal/github/fetcher.go:126-140 | tag, name, body and publication date are copied, the SHA is the target commitish or empty, and the record carries the repository |
| Remote.FetchReleases | internal/github/fetcher.go:112-150 | the listing's error is passed on; otherwise one record per API release, in API order, each the mapping of that API release |
| Remote.ToCommit | internal/github/fetcher.go:169-185 | SHA, message, author name, author email, URL and author date are copied, the record carries the repository, and its PR number is the one scanned from the message |
| Remote.ToFileChange | internal/github/fetcher.go:209-220 | file name, additions, deletions, changes, status and patch are copied, the record carries the repository, and its release tags are empty |
| Remote.FetchCommits | internal/github/fetcher.go:152-196 | an empty SHA gives an empty list with no remote call; otherwise one comparison call whose failure is passed on, and on success the i-th record is the mapping of the i-th compared commit |
| Remote.FetchFileChanges | internal/github/fetcher.go:198-224 | the same short circuit; otherwise one diff call whose failure is passed on, and on success the i-th record is the mapping of the i-th changed file |
| Indexing.Pairs | internal/github/fetcher.go:62-64 | n releases give n-1 pairs (none for n <= 1); pair i runs from release i+1 to release i; consecutive pairs share a release |
| Indexing.Kept | internal/github/fetcher.go:85-89 | the elements whose save succeeds: as many as the successful saves, each from the list, and every successful one included |
| Indexing.KeptOnlySaved | internal/github/fetcher.go:85-89 | every kept element has a position in the list whose save succeeds, so an element saved only at failing positions is left out |
| Indexing.SaveCommits | internal/github/fetcher.go:85-89 | every commit whose save succeeds is stored under its SHA; releases and file rows are untouched; the store invariant is kept |
| Indexing.SaveCommitsLastWins | internal/github/fetcher.go:85-89 | under each SHA the store holds the last commit carrying it whose save succeeded |
| Indexing.SaveCommitsKeys | internal/github/fetcher.go:85-89 | saving adds exactly the SHAs of the successful saves; every other SHA keeps its commit |
| Indexing.SaveFileChanges | internal/github/fetcher.go:97-103 | the appended rows are exactly the changes whose save succeeds, in order, after the old rows |
| Indexing.FetchAndStore | internal/github/fetcher.go:79-103 | a failed commit fetch leaves the store as it was; a failed file fetch adds no file-change row (its saved commits stay, `Indexing.FileFetchFailedKeepsCommits`); a SHA-less pair makes no call and stores nothing; new rows carry the pair's key; a pair with a landed row is cached; releases are untouched and rows only appended |
| Indexing.FetchAndStoreFails | internal/github/fetcher.go:79-95 | the commit fetch fails exactly when both SHAs are set and the commit comparison errs; the file fetch fails exactly when both are set, the commits came back and the diff errs |
| Indexing.FetchAndStoreStored | internal/github/fetcher.go:79-103 | with both answers, the store is the stamped diff saved over the store with the fetched commits saved, so the new rows are exactly the stamped changes whose save succeeds, in order, and the outcome counts them |
| Indexing.FetchAndStoreCommits | internal/github/fetcher.go:79-95 | once the commit comparison answers, the commit table is what saving the fetched commits makes it, whether or not the file comparison then fails, and each compared commit whose save succeeds is stored under its SHA |
| Indexing.FileFetchFailedKeepsCommits | internal/github/fetcher.go:85-95 | when the file comparison fails the store is the old one plus the saved commits: no file-change row is added and the pair is cached exactly when it was before, so the next run fetches it again in full |
| Indexing.FullDiffLands | internal/github/fetcher.go:79-103 | a non-empty diff with no failed save lands whole: the outcome counts every changed file and the pair is then cached |
| Indexing.IndexPair | internal/github/fetcher.go:66-75 | a pair is skipped exactly when the probe succeeds and reports it cached; a skipped pair changes nothing and makes no call |
| Indexing.VisitPairs | internal/github/fetcher.go:62-106 | one outcome per pair; releases untouched, commits only added, file rows only appended, store invariant kept |
| Indexing.VisitPairsPrefix | internal/github/fetcher.go:62-106 | the outcomes of visiting the first j pairs are the first j outcomes of the whole run: later pairs never change an earlier verdict |
| Indexing.VisitSkipsCached | internal/github/fetcher.go:66-74 | a pair cached when the loop starts is skipped whenever its probe succeeds |
| Indexing.VisitCachesStored | internal/github/fetcher.go:97-103 | a pair whose visit landed a row is cached when the loop ends |
| Indexing.VisitCalls | internal/github/fetcher.go:76-95 | every remote call belongs to a pair that was not skipped and uses that pair's two SHAs |
| Indexing.VisitRows | internal/github/fetcher.go:97-103 | every new row is a file change of one of the run's pairs, stamped with that pair's tags |
| Indexing.RerunSkipsStoredPairs | internal/github/fetcher.go:66-74 | a second run over the same pairs skips, and makes no call for, every pair the first run stored a row for, unless its probe fails |
| Fetcher.SaveReleasesLastWins | internal/github/fetcher.go:49-53 | after saving a list, each tag holds the last release in the list carrying it |
| Fetcher.SaveReleasesKeys | internal/github/fetcher.go:49-53 | saving a list adds exactly its tags; tags not in the list keep their release |
| Fetcher.SaveReleaseList | internal/github/fetcher.go:49-53 | saves in order and stops at the first failed save, reporting where it stopped |
| Fetcher.IndexAll | internal/github/fetcher.go:39-110 | a listing failure returns its cause and changes nothing; a failed release save stops the pass at the first failure with that release's tag; otherwise processed plus skipped is the number of pairs and the pair loop runs on the saved store; cached pairs are skipped; calls belong to unskipped pairs; new rows belong to the pairs |
| Fetcher.GetCompareData | internal/github/fetcher.go:250-283 | fails with the first missing tag; otherwise returns both releases, the window's commits each once in date order, the pair's file changes, and a PR count no larger than the commit count |
| Status.TryStart | cmd/mcp/server.go:89-106 | starts exactly when both names are given and no run is going, installing the starting record; a missing name or a running run leaves the record as it was, and the rejection names the running repository |
| Status.ReplyText | cmd/mcp/server.go:89-113 | the first letter tells the three replies apart; a start or a rejection names its repository as owner/repo at a fixed place |
| Status.StartReplyText | cmd/mcp/server.go:89-113 | the reply announces a start exactly when the guard lets the run start and names the requested repository; a rejection for a busy server names the running one |
| Status.SingleFlight | cmd/mcp/server.go:93-97 | after a start, no other start succeeds while the run only reports progress, and the rejection names the running repository |
| Status.RestartAfterEnd | cmd/mcp/server.go:93-105 | after an error or a finish, a new start succeeds and replaces the whole record |
| Status.UpdateIndexProgress | cmd/mcp/server.go:225-231 | only progress, total and message change |
| Status.SetIndexError | cmd/mcp/server.go:233-238 | the run stops with the error; progress, total and message stay |
| Status.FinishIndexing | cmd/mcp/server.go:240-249 | the run stops with progress equal to total and the new message; the error becomes the message only on failure |
| Status.Percent | cmd/mcp/server.go:131 | the shown percentage lies in [0, 100] when progress is within the total, and is 100 at the total |
| Status.StatusText | cmd/mcp/server.go:116-138 | the idle text exactly when no run is going and no message is left; otherwise it starts with the header and ends with the error line when there is an error, else with the message line |
| Server.SaveProgress | cmd/mcp/server.go:267 | the save-phase progress stays in [20, 29] |
| Server.SaveProgressMonotone | cmd/mcp/server.go:267 | later saves never report less |
| Server.PairProgress | cmd/mcp/server.go:287-289 | the pair-phase progress stays in [30, 99] |
| Server.PairProgressMonotone | cmd/mcp/server.go:287-289 | as processed and skipped grow, the reported progress never drops |
| Indexing.KeptAll | cmd/mcp/server.go:263-268 | with no failed save, the background run saves the same list as IndexAll |
| Server.SavePhase | cmd/mcp/server.go:262-268 | failed saves are skipped and the rest are saved in order; the phase reports 20 first, then rising values in [20, 29] |
| Server.PairPhase | cmd/mcp/server.go:270-316 | the same pair loop as IndexAll; one report per processed pair, rising, in [30, 99] |
| Server.RunIndexingAsync | cmd/mcp/server.go:251-325 | a listing failure ends the run with "Failed to fetch releases: " and the cause, and the store is unchanged; otherwise the pair loop runs on the store after the kept saves, cached pairs are skipped, progress from 20 on never drops and stays in [20, 99] until the final record, and the final record has progress 100, no run going, the previous error and the count message |
| Format.ShortSha | cmd/mcp/server.go:156-159 | the first seven characters of the SHA, or all of it when shorter |
| Format.TruncateMessage | cmd/mcp/server.go:358-361 | a message over 60 characters becomes its first 57 and "..." (60 characters); shorter ones are unchanged |
| Format.ShortenIdempotent | cmd/mcp/server.go:358-365 | shortening an already shortened SHA or message changes nothing |
| Format.ToReleaseInfo | cmd/mcp/server.go:154-166 | a release-list row has the tag, the name, the formatted date and a commit of at most seven characters |
| Format.FormatReleases | cmd/mcp/server.go:327-333 | one line per release, in the given order |
| Format.ReleaseListLines | cmd/mcp/server.go:327-333 | with newline-free fields, the text has exactly one line per release |
| Format.FormatCompareResult | cmd/mcp/server.go:335-374 | the capped loops produce the reference layout: the title, the counts, the file table (only with files) with its first ten files, then the first five commits and the "more commits" line |
| Format.CompareLineCount | cmd/mcp/server.go:335-374 | with newline-free fields, the line count is 5, plus 4 and at most ten file lines when there are files, plus at most five commit lines, plus one exactly when there are more than five commits |
| Format.SummaryDataOf | cmd/mcp/server.go:376-454 | the counts are those of the whole comparison; at most ten files and twenty commits are listed, in order, each commit with its short SHA and its full message |

## Left out

- The HTTP client and pagination. Each oracle answer is the whole paginated
  result, or the error that ended it.
- The page-progress values `page*100/totalPages` (internal/github/fetcher.go:326).
  The background run publishes them as given by the oracle
  (`Remote.ReleaseListing.pageReports`), and no bound is stated for them:
  they can exceed 100, and the formula divides by zero when the first page
  reports no next page beyond the current one. The run's progress is proved
  to rise only from the save phase on.
- The commit-fetch progress callback of `FetchCommitsForIndexing`
  (internal/github/fetcher.go:380). The background run passes a callback
  that does nothing, but it is not nil, so `page*100/totalPages` is still
  computed there. As at line 326, it divides by zero when the first page
  reports no next page beyond the current one, and Go then panics. The
  callback ignores the value, so only that panic would be observable. It is
  not modelled, as for line 326.
- Cache.GetFileChanges: the query (internal/cache/db.go:260-264) has no
  ORDER BY, so SQLite promises no row order. The model fixes insertion
  order, which decides which ten files the compare text lists
  (cmd/mcp/server.go:335-374). Another order would list other files.
- SQLite, the driver, the schema creation, `NewDB` and `Close`. The store
  is its abstract table contents.
- SQL errors of the queries. Only write and probe failures are modelled, as
  oracle faults. The text of a store error is not kept in
  `Fetcher.IndexError`.
- `SavePullRequest` (internal/cache/db.go:163-173). No path of the modelled
  core calls it, and no query reads its table.
- `GetReleasePairCount` inside `IndexAll`. The pass only logs the count; the
  query itself is modelled (`Cache.PairRowsWithinRepoCount`).
- The mutex and the goroutine. Each status transition is one atomic step on
  the record. The background run is a sequential function of its inputs.
  Interleaving with status reads is not modelled.
- viper configuration writes, the MCP transport, the tools' argument
  handling, `json.Marshal` (the summary is the record before encoding),
  logging, the 100 ms sleep message, and `time.Format` (dates enter as a
  `dateText` function parameter).
- Timestamps are integers. The source stores them as RFC 3339 text and
  compares them as text.
- `fmt.Sscanf` overflow on very long digit runs. The model reads the digit
  run as an unbounded natural number.
- `int` overflow in `Progress*100` and in the progress formulas. Integers
  are unbounded, and the formulas are proved within range for the values
  the run produces.
- The command-line files (cmd/cli) and main.go.
- Strings stand for Go's byte strings, one character per byte. Go slices
  them by byte, so a cut such as `msg[:57]` (cmd/mcp/server.go:359) can
  split a multi-byte UTF-8 character. That case is not modelled.
- Format.TruncateMessage: counts characters where the code counts bytes;
  the two agree only on single-byte text.
- Format.ShortSha: counts characters where the code counts bytes; SHAs are
  hexadecimal, so the two agree on every real SHA.
- Format.CompareLineCount: assumes no newline inside tags, file names, SHAs
  or commit messages. Multi-line messages add lines of their own, so the
  count is stated only for single-line fields.
