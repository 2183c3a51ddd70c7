/** The texts the MCP tools return (cmd/mcp/server.go): the release list,
    the human-readable comparison, and the record behind the JSON summary.
    Every text is a sequence of lines, each ending in a newline; the
    functions ending in `Lines` are the reference layouts and the methods
    build the same text the way the handlers do, with capped loops. */
module Format {
  import opened Wrappers
  import opened Decimal
  import opened Cache
  import opened Fetcher

  /** At most seven leading characters of a SHA, as every view shows it. */
  function ShortSha(sha: string): (r: string)
    ensures |sha| <= 7 ==> r == sha
    ensures |sha| > 7 ==> |r| == 7
    ensures r == sha[..|r|]
  {
    if |sha| > 7 then sha[..7] else sha
  }

  /** A message of more than 60 bytes is cut to its first 57 and "...". */
  function TruncateMessage(m: string): (r: string)
    ensures |r| <= 60
    ensures |m| <= 60 ==> r == m
    ensures |m| > 60 ==> |r| == 60 && r[..57] == m[..57] && r[57..] == "..."
  {
    if |m| > 60 then m[..57] + "..." else m
  }

  /** Shortening twice is shortening once. */
  lemma ShortenIdempotent(sha: string, m: string)
    ensures ShortSha(ShortSha(sha)) == ShortSha(sha)
    ensures TruncateMessage(TruncateMessage(m)) == TruncateMessage(m)
  {
  }

  /** The smaller of a length and a display limit. */
  function Cap(n: nat, limit: nat): (m: nat)
    ensures m <= n && m <= limit
    ensures m == n || m == limit
  {
    if n > limit then limit else n
  }

  /** The text made of the given lines, in order. */
  function Concat(ls: seq<string>): string
    decreases |ls|
  {
    if ls == [] then "" else Concat(ls[..|ls| - 1]) + ls[|ls| - 1]
  }

  lemma ConcatSnoc(ls: seq<string>, l: string)
    ensures Concat(ls + [l]) == Concat(ls) + l
  {
    assert (ls + [l])[..|ls|] == ls;
  }

  lemma {:induction false} ConcatAppend(a: seq<string>, b: seq<string>)
    ensures Concat(a + b) == Concat(a) + Concat(b)
    decreases |b|
  {
    if b != [] {
      var n := |b| - 1;
      assert (a + b)[..|a + b| - 1] == a + b[..n];
      assert (a + b)[|a + b| - 1] == b[n];
      ConcatAppend(a, b[..n]);
      assert Concat(a + b) == Concat(a + b[..n]) + b[n];
      assert Concat(b) == Concat(b[..n]) + b[n];
      assert Concat(a) + (Concat(b[..n]) + b[n]) == (Concat(a) + Concat(b[..n])) + b[n];
    } else {
      assert a + b == a;
    }
  }

  /** The line `f` renders for each element. */
  function MapLines<T>(xs: seq<T>, f: T -> string): (ls: seq<string>)
    ensures |ls| == |xs|
    ensures forall i :: 0 <= i < |xs| ==> ls[i] == f(xs[i])
  {
    seq(|xs|, i requires 0 <= i < |xs| => f(xs[i]))
  }

  /** Appends the lines of the first `limit` elements, stopping early as the
      handlers' `if i >= limit { break }` does. */
  method AppendLines<T>(out: string, xs: seq<T>, limit: nat, f: T -> string) returns (out': string)
    ensures out' == out + Concat(MapLines(xs[..Cap(|xs|, limit)], f))
  {
    ghost var all := MapLines(xs, f);
    out' := out;
    var i := 0;
    while i < |xs|
      invariant i <= Cap(|xs|, limit)
      invariant out' == out + Concat(all[..i])
    {
      if i >= limit {
        break;
      }
      assert all[..i + 1] == all[..i] + [all[i]];
      ConcatSnoc(all[..i], all[i]);
      out' := out' + f(xs[i]);
      i := i + 1;
    }
    assert MapLines(xs[..i], f) == all[..i];
  }

  /** The number of newline characters in a text. */
  function Newlines(s: string): nat
    decreases |s|
  {
    if s == [] then 0 else Newlines(s[..|s| - 1]) + (if s[|s| - 1] == '\n' then 1 else 0)
  }

  /** One line: it ends in a newline and holds no other. */
  predicate IsLine(s: string) {
    |s| > 0 && s[|s| - 1] == '\n' && '\n' !in s[..|s| - 1]
  }

  lemma {:induction false} NoNewlines(s: string)
    requires '\n' !in s
    ensures Newlines(s) == 0
    decreases |s|
  {
    if s != [] {
      var n := |s| - 1;
      assert forall c :: c in s[..n] ==> c in s;
      NoNewlines(s[..n]);
    }
  }

  lemma {:induction false} ConcatNewlines(ls: seq<string>)
    requires forall i :: 0 <= i < |ls| ==> IsLine(ls[i])
    ensures Newlines(Concat(ls)) == |ls|
    decreases |ls|
  {
    if ls != [] {
      var n := |ls| - 1;
      ConcatNewlines(ls[..n]);
      var l := ls[n];
      NoNewlines(l[..|l| - 1]);
      assert l[..|l| - 1] + [l[|l| - 1]] == l;
      assert Newlines(l) == 1;
      NewlinesAppend(Concat(ls[..n]), l);
    }
  }

  lemma {:induction false} NewlinesAppend(a: string, b: string)
    ensures Newlines(a + b) == Newlines(a) + Newlines(b)
    decreases |b|
  {
    if b != [] {
      var n := |b| - 1;
      assert (a + b)[..|a + b| - 1] == a + b[..n];
      assert (a + b)[|a + b| - 1] == b[n];
      NewlinesAppend(a, b[..n]);
      assert Newlines(a + b) == Newlines(a + b[..n]) + (if b[n] == '\n' then 1 else 0);
      assert Newlines(b) == Newlines(b[..n]) + (if b[n] == '\n' then 1 else 0);
    } else {
      assert a + b == a;
    }
  }

  /** A decimal number never holds a newline. */
  lemma DecimalOnOneLine(i: int)
    ensures '\n' !in IntToDecimal(i) && '\n' !in NatToDecimal(if i < 0 then 0 else i)
  {
    var r := IntToDecimal(i);
    if i < 0 {
      assert r == [r[0]] + r[1..];
      assert forall k :: 0 <= k < |r[1..]| ==> IsDigit(r[1..][k]);
    }
  }

  // ---------------------------------------------------------------------
  // list_releases

  /** One row of the release list: the date as the handler formats it and
      the shortened SHA. */
  datatype ReleaseInfo = ReleaseInfo(tag: string, name: string, date: string, commit: string)

  /** The release list's row for a stored release; the date text comes from
      `dateText`, which stands for Go's "2006-01-02" time formatting. */
  function ToReleaseInfo(r: Release, dateText: int -> string): (info: ReleaseInfo)
    ensures info.tag == r.tagName && info.name == r.name
    ensures info.commit == ShortSha(r.commitSha) && |info.commit| <= 7
    ensures info.date == dateText(r.publishedAt)
  {
    ReleaseInfo(r.tagName, r.name, dateText(r.publishedAt), ShortSha(r.commitSha))
  }

  function ReleaseLine(r: ReleaseInfo): string {
    r.tag + "  " + r.date + "  " + r.commit + "\n"
  }

  /** formatReleases: one line per release, in the given order. */
  method FormatReleases(rs: seq<ReleaseInfo>) returns (out: string)
    ensures out == Concat(MapLines(rs, ReleaseLine))
  {
    out := AppendLines("", rs, |rs|, ReleaseLine);
    assert rs[..Cap(|rs|, |rs|)] == rs;
  }

  /** With no newline inside a field, the release list has exactly one line
      per release. */
  lemma ReleaseListLines(rs: seq<ReleaseInfo>)
    requires forall i :: 0 <= i < |rs| ==>
      '\n' !in rs[i].tag && '\n' !in rs[i].date && '\n' !in rs[i].commit
    ensures Newlines(Concat(MapLines(rs, ReleaseLine))) == |rs|
  {
    var ls := MapLines(rs, ReleaseLine);
    forall i | 0 <= i < |ls| ensures IsLine(ls[i]) {
      var l := ls[i];
      assert l[..|l| - 1] == rs[i].tag + "  " + rs[i].date + "  " + rs[i].commit;
    }
    ConcatNewlines(ls);
  }

  // ---------------------------------------------------------------------
  // compare_releases

  const TopFilesHeading := ["Top Changed Files:\n", "  +Add  -Del  File\n", "  ---- ----  ----\n"]
  const RecentHeading := "Recent Commits:\n"

  function HeaderLine(r: CompareResult): string {
    "=== " + r.fromRelease.tagName + " -> " + r.toRelease.tagName + " ===\n"
  }

  function CountsLine(r: CompareResult): string {
    "Commits: " + NatToDecimal(|r.commits|) + " | PRs: " + NatToDecimal(r.prCount)
      + " | Files: " + NatToDecimal(|r.files|) + "\n"
  }

  function FileLine(f: FileChange): string {
    "  " + IntToDecimal(f.additions) + "  " + IntToDecimal(f.deletions) + "  " + f.filename + "\n"
  }

  function CommitLine(c: Commit): string {
    "  " + ShortSha(c.sha) + "  " + TruncateMessage(c.message) + "\n"
  }

  function MoreCommitsLine(n: nat): string {
    "  ... and " + NatToDecimal(n) + " more commits\n"
  }

  /** The title and the counts, each followed by a blank line. */
  function TitleLines(r: CompareResult): seq<string> {
    [HeaderLine(r), "\n", CountsLine(r), "\n"]
  }

  /** The file table: nothing without files, else the heading, the first ten
      files and a blank line. */
  function FileSectionLines(fs: seq<FileChange>): (ls: seq<string>)
    ensures fs == [] <==> ls == []
    ensures fs != [] ==> |ls| == 4 + Cap(|fs|, 10)
  {
    if fs == [] then [] else TopFilesHeading + MapLines(fs[..Cap(|fs|, 10)], FileLine) + ["\n"]
  }

  /** The commit list: the heading, the first five commits and, when some
      were left out, how many. */
  function CommitSectionLines(cs: seq<Commit>): (ls: seq<string>)
    ensures |ls| == 1 + Cap(|cs|, 5) + (if |cs| > 5 then 1 else 0)
  {
    [RecentHeading] + MapLines(cs[..Cap(|cs|, 5)], CommitLine)
      + (if |cs| > 5 then [MoreCommitsLine(|cs| - 5)] else [])
  }

  /** The comparison text, line by line. */
  function CompareLines(r: CompareResult): (ls: seq<string>)
    ensures |ls| == 4 + |FileSectionLines(r.files)| + |CommitSectionLines(r.commits)|
  {
    TitleLines(r) + FileSectionLines(r.files) + CommitSectionLines(r.commits)
  }

  lemma ConcatOne(a: string)
    ensures Concat([a]) == a
  {
    assert [a][..0] == [];
  }

  lemma ConcatFour(a: string, b: string, c: string, d: string)
    ensures Concat([a, b, c, d]) == a + b + c + d
  {
    ConcatOne(a);
    ConcatSnoc([a], b);
    ConcatSnoc([a, b], c);
    ConcatSnoc([a, b, c], d);
    assert [a] + [b] == [a, b] && [a, b] + [c] == [a, b, c] && [a, b, c] + [d] == [a, b, c, d];
  }

  lemma {:induction false} ConcatThree(out: string, a: seq<string>, b: seq<string>, c: seq<string>)
    ensures out + Concat(a + b + c) == out + Concat(a) + Concat(b) + Concat(c)
  {
    ConcatAppend(a, b);
    ConcatAppend(a + b, c);
  }

  /** Appends the file table. */
  method AppendFileSection(out: string, fs: seq<FileChange>) returns (out': string)
    ensures out' == out + Concat(FileSectionLines(fs))
  {
    out' := out;
    if |fs| > 0 {
      var heading := TopFilesHeading;
      var listed := MapLines(fs[..Cap(|fs|, 10)], FileLine);
      var start := out + Concat(heading);
      out' := AppendLines(start, fs, 10, FileLine);
      out' := out' + "\n";
      ConcatOne("\n");
      ConcatThree(out, heading, listed, ["\n"]);
    }
  }

  /** Appends the commit list. */
  method AppendCommitSection(out: string, cs: seq<Commit>) returns (out': string)
    ensures out' == out + Concat(CommitSectionLines(cs))
  {
    var heading := [RecentHeading];
    var shown := MapLines(cs[..Cap(|cs|, 5)], CommitLine);
    var more: seq<string> := if |cs| > 5 then [MoreCommitsLine(|cs| - 5)] else [];
    ConcatOne(RecentHeading);
    var start := out + Concat(heading);
    out' := AppendLines(start, cs, 5, CommitLine);
    if |cs| > 5 {
      ConcatOne(MoreCommitsLine(|cs| - 5));
      out' := out' + Concat(more);
    } else {
      assert Concat(more) == "";
      out' := out' + Concat(more);
    }
    ConcatThree(out, heading, shown, more);
  }

  /** formatCompareResult. */
  method FormatCompareResult(r: CompareResult) returns (out: string)
    ensures out == Concat(CompareLines(r))
  {
    out := HeaderLine(r) + "\n" + CountsLine(r) + "\n";
    ConcatFour(HeaderLine(r), "\n", CountsLine(r), "\n");
    out := AppendFileSection(out, r.files);
    out := AppendCommitSection(out, r.commits);
    ConcatAppend(TitleLines(r), FileSectionLines(r.files));
    ConcatAppend(TitleLines(r) + FileSectionLines(r.files), CommitSectionLines(r.commits));
  }

  predicate AllLines(ls: seq<string>) {
    forall i :: 0 <= i < |ls| ==> IsLine(ls[i])
  }

  lemma AllLinesAppend(a: seq<string>, b: seq<string>)
    requires AllLines(a) && AllLines(b)
    ensures AllLines(a + b)
  {
    assert forall i :: 0 <= i < |b| ==> (a + b)[|a| + i] == b[i];
  }

  lemma TitleAllLines(r: CompareResult)
    requires '\n' !in r.fromRelease.tagName && '\n' !in r.toRelease.tagName
    ensures AllLines(TitleLines(r))
  {
    var h := HeaderLine(r);
    assert h[..|h| - 1] == "=== " + r.fromRelease.tagName + " -> " + r.toRelease.tagName + " ===";
    DecimalOnOneLine(|r.commits|);
    DecimalOnOneLine(r.prCount);
    DecimalOnOneLine(|r.files|);
    var c := CountsLine(r);
    assert c[..|c| - 1] == "Commits: " + NatToDecimal(|r.commits|) + " | PRs: " + NatToDecimal(r.prCount)
      + " | Files: " + NatToDecimal(|r.files|);
  }

  lemma FileLineIsLine(f: FileChange)
    requires '\n' !in f.filename
    ensures IsLine(FileLine(f))
  {
    var l := FileLine(f);
    DecimalOnOneLine(f.additions);
    DecimalOnOneLine(f.deletions);
    assert l[..|l| - 1] == "  " + IntToDecimal(f.additions) + "  " + IntToDecimal(f.deletions) + "  " + f.filename;
  }

  lemma FileSectionAllLines(fs: seq<FileChange>)
    requires forall f :: f in fs ==> '\n' !in f.filename
    ensures AllLines(FileSectionLines(fs))
  {
    if fs != [] {
      var listed := MapLines(fs[..Cap(|fs|, 10)], FileLine);
      forall i | 0 <= i < |listed| ensures IsLine(listed[i]) {
        assert fs[i] in fs;
        FileLineIsLine(fs[i]);
      }
      AllLinesAppend(TopFilesHeading, listed);
      AllLinesAppend(TopFilesHeading + listed, ["\n"]);
    }
  }

  lemma CommitLineIsLine(c: Commit)
    requires '\n' !in c.sha && '\n' !in c.message
    ensures IsLine(CommitLine(c))
  {
    var l := CommitLine(c);
    var m := TruncateMessage(c.message);
    if |c.message| > 60 {
      assert forall x :: x in c.message[..57] ==> x in c.message;
    }
    assert forall x :: x in ShortSha(c.sha) ==> x in c.sha;
    assert l[..|l| - 1] == "  " + ShortSha(c.sha) + "  " + m;
  }

  lemma MoreCommitsIsLine(n: nat)
    ensures IsLine(MoreCommitsLine(n))
  {
    DecimalOnOneLine(n);
    var l := MoreCommitsLine(n);
    assert l[..|l| - 1] == "  ... and " + NatToDecimal(n) + " more commits";
  }

  lemma CommitSectionAllLines(cs: seq<Commit>)
    requires forall c :: c in cs ==> '\n' !in c.sha && '\n' !in c.message
    ensures AllLines(CommitSectionLines(cs))
  {
    var shown := MapLines(cs[..Cap(|cs|, 5)], CommitLine);
    var more := if |cs| > 5 then [MoreCommitsLine(|cs| - 5)] else [];
    forall i | 0 <= i < |shown| ensures IsLine(shown[i]) {
      assert cs[i] in cs;
      CommitLineIsLine(cs[i]);
    }
    if |cs| > 5 {
      MoreCommitsIsLine(|cs| - 5);
    }
    AllLinesAppend([RecentHeading], shown);
    AllLinesAppend([RecentHeading] + shown, more);
  }

  /** With no newline inside the tags, file names, SHAs and messages, the
      comparison shows at most ten file lines and five commit lines: its
      line count is fixed by the number of files and commits, and the
      "more commits" line is there exactly when there are more than five. */
  lemma CompareLineCount(r: CompareResult)
    requires '\n' !in r.fromRelease.tagName && '\n' !in r.toRelease.tagName
    requires forall f :: f in r.files ==> '\n' !in f.filename
    requires forall c :: c in r.commits ==> '\n' !in c.sha && '\n' !in c.message
    ensures Newlines(Concat(CompareLines(r))) ==
      5 + (if r.files == [] then 0 else 4 + Cap(|r.files|, 10))
        + Cap(|r.commits|, 5) + (if |r.commits| > 5 then 1 else 0)
  {
    TitleAllLines(r);
    FileSectionAllLines(r.files);
    CommitSectionAllLines(r.commits);
    AllLinesAppend(TitleLines(r), FileSectionLines(r.files));
    AllLinesAppend(TitleLines(r) + FileSectionLines(r.files), CommitSectionLines(r.commits));
    ConcatNewlines(CompareLines(r));
  }

  // ---------------------------------------------------------------------
  // get_summary_data

  datatype FileInfo = FileInfo(name: string, additions: int, deletions: int, changes: int, status: string)

  datatype CommitInfo = CommitInfo(sha: string, message: string, author: string, date: string, prNumber: Option<nat>)

  /** The record `formatSummaryData` serialises. */
  datatype SummaryData = SummaryData(
    fromRelease: string,
    toRelease: string,
    commitCount: nat,
    prCount: nat,
    filesChanged: nat,
    topFiles: seq<FileInfo>,
    commits: seq<CommitInfo>)

  /** formatSummaryData without the JSON encoding: the counts are of the
      whole comparison, while at most ten files and twenty commits are
      listed, each commit with its short SHA and full message. */
  method SummaryDataOf(r: CompareResult, dateText: int -> string) returns (d: SummaryData)
    ensures d.fromRelease == r.fromRelease.tagName && d.toRelease == r.toRelease.tagName
    ensures d.commitCount == |r.commits| && d.prCount == r.prCount && d.filesChanged == |r.files|
    ensures |d.topFiles| == Cap(|r.files|, 10)
    ensures forall i :: 0 <= i < |d.topFiles| ==>
      var f := r.files[i];
      d.topFiles[i] == FileInfo(f.filename, f.additions, f.deletions, f.changes, f.status)
    ensures |d.commits| == Cap(|r.commits|, 20)
    ensures forall i :: 0 <= i < |d.commits| ==>
      var c := r.commits[i];
      d.commits[i] == CommitInfo(ShortSha(c.sha), c.message, c.author, dateText(c.date), c.prNumber)
  {
    var maxFiles := |r.files|;
    if maxFiles > 10 {
      maxFiles := 10;
    }
    var files: seq<FileInfo> := [];
    for i := 0 to maxFiles
      invariant |files| == i
      invariant forall j :: 0 <= j < i ==>
        var f := r.files[j];
        files[j] == FileInfo(f.filename, f.additions, f.deletions, f.changes, f.status)
    {
      var f := r.files[i];
      files := files + [FileInfo(f.filename, f.additions, f.deletions, f.changes, f.status)];
    }

    var maxCommits := |r.commits|;
    if maxCommits > 20 {
      maxCommits := 20;
    }
    var commits: seq<CommitInfo> := [];
    for i := 0 to maxCommits
      invariant |commits| == i
      invariant forall j :: 0 <= j < i ==>
        var c := r.commits[j];
        commits[j] == CommitInfo(ShortSha(c.sha), c.message, c.author, dateText(c.date), c.prNumber)
    {
      var c := r.commits[i];
      commits := commits + [CommitInfo(ShortSha(c.sha), c.message, c.author, dateText(c.date), c.prNumber)];
    }

    d := SummaryData(r.fromRelease.tagName, r.toRelease.tagName, |r.commits|, r.prCount, |r.files|,
      files, commits);
  }
}
