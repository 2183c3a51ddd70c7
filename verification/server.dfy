/** The MCP server's background indexing run, `runIndexingAsync` in
    cmd/mcp/server.go: the same pass as `IndexAll`, except that a failed
    release save is only logged, and that every phase reports into the run
    status. The run is modelled as returning every status record it
    published, in order. */
module Server {
  import opened Wrappers
  import opened Decimal
  import opened Cache
  import opened Remote
  import opened Indexing
  import opened Fetcher
  import opened Status

  const FetchingMessage := "Fetching releases..."
  const SavingToCacheMessage := "Saving releases to cache..."
  const SavingMessage := "Saving releases..."
  const PairPhaseMessage := "Fetching commits and files for missing release pairs..."

  function ProcessingMessage(p: Pair, processed: nat, skipped: nat): string {
    "Processing " + p.from.tagName + " -> " + p.to.tagName
      + " (" + NatToDecimal(processed) + " processed, " + NatToDecimal(skipped) + " skipped)"
  }

  function FinishMessage(owner: string, repo: string, processed: nat, skipped: nat): string {
    "Indexed " + owner + "/" + repo + " - " + NatToDecimal(processed) + " new, "
      + NatToDecimal(skipped) + " already cached"
  }

  /** Progress after saving release i of n: 20 + i*10/n. */
  function SaveProgress(i: nat, n: nat): (p: int)
    requires i < n
    ensures 20 <= p <= 29
  {
    DivBelow(i * 10, n, 10);
    20 + GoDiv(i * 10, n)
  }

  /** Later saves never report less. */
  lemma SaveProgressMonotone(i: nat, j: nat, n: nat)
    requires i <= j < n
    ensures SaveProgress(i, n) <= SaveProgress(j, n)
  {
    DivMonotone(i * 10, j * 10, n);
  }

  /** The pairs neither skipped nor processed yet; never negative, since each
      visited pair was counted once. */
  function PendingPairs(totalPairs: nat, skipped: nat, processed: nat): (n: nat)
    requires processed + skipped <= totalPairs
    ensures n + processed + skipped == totalPairs
  {
    totalPairs - skipped - processed
  }

  /** Progress when the processed-th pair starts: 30 + processed*70 /
      (processed + pending + 1). */
  function PairProgress(processed: nat, skipped: nat, totalPairs: nat): (p: int)
    requires 1 <= processed && processed + skipped <= totalPairs
    ensures 30 <= p <= 99
  {
    var d := processed + PendingPairs(totalPairs, skipped, processed) + 1;
    DivBelow(processed * 70, d, 70);
    30 + GoDiv(processed * 70, d)
  }

  /** Along a run processed and skipped only grow, and the reported progress
      with them. */
  lemma PairProgressMonotone(p: nat, s: nat, p': nat, s': nat, totalPairs: nat)
    requires 1 <= p <= p' && s <= s' && p' + s' <= totalPairs
    ensures PairProgress(p, s, totalPairs) <= PairProgress(p', s', totalPairs)
  {
    var d := totalPairs - s + 1;
    var d' := totalPairs - s' + 1;
    DivMonotone(p * 70, p' * 70, d);
    DivAntitone(p' * 70, d, d');
  }

  /** Each published record reports no less progress than the one before. */
  predicate Rising(tr: seq<IndexStatus>) {
    forall j :: 0 <= j < |tr| - 1 ==> tr[j].progress <= tr[j + 1].progress
  }

  lemma RisingAppend(a: seq<IndexStatus>, b: seq<IndexStatus>)
    requires Rising(a) && Rising(b)
    requires a != [] && b != [] ==> a[|a| - 1].progress <= b[0].progress
    ensures Rising(a + b)
  {
    forall j | 0 <= j < |a + b| - 1
      ensures (a + b)[j].progress <= (a + b)[j + 1].progress
    {
      if j < |a| - 1 {
        assert (a + b)[j] == a[j] && (a + b)[j + 1] == a[j + 1];
      } else if j == |a| - 1 {
        assert (a + b)[j] == a[j] && (a + b)[j + 1] == b[0];
      } else {
        assert (a + b)[j] == b[j - |a|] && (a + b)[j + 1] == b[j - |a| + 1];
      }
    }
  }

  /** The records a progress update may publish: same run, same repository,
      same error, total 100. */
  predicate SameRun(s0: IndexStatus, s: IndexStatus) {
    s.owner == s0.owner && s.repo == s0.repo && s.isRunning == s0.isRunning
      && s.error == s0.error && s.total == 100
  }

  /** Every record of `tr` is a progress report of the run of `s0` with
      progress in [lo, hi]. */
  predicate Reports(tr: seq<IndexStatus>, s0: IndexStatus, lo: int, hi: int) {
    forall j :: 0 <= j < |tr| ==> lo <= tr[j].progress <= hi && SameRun(s0, tr[j])
  }

  lemma ReportsAppend(tr: seq<IndexStatus>, x: IndexStatus, s0: IndexStatus, lo: int, hi: int)
    requires Reports(tr, s0, lo, hi) && lo <= x.progress <= hi && SameRun(s0, x)
    ensures Reports(tr + [x], s0, lo, hi)
  {
    assert forall j :: 0 <= j < |tr| ==> (tr + [x])[j] == tr[j];
  }

  /** A rising trace stays rising when a record reporting no less is added. */
  lemma RisingSnoc(tr: seq<IndexStatus>, x: IndexStatus)
    requires Rising(tr) && (tr != [] ==> tr[|tr| - 1].progress <= x.progress)
    ensures Rising(tr + [x])
  {
    assert forall j :: 0 <= j < |tr| ==> (tr + [x])[j] == tr[j];
  }

  /** The save phase: announce it at 20, then save every release, ignoring
      failed saves, and report 20 + i*10/n after each. */
  method SavePhase(ctx: Ctx, st0: Store, rels: seq<Release>, s: IndexStatus)
    returns (st: Store, tr: seq<IndexStatus>)
    ensures st == SaveReleases(st0, Kept(rels, ctx.faults.releaseSaveFails))
    ensures |tr| == |rels| + 1
    ensures tr[0].progress == 20 && tr[0].message == SavingToCacheMessage
    ensures Reports(tr, s, 20, 29)
    ensures Rising(tr)
  {
    var cur := UpdateIndexProgress(s, 20, 100, SavingToCacheMessage);
    tr := [cur];
    st := st0;
    for i := 0 to |rels|
      invariant st == SaveReleases(st0, Kept(rels[..i], ctx.faults.releaseSaveFails))
      invariant |tr| == i + 1 && cur == tr[i]
      invariant tr[0].progress == 20 && tr[0].message == SavingToCacheMessage
      invariant Reports(tr, s, 20, 29)
      invariant Rising(tr)
      invariant i > 0 ==> cur.progress == SaveProgress(i - 1, |rels|)
    {
      KeptSnoc(rels, i, ctx.faults.releaseSaveFails);
      if !ctx.faults.releaseSaveFails(i) {
        SaveReleasesSnoc(st0, Kept(rels[..i], ctx.faults.releaseSaveFails), rels[i]);
        st := SaveRelease(st, rels[i]);
      } else {
        assert Kept(rels[..i], ctx.faults.releaseSaveFails) + [] == Kept(rels[..i], ctx.faults.releaseSaveFails);
      }
      var p := SaveProgress(i, |rels|);
      if i > 0 {
        SaveProgressMonotone(i - 1, i, |rels|);
      }
      var next := UpdateIndexProgress(cur, p, 100, SavingMessage);
      ReportsAppend(tr, next, s, 20, 29);
      RisingSnoc(tr, next);
      cur, tr := next, tr + [next];
    }
    assert rels[..|rels|] == rels;
  }

  /** The pair-phase trace after `processed` reports: rising reports of the
      run in [30, 99], the last of which is `cur` and was computed when
      `lastSkipped` pairs had been skipped. */
  predicate PairTrace(tr: seq<IndexStatus>, cur: IndexStatus, s: IndexStatus,
                      processed: nat, skipped: nat, lastSkipped: nat, totalPairs: nat)
  {
    && |tr| == processed && processed + skipped <= totalPairs
    && Reports(tr, s, 30, 99) && Rising(tr)
    && (tr == [] ==> cur == s)
    && (tr != [] ==>
          && cur == tr[|tr| - 1] && lastSkipped <= skipped
          && cur.progress == PairProgress(processed, lastSkipped, totalPairs))
  }

  /** A skipped pair reports nothing: the trace stays as it was. */
  lemma PairTraceSkip(tr: seq<IndexStatus>, cur: IndexStatus, s: IndexStatus,
                      processed: nat, skipped: nat, lastSkipped: nat, totalPairs: nat)
    requires PairTrace(tr, cur, s, processed, skipped, lastSkipped, totalPairs)
    requires processed + skipped < totalPairs
    ensures PairTrace(tr, cur, s, processed, skipped + 1, lastSkipped, totalPairs)
  {
  }

  /** Publishes the progress report of the processed-th pair. */
  method ReportProcessed(tr: seq<IndexStatus>, cur: IndexStatus, s: IndexStatus, p: Pair,
                         processed: nat, skipped: nat, ghost lastSkipped: nat, totalPairs: nat)
    returns (cur': IndexStatus, tr': seq<IndexStatus>)
    requires 1 <= processed && processed + skipped <= totalPairs
    requires PairTrace(tr, cur, s, processed - 1, skipped, lastSkipped, totalPairs)
    ensures PairTrace(tr', cur', s, processed, skipped, skipped, totalPairs)
    ensures cur'.message == ProcessingMessage(p, processed, skipped)
  {
    var progress := PairProgress(processed, skipped, totalPairs);
    if tr != [] {
      PairProgressMonotone(processed - 1, lastSkipped, processed, skipped, totalPairs);
    }
    cur' := UpdateIndexProgress(cur, progress, 100, ProcessingMessage(p, processed, skipped));
    ReportsAppend(tr, cur', s, 30, 99);
    RisingSnoc(tr, cur');
    tr' := tr + [cur'];
  }

  /** The pair phase: like IndexAll's pair loop, and each processed pair
      first reports 30 + processed*70/(processed + pending + 1). */
  method PairPhase(ctx: Ctx, ps: seq<Pair>, saved: Store, s: IndexStatus)
    returns (processed: nat, skipped: nat, outcomes: seq<PairOutcome>, st: Store, calls: seq<Call>,
             tr: seq<IndexStatus>)
    ensures processed + skipped == |ps|
    ensures skipped == CountSkipped(outcomes)
    ensures PairsRun(outcomes, st, calls) == VisitPairs(ctx, ps, saved)
    ensures |tr| == processed
    ensures Reports(tr, s, 30, 99)
    ensures Rising(tr)
  {
    st := saved;
    outcomes, calls, tr := [], [], [];
    processed, skipped := 0, 0;
    var cur := s;
    ghost var lastSkipped := 0;
    for i := 0 to |ps|
      invariant PairsRun(outcomes, st, calls) == VisitPairs(ctx, ps[..i], saved)
      invariant skipped == CountSkipped(outcomes)
      invariant processed + skipped == i
      invariant PairTrace(tr, cur, s, processed, skipped, lastSkipped, |ps|)
    {
      var p := ps[i];
      var skippedIt;
      skippedIt, outcomes, st, calls := VisitNext(ctx, ps, i, saved, outcomes, st, calls);
      if skippedIt {
        PairTraceSkip(tr, cur, s, processed, skipped, lastSkipped, |ps|);
        skipped := skipped + 1;
      } else {
        processed := processed + 1;
        cur, tr := ReportProcessed(tr, cur, s, p, processed, skipped, lastSkipped, |ps|);
        lastSkipped := skipped;
      }
    }
    assert ps[..|ps|] == ps;
  }

  /** The listing phase: announce it at 0, then publish each page report
      the listing made. */
  method FetchPhase(ctx: Ctx, s0: IndexStatus) returns (trace: seq<IndexStatus>)
    ensures |trace| == 1 + |ctx.remote.releases.pageReports|
    ensures forall j :: 0 <= j < |trace| ==> SameRun(s0, trace[j])
    ensures trace[0].progress == 0
    ensures forall k :: 0 <= k < |ctx.remote.releases.pageReports| ==>
      trace[k + 1].progress == ctx.remote.releases.pageReports[k]
    ensures trace[|trace| - 1].message == FetchingMessage
  {
    var cur := UpdateIndexProgress(s0, 0, 100, FetchingMessage);
    trace := [cur];
    var reports := ctx.remote.releases.pageReports;
    for k := 0 to |reports|
      invariant |trace| == k + 1 && cur == trace[k]
      invariant cur.message == FetchingMessage
      invariant trace[0].progress == 0
      invariant forall j :: 0 <= j < k ==> trace[j + 1].progress == reports[j]
      invariant forall j :: 0 <= j < |trace| ==> SameRun(s0, trace[j])
    {
      cur := UpdateIndexProgress(cur, reports[k], 100, FetchingMessage);
      trace := trace + [cur];
    }
  }

  /** Everything after a successful listing: the save phase, the pair phase
      announced at 30, and the final record at 100. */
  method IndexReleases(ctx: Ctx, st0: Store, rels: seq<Release>, s: IndexStatus)
    returns (st: Store, outcomes: seq<PairOutcome>, calls: seq<Call>, summary: IndexSummary,
             tail: seq<IndexStatus>)
    ensures summary.processed + summary.skipped == |Pairs(rels)|
    ensures summary.skipped == CountSkipped(outcomes)
    ensures PairsRun(outcomes, st, calls) ==
      VisitPairs(ctx, Pairs(rels), SaveReleases(st0, Kept(rels, ctx.faults.releaseSaveFails)))
    ensures |tail| >= 3 && tail[0].progress == 20
    ensures Reports(tail[..|tail| - 1], s, 20, 99)
    ensures Rising(tail)
    ensures var done := tail[|tail| - 1];
      && !done.isRunning && done.progress == 100 && done.total == 100
      && done.owner == s.owner && done.repo == s.repo && done.error == s.error
      && done.message == FinishMessage(ctx.owner, ctx.repo, summary.processed, summary.skipped)
  {
    var saved, saveTrace := SavePhase(ctx, st0, rels, s);
    var cur := UpdateIndexProgress(saveTrace[|saveTrace| - 1], 30, 100, PairPhaseMessage);
    var ps := Pairs(rels);
    var processed, skipped, pairTrace;
    processed, skipped, outcomes, st, calls, pairTrace := PairPhase(ctx, ps, saved, cur);
    var last := if pairTrace == [] then cur else pairTrace[|pairTrace| - 1];
    var done := FinishIndexing(last, true, FinishMessage(ctx.owner, ctx.repo, processed, skipped));
    summary := IndexSummary(processed, skipped);

    ReportsAppend(saveTrace, cur, s, 20, 99);
    RisingSnoc(saveTrace, cur);
    var head := saveTrace + [cur];
    ReportsWiden(pairTrace, cur, s, 30, 99, 20, 99);
    ReportsConcat(head, pairTrace, s, 20, 99);
    RisingAppend(head, pairTrace);
    RisingSnoc(head + pairTrace, done);
    tail := head + pairTrace + [done];
    assert tail[..|tail| - 1] == head + pairTrace;
  }

  /** runIndexingAsync, from the record the start guard installed: returns
      the final store, what each pair visit did, the remote calls, the two
      counters, and every status record published, the final one last. */
  method RunIndexingAsync(ctx: Ctx, st0: Store, s0: IndexStatus)
    returns (st: Store, outcomes: seq<PairOutcome>, calls: seq<Call>, summary: IndexSummary,
             trace: seq<IndexStatus>)
    ensures |trace| >= 2
    ensures forall j :: 0 <= j < |trace| - 1 ==> SameRun(s0, trace[j])
    ensures var done := trace[|trace| - 1];
      !done.isRunning && done.owner == s0.owner && done.repo == s0.repo && done.total == 100
    ensures FetchReleases(ctx.remote, ctx.owner, ctx.repo).Err? ==>
      && trace[|trace| - 1].error == "Failed to fetch releases: " + FetchReleases(ctx.remote, ctx.owner, ctx.repo).error
      && trace[|trace| - 1].message == FetchingMessage
      && st == st0 && outcomes == [] && calls == []
    ensures FetchReleases(ctx.remote, ctx.owner, ctx.repo).Ok? ==>
      var rels := FetchReleases(ctx.remote, ctx.owner, ctx.repo).value;
      var ps := Pairs(rels);
      var start := 1 + |ctx.remote.releases.pageReports|;
      && summary.processed + summary.skipped == |ps|
      && summary.skipped == CountSkipped(outcomes)
      && PairsRun(outcomes, st, calls) ==
           VisitPairs(ctx, ps, SaveReleases(st0, Kept(rels, ctx.faults.releaseSaveFails)))
      && (forall i :: 0 <= i < |ps| && !ctx.faults.probeFails(i) && PairCached(st0, ctx.owner, ctx.repo, ps[i]) ==>
            outcomes[i] == Skipped)
      && start < |trace| && trace[start].progress == 20
      && Rising(trace[start..])
      && (forall j :: start <= j < |trace| - 1 ==> 20 <= trace[j].progress <= 99)
      && trace[|trace| - 1].progress == 100
      && trace[|trace| - 1].message == FinishMessage(ctx.owner, ctx.repo, summary.processed, summary.skipped)
      && trace[|trace| - 1].error == s0.error
  {
    var listing := FetchPhase(ctx, s0);
    var cur := listing[|listing| - 1];
    var fetched := FetchReleases(ctx.remote, ctx.owner, ctx.repo);
    if fetched.Err? {
      var failed := SetIndexError(cur, "Failed to fetch releases: " + fetched.error);
      trace := listing + [failed];
      assert trace[..|listing|] == listing;
      return st0, [], [], IndexSummary(0, 0), trace;
    }
    var rels := fetched.value;
    var tail;
    st, outcomes, calls, summary, tail := IndexReleases(ctx, st0, rels, cur);
    var ps := Pairs(rels);
    forall i | 0 <= i < |ps| && !ctx.faults.probeFails(i) && PairCached(st0, ctx.owner, ctx.repo, ps[i])
      ensures outcomes[i] == Skipped
    {
      VisitSkipsCached(ctx, ps, SaveReleases(st0, Kept(rels, ctx.faults.releaseSaveFails)), i);
    }
    trace := listing + tail;
    JoinTraces(listing, tail, s0);
  }

  /** Every record of `tr` is a report of the run, and so is every one of
      `tr + tr'`. */
  lemma ReportsConcat(tr: seq<IndexStatus>, tr': seq<IndexStatus>, s0: IndexStatus, lo: int, hi: int)
    requires Reports(tr, s0, lo, hi) && Reports(tr', s0, lo, hi)
    ensures Reports(tr + tr', s0, lo, hi)
  {
    assert forall j :: 0 <= j < |tr'| ==> (tr + tr')[|tr| + j] == tr'[j];
    assert forall j :: 0 <= j < |tr| ==> (tr + tr')[j] == tr[j];
  }

  /** Reports of one record's run, within [lo, hi], are reports of any
      record with the same run fields, within a wider range. */
  lemma ReportsWiden(tr: seq<IndexStatus>, a: IndexStatus, b: IndexStatus, lo: int, hi: int, lo': int, hi': int)
    requires Reports(tr, a, lo, hi)
    requires a.owner == b.owner && a.repo == b.repo && a.isRunning == b.isRunning && a.error == b.error
    requires lo' <= lo && hi <= hi'
    ensures Reports(tr, b, lo', hi')
  {
  }

  /** The listing records followed by the indexing records: all but the last
      belong to the run, and the indexing part is intact at its offset. */
  lemma JoinTraces(listing: seq<IndexStatus>, tail: seq<IndexStatus>, s0: IndexStatus)
    requires listing != [] && |tail| >= 2
    requires forall j :: 0 <= j < |listing| ==> SameRun(s0, listing[j])
    requires Reports(tail[..|tail| - 1], listing[|listing| - 1], 20, 99)
    ensures (listing + tail)[|listing|..] == tail
    ensures forall j :: 0 <= j < |listing + tail| - 1 ==> SameRun(s0, (listing + tail)[j])
    ensures forall j :: |listing| <= j < |listing + tail| - 1 ==> 20 <= (listing + tail)[j].progress <= 99
    ensures (listing + tail)[|listing + tail| - 1] == tail[|tail| - 1]
  {
    var t := listing + tail;
    forall j | |listing| <= j < |t| - 1
      ensures SameRun(s0, t[j]) && 20 <= t[j].progress <= 99
    {
      assert t[j] == tail[..|tail| - 1][j - |listing|];
    }
  }
}
