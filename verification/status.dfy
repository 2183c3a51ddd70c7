/** The MCP server's run status (cmd/mcp/server.go): the single status
    record, the `index_repo` start guard, the three transitions the indexing
    goroutine makes, and the text `get_index_status` shows. The mutex that
    guards the record makes each transition one atomic step, so each is a
    function from record to record. */
module Status {
  import opened Decimal

  datatype IndexStatus = IndexStatus(
    owner: string,
    repo: string,
    isRunning: bool,
    progress: int,
    total: int,
    message: string,
    error: string)

  /** The record before any run: Go's zero value. */
  const Initial := IndexStatus("", "", false, 0, 0, "", "")

  const StartingMessage := "Starting indexing..."

  /** The record a successful start installs, replacing every field. */
  function StartedStatus(owner: string, repo: string): IndexStatus {
    IndexStatus(owner, repo, true, 0, 100, StartingMessage, "")
  }

  datatype StartReply =
    | MissingArgs
    | AlreadyRunning(runningOwner: string, runningRepo: string)
    | Started(owner: string, repo: string)

  datatype StartResult = StartResult(reply: StartReply, status: IndexStatus)

  /** The `index_repo` guard: both names are required; a run in progress
      rejects the request; otherwise the status is replaced and a run starts. */
  function TryStart(s: IndexStatus, owner: string, repo: string): (r: StartResult)
    ensures r.reply.Started? <==> owner != "" && repo != "" && !s.isRunning
    ensures !r.reply.Started? ==> r.status == s
    ensures r.reply.MissingArgs? <==> owner == "" || repo == ""
    ensures r.reply.AlreadyRunning? ==> r.reply == AlreadyRunning(s.owner, s.repo)
    ensures r.reply.Started? ==> r.reply == Started(owner, repo) && r.status == StartedStatus(owner, repo)
  {
    if owner == "" || repo == "" then StartResult(MissingArgs, s)
    else if s.isRunning then StartResult(AlreadyRunning(s.owner, s.repo), s)
    else StartResult(Started(owner, repo), StartedStatus(owner, repo))
  }

  /** The text of a start reply: its first letter tells the three replies
      apart, and a start or a rejection names its repository as owner/repo. */
  function ReplyText(r: StartReply): (t: string)
    ensures |t| > 0
    ensures t[0] == 'E' <==> r.MissingArgs?
    ensures t[0] == 'I' <==> r.AlreadyRunning?
    ensures t[0] == 'S' <==> r.Started?
    ensures r.Started? ==> |t| >= 17 + |r.owner + "/" + r.repo| && t[17..17 + |r.owner + "/" + r.repo|] == r.owner + "/" + r.repo
    ensures r.AlreadyRunning? ==>
      var name := r.runningOwner + "/" + r.runningRepo;
      |t| >= 33 + |name| && t[33..33 + |name|] == name
  {
    match r
    case MissingArgs => "Error: owner and repo are required"
    case AlreadyRunning(o, p) =>
      "Indexing already in progress for " + o + "/" + p + ". Use get_index_status to check progress."
    case Started(o, p) => "Started indexing " + o + "/" + p + ". Use get_index_status to check progress."
  }

  /** The reply to `index_repo` says a run started exactly when the guard
      let it start, and names the requested repository when it does; a
      rejection for a busy server names the repository already running. */
  lemma StartReplyText(s: IndexStatus, owner: string, repo: string)
    ensures var t := ReplyText(TryStart(s, owner, repo).reply);
      && (t[0] == 'S' <==> owner != "" && repo != "" && !s.isRunning)
      && (t[0] == 'E' <==> owner == "" || repo == "")
      && (t[0] == 'S' ==> t[17..17 + |owner + "/" + repo|] == owner + "/" + repo)
      && (t[0] == 'I' ==> t[33..33 + |s.owner + "/" + s.repo|] == s.owner + "/" + s.repo)
  {
    var r := TryStart(s, owner, repo).reply;
    assert r.Started? ==> r == Started(owner, repo);
  }

  /** updateIndexProgress: only progress, total and message change. */
  function UpdateIndexProgress(s: IndexStatus, progress: int, total: int, message: string): (r: IndexStatus)
    ensures r.progress == progress && r.total == total && r.message == message
    ensures r.owner == s.owner && r.repo == s.repo && r.isRunning == s.isRunning && r.error == s.error
  {
    s.(progress := progress, total := total, message := message)
  }

  /** setIndexError: the run stops with an error; everything else, the last
      message included, stays. */
  function SetIndexError(s: IndexStatus, err: string): (r: IndexStatus)
    ensures !r.isRunning && r.error == err
    ensures r.owner == s.owner && r.repo == s.repo && r.progress == s.progress
    ensures r.total == s.total && r.message == s.message
  {
    s.(isRunning := false, error := err)
  }

  /** finishIndexing: the run stops with progress at its total; the message
      becomes the error only when the run failed. */
  function FinishIndexing(s: IndexStatus, success: bool, message: string): (r: IndexStatus)
    ensures !r.isRunning && r.progress == s.total && r.total == s.total && r.message == message
    ensures r.error == if success then s.error else message
    ensures r.owner == s.owner && r.repo == s.repo
  {
    var stopped := s.(isRunning := false, progress := s.total, message := message);
    if success then stopped else stopped.(error := message)
  }

  /** The transitions the indexing goroutine makes, as events. */
  datatype Event =
    | Progress(progress: int, total: int, message: string)
    | Fail(err: string)
    | Finish(success: bool, message: string)

  function Apply(s: IndexStatus, e: Event): IndexStatus {
    match e
    case Progress(p, t, m) => UpdateIndexProgress(s, p, t, m)
    case Fail(err) => SetIndexError(s, err)
    case Finish(ok, m) => FinishIndexing(s, ok, m)
  }

  function ApplyAll(s: IndexStatus, es: seq<Event>): IndexStatus
    decreases |es|
  {
    if es == [] then s else ApplyAll(Apply(s, es[0]), es[1..])
  }

  /** Single flight: once a run has started, no other start succeeds while
      the goroutine only reports progress; the rejection names the running
      repository. */
  lemma {:induction false} SingleFlight(s: IndexStatus, owner: string, repo: string, es: seq<Event>, owner2: string, repo2: string)
    requires TryStart(s, owner, repo).reply.Started?
    requires forall k :: 0 <= k < |es| ==> es[k].Progress?
    requires owner2 != "" && repo2 != ""
    ensures TryStart(ApplyAll(TryStart(s, owner, repo).status, es), owner2, repo2).reply == AlreadyRunning(owner, repo)
  {
    ProgressKeepsRun(TryStart(s, owner, repo).status, es);
  }

  /** Progress events keep the run flag and the repository. */
  lemma {:induction false} ProgressKeepsRun(s: IndexStatus, es: seq<Event>)
    requires forall k :: 0 <= k < |es| ==> es[k].Progress?
    ensures ApplyAll(s, es).isRunning == s.isRunning
    ensures ApplyAll(s, es).owner == s.owner && ApplyAll(s, es).repo == s.repo
    ensures ApplyAll(s, es).error == s.error
    decreases |es|
  {
    if es != [] {
      ProgressKeepsRun(Apply(s, es[0]), es[1..]);
    }
  }

  /** After the run ends, by failure or by finishing, a new start succeeds
      and replaces the whole record. */
  lemma RestartAfterEnd(s: IndexStatus, e: Event, owner: string, repo: string)
    requires e.Fail? || e.Finish?
    requires owner != "" && repo != ""
    ensures TryStart(Apply(s, e), owner, repo) == StartResult(Started(owner, repo), StartedStatus(owner, repo))
  {
  }

  const IdleText := "No indexing in progress."
  const StatusHeader := "Indexing Status:\n"

  /** The progress percentage shown: Go's truncating division. */
  function Percent(progress: int, total: int): (pct: int)
    requires total > 0
    ensures 0 <= progress <= total ==> 0 <= pct <= 100
    ensures progress == total ==> pct == 100
  {
    PercentRange(progress, total);
    GoDiv(progress * 100, total)
  }

  lemma PercentRange(p: int, t: int)
    requires t > 0
    ensures 0 <= p <= t ==> 0 <= p * 100 / t <= 100
    ensures p == t ==> p * 100 / t == 100
  {
    if 0 <= p <= t {
      DivAtMost(p * 100, t, 100);
    }
    if p == t {
      MulDiv(100, t);
      assert p * 100 == 100 * t;
    }
  }

  function ProgressLine(s: IndexStatus): string {
    if s.total > 0 then
      "Progress: " + IntToDecimal(s.progress) + "/" + IntToDecimal(s.total)
        + " (" + IntToDecimal(Percent(s.progress, s.total)) + "%)\n"
    else ""
  }

  function ErrorLine(s: IndexStatus): string {
    if s.error != "" then "Error: " + s.error + "\n" else ""
  }

  predicate EndsWith(s: string, suffix: string) {
    |suffix| <= |s| && s[|s| - |suffix|..] == suffix
  }

  lemma EndsWithAppend(a: string, b: string)
    ensures EndsWith(a + b, b)
  {
    assert (a + b)[|a|..] == b;
  }

  /** get_index_status: the idle text when no run is going and no message
      is left; otherwise a header, the repository, the state, the progress
      when a total is set, the message, and the error when there is one. */
  function StatusText(s: IndexStatus): (r: string)
    ensures r == IdleText <==> !s.isRunning && s.message == ""
    ensures r != IdleText ==> |r| >= |StatusHeader| && r[..|StatusHeader|] == StatusHeader
    ensures r != IdleText && s.error != "" ==> EndsWith(r, "Error: " + s.error + "\n")
    ensures r != IdleText && s.error == "" ==> EndsWith(r, "Message: " + s.message + "\n")
  {
    if !s.isRunning && s.message == "" then IdleText
    else
      var state := if s.isRunning then "Running" else "Completed/Failed";
      var head := StatusHeader + ("Owner: " + s.owner + "\n" + "Repo: " + s.repo + "\n"
        + "Status: " + state + "\n" + ProgressLine(s));
      var messageLine := "Message: " + s.message + "\n";
      var r := (head + messageLine) + ErrorLine(s);
      assert r[0] == 'I' && IdleText[0] == 'N';
      assert r[..|StatusHeader|] == StatusHeader;
      EndsWithAppend(head + messageLine, ErrorLine(s));
      EndsWithAppend(head, messageLine);
      assert ErrorLine(s) == "" ==> r == head + messageLine;
      r
  }

  /** Before the first run, and after a start, the status text says what
      the record holds. */
  lemma StatusTextExamples(owner: string, repo: string)
    ensures StatusText(Initial) == IdleText
    ensures StatusText(StartedStatus(owner, repo)) != IdleText
  {
  }
}
