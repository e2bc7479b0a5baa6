/**
 * The "complete-archive" command: submit the names, poll the status until it
 * reads "Успешно", then download once. The handler's answers are inputs:
 * what CreateArchiveAsync gives, the answer to each poll in order, and what
 * DownloadArchiveAsync gives. The three-second wait between polls is left out.
 */
module CompleteArchiveCommands {
  import opened Wrappers
  import opened Text
  import opened Models
  import opened Console

  const MissingArgumentsMessage := "Error: Необходимо указать имена файлов и путь для сохранения архива."
  const CreationFailedMessage := "Ошибка создания архива"

  /** How a run ends: with an exit code, or still polling once the answers run out. */
  datatype Run = Finished(exitCode: int, output: seq<string>) | StillPolling(output: seq<string>)

  function StartedLine(processId: int): string {
    "Create archive task is started, id: " + IntToString(processId)
  }

  /** A null status is interpolated as the empty string. */
  function PollLine(status: Option<string>): string {
    "Process status: " + status.GetOr("")
  }

  function DownloadedLine(outputPath: string): string {
    "Archive downloaded to " + outputPath
  }

  predicate ArgumentsGiven(outputPath: Option<string>, fileNames: Option<seq<string>>) {
    fileNames.Some? && |fileNames.value| > 0 && outputPath.Some? && outputPath.value != ""
  }

  /** A poll answer that ends the loop: an exception, or exactly "Успешно". */
  predicate EndsPolling(poll: Outcome<Option<string>>) {
    poll.Threw? || poll.value == Some(StatusSucceeded)
  }

  /** The lines written for polls that each returned a status. */
  function PollLines(polls: seq<Outcome<Option<string>>>): (lines: seq<string>)
    requires forall k | 0 <= k < |polls| :: polls[k].Returned?
    ensures |lines| == |polls|
    ensures forall k | 0 <= k < |polls| :: lines[k] == PollLine(polls[k].value)
    decreases |polls|
  {
    if polls == [] then []
    else PollLines(polls[..|polls| - 1]) + [PollLine(polls[|polls| - 1].value)]
  }

  /** The position of the poll that ends the loop, or |polls| when none does. */
  function FirstEnding(polls: seq<Outcome<Option<string>>>): (r: nat)
    ensures r <= |polls|
    ensures forall k | 0 <= k < r :: !EndsPolling(polls[k])
    ensures r < |polls| ==> EndsPolling(polls[r])
    decreases |polls|
  {
    if polls == [] || EndsPolling(polls[0]) then 0 else 1 + FirstEnding(polls[1..])
  }

  /**
   * What the download step adds: its exit code, the line, if any, and the
   * one DownloadArchiveAsync call with the job's id and the output path. The
   * command succeeds unless the download threw; the success line needs a
   * true answer.
   */
  function AfterDownload(processId: int, outputPath: string, downloaded: Outcome<bool>): (r: CommandRun)
    ensures r.requests == [DownloadRequest(processId, outputPath)]
    ensures downloaded.Threw? ==> r.exitCode == 1 && r.output == [ExceptionLine(downloaded.message)]
    ensures downloaded == Returned(true) ==> r.exitCode == 0 && r.output == [DownloadedLine(outputPath)]
    ensures downloaded == Returned(false) ==> r.exitCode == 0 && r.output == []
    ensures r.exitCode == 0 <==> downloaded.Returned?
    ensures DownloadedLine(outputPath) in r.output <==> downloaded == Returned(true)
  {
    var asked := [DownloadRequest(processId, outputPath)];
    match downloaded
    case Threw(message) =>
      assert ExceptionLine(message)[0] != DownloadedLine(outputPath)[0];
      CommandRun(1, [ExceptionLine(message)], asked)
    case Returned(true) => CommandRun(0, [DownloadedLine(outputPath)], asked)
    case Returned(false) => CommandRun(0, [], asked)
  }

  /** The GetArchiveStatusAsync calls of n polls of one job. */
  function StatusRequests(processId: int, n: nat): (r: seq<Request>)
    ensures |r| == n
  {
    if n == 0 then [] else StatusRequests(processId, n - 1) + [StatusRequest(processId)]
  }

  /** Every one of those calls asks for the status of that job. */
  lemma {:induction false} StatusRequestsAsk(processId: int, n: nat, k: nat)
    requires k < n
    ensures StatusRequests(processId, n)[k] == StatusRequest(processId)
  {
    if k < n - 1 {
      StatusRequestsAsk(processId, n - 1, k);
    }
  }

  /**
   * OnExecuteAsync. Besides the run it reports the handler calls made: the
   * submission of the names, then the polls and the download of the id the
   * submission returned.
   */
  method Execute(outputPath: Option<string>, fileNames: Option<seq<string>>, created: Outcome<int>,
                 polls: seq<Outcome<Option<string>>>, downloaded: Outcome<bool>)
    returns (run: Run, requests: seq<Request>)
    ensures !ArgumentsGiven(outputPath, fileNames) ==>
      run == Finished(1, [MissingArgumentsMessage]) && requests == []
    ensures ArgumentsGiven(outputPath, fileNames) ==> |requests| >= 1 && requests[0] == CreateRequest(fileNames.value)
    ensures ArgumentsGiven(outputPath, fileNames) && created.Threw? ==>
      run == Finished(1, [ExceptionLine(created.message)]) && |requests| == 1
    ensures ArgumentsGiven(outputPath, fileNames) && created == Returned(0) ==>
      run == Finished(1, [CreationFailedMessage]) && |requests| == 1
    ensures ArgumentsGiven(outputPath, fileNames) && created.Returned? && created.value != 0 ==>
      Tracked(created.value, outputPath.value, polls, downloaded, run, requests[1..])
  {
    if !ArgumentsGiven(outputPath, fileNames) {
      return Finished(1, [MissingArgumentsMessage]), [];
    }
    requests := [CreateRequest(fileNames.value)];
    if created.Threw? {
      return Finished(1, [ExceptionLine(created.message)]), requests;
    }
    var processId := created.value;
    if processId == 0 {
      return Finished(1, [CreationFailedMessage]), requests;
    }
    var tracked;
    run, tracked := Track(processId, outputPath.value, polls, downloaded);
    requests := requests + tracked;
    assert requests[1..] == tracked;
  }

  /**
   * What follows a started job: the lines written and the handler calls made
   * for it, given the position k of the poll that ended the loop. Every call
   * is for the job's own id, and the download goes to the output path.
   */
  predicate Tracked(processId: int, outputPath: string, polls: seq<Outcome<Option<string>>>, downloaded: Outcome<bool>,
                    run: Run, requests: seq<Request>)
  {
    var k := FirstEnding(polls);
    && (k == |polls| ==>
          run == StillPolling([StartedLine(processId)] + PollLines(polls))
          && requests == StatusRequests(processId, k))
    && (k < |polls| && polls[k].Threw? ==>
          run == Finished(1, [StartedLine(processId)] + PollLines(polls[..k]) + [ExceptionLine(polls[k].message)])
          && requests == StatusRequests(processId, k + 1))
    && (k < |polls| && polls[k].Returned? ==>
          var after := AfterDownload(processId, outputPath, downloaded);
          && run == Finished(after.exitCode, [StartedLine(processId)] + PollLines(polls[..k + 1]) + after.output)
          && requests == StatusRequests(processId, k + 1) + after.requests)
  }

  /** A download is requested only once, last, and right after a poll that answered "Успешно". */
  lemma DownloadFollowsSuccess(processId: int, outputPath: string, polls: seq<Outcome<Option<string>>>,
                               downloaded: Outcome<bool>, run: Run, requests: seq<Request>, j: nat)
    requires Tracked(processId, outputPath, polls, downloaded, run, requests)
    requires j < |requests| && requests[j].DownloadRequest?
    ensures j == |requests| - 1 && 0 < j <= |polls| && polls[j - 1] == Returned(Some(StatusSucceeded))
    ensures requests[j] == DownloadRequest(processId, outputPath)
  {
    var k := FirstEnding(polls);
    if k == |polls| || polls[k].Threw? {
      // every call here is a status request
      StatusRequestsAsk(processId, if k == |polls| then k else k + 1, j);
    } else if j < k + 1 {
      // the calls before the download are status requests
      StatusRequestsAsk(processId, k + 1, j);
    }
  }

  /** Announce the job, poll it until it succeeds, then download it once. */
  method Track(processId: int, outputPath: string, polls: seq<Outcome<Option<string>>>, downloaded: Outcome<bool>)
    returns (run: Run, requests: seq<Request>)
    ensures Tracked(processId, outputPath, polls, downloaded, run, requests)
  {
    var lines, k;
    lines, k, requests := PollStatus(processId, polls);
    if k == |polls| {
      return StillPolling([StartedLine(processId)] + lines), requests;
    }
    if polls[k].Threw? {
      return Finished(1, [StartedLine(processId)] + lines + [ExceptionLine(polls[k].message)]), requests;
    }
    var polled := lines + [PollLine(polls[k].value)];
    PollLinesGrow(polls, k);
    var after := AfterDownload(processId, outputPath, downloaded);
    return Finished(after.exitCode, [StartedLine(processId)] + polled + after.output), requests + after.requests;
  }

  /** One more returned poll adds its status line to the lines of the polls before it. */
  lemma PollLinesGrow(polls: seq<Outcome<Option<string>>>, k: nat)
    requires k < |polls|
    requires forall j | 0 <= j <= k :: polls[j].Returned?
    ensures PollLines(polls[..k + 1]) == PollLines(polls[..k]) + [PollLine(polls[k].value)]
  {
    assert polls[..k + 1][..k] == polls[..k];
  }

  /**
   * The while (true) loop: poll, write the status, stop on "Успешно". An
   * exception leaves the loop before its line is written. Returns the lines
   * of the polls before the one that ended the loop, and that poll's position
   * (|polls| when the answers run out first).
   */
  method PollStatus(processId: int, polls: seq<Outcome<Option<string>>>)
    returns (lines: seq<string>, k: nat, requests: seq<Request>)
    ensures k == FirstEnding(polls)
    ensures lines == PollLines(polls[..k])
    ensures requests == StatusRequests(processId, if k < |polls| then k + 1 else k)
  {
    lines := [];
    k := 0;
    requests := [];
    while k < |polls| && !EndsPolling(polls[k])
      invariant 0 <= k <= |polls|
      invariant forall j | 0 <= j < k :: !EndsPolling(polls[j])
      invariant lines == PollLines(polls[..k])
      invariant requests == StatusRequests(processId, k)
    {
      requests := requests + [StatusRequest(processId)];
      PollLinesGrow(polls, k);
      lines := lines + [PollLine(polls[k].value)];
      k := k + 1;
    }
    if k < |polls| {
      // the call whose answer ended the loop
      requests := requests + [StatusRequest(processId)];
    }
    FirstEndingAt(polls, k);
  }

  /** FirstEnding is the unique position before which no poll ends the loop and at which one does. */
  lemma {:induction false} FirstEndingAt(polls: seq<Outcome<Option<string>>>, i: nat)
    requires i <= |polls|
    requires forall k | 0 <= k < i :: !EndsPolling(polls[k])
    requires i < |polls| ==> EndsPolling(polls[i])
    ensures FirstEnding(polls) == i
    decreases i
  {
    if i > 0 {
      FirstEndingAt(polls[1..], i - 1);
    }
  }
}
