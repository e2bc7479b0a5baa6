/** The "download" command: fetch a finished job's archive into a directory. */
module DownloadArchiveCommands {
  import opened Wrappers
  import opened Console

  const InvalidArgumentsMessage := "Error: Null id of process or path"

  /** The guard: a nonzero id and a non-empty output path. */
  predicate ArgumentsGiven(processId: int, outputPath: Option<string>) {
    processId != 0 && outputPath.Some? && outputPath.value != ""
  }

  function DownloadedLine(outputPath: string): string {
    "Archive downloaded to " + outputPath
  }

  function NotDownloadedLine(outputPath: string): string {
    "Error: Failed downloaded to " + outputPath
  }

  /**
   * The command given what DownloadArchiveAsync would return or throw; the
   * handler is only asked, with the id and the path, once the guard has passed.
   */
  function Run(processId: int, outputPath: Option<string>, downloaded: Outcome<bool>): (r: CommandRun)
    ensures |r.output| == 1
    ensures !ArgumentsGiven(processId, outputPath) ==> r == CommandRun(1, [InvalidArgumentsMessage], [])
    ensures ArgumentsGiven(processId, outputPath) ==>
      var asked := [DownloadRequest(processId, outputPath.value)];
      && (downloaded == Returned(true) ==> r == CommandRun(0, [DownloadedLine(outputPath.value)], asked))
      && (downloaded == Returned(false) ==> r == CommandRun(1, [NotDownloadedLine(outputPath.value)], asked))
      && (downloaded.Threw? ==> r == CommandRun(0, [ExceptionLine(downloaded.message)], asked))
  {
    if !ArgumentsGiven(processId, outputPath) then CommandRun(1, [InvalidArgumentsMessage], [])
    else
      var asked := [DownloadRequest(processId, outputPath.value)];
      match downloaded
      case Threw(message) => CommandRun(0, [ExceptionLine(message)], asked)
      case Returned(true) => CommandRun(0, [DownloadedLine(outputPath.value)], asked)
      case Returned(false) => CommandRun(1, [NotDownloadedLine(outputPath.value)], asked)
  }

  /** Without the arguments the API is never asked: any answer gives the same run. */
  lemma GuardSkipsApi(processId: int, outputPath: Option<string>, a: Outcome<bool>, b: Outcome<bool>)
    requires !ArgumentsGiven(processId, outputPath)
    ensures Run(processId, outputPath, a) == Run(processId, outputPath, b)
  {
  }

  /** Exit code 1 means bad arguments or a refused download, never an exception. */
  lemma ExitCodeOne(processId: int, outputPath: Option<string>, downloaded: Outcome<bool>)
    ensures Run(processId, outputPath, downloaded).exitCode == 1 <==>
      !ArgumentsGiven(processId, outputPath) || downloaded == Returned(false)
  {
  }
}
