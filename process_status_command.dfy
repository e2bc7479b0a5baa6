/** The "status" command: one line describing a job's status. */
module ProcessStatusCommands {
  import opened Wrappers
  import opened Models
  import opened Console

  const RunningMessage := "Process in progress, please wait..."
  const SucceededMessage := "Archive has been created."
  const FailedMessage := "Archive creation is failed."
  const UnknownMessage := "Unknown status."

  /** The switch over the status text; null and any other text are unknown. */
  function StatusMessage(status: Option<string>): (m: string)
    ensures m in {RunningMessage, SucceededMessage, FailedMessage, UnknownMessage}
    ensures m == UnknownMessage <==> status.None? || !IsKnownStatus(status.value)
    ensures m == RunningMessage <==> status == Some(StatusRunning)
    ensures m == SucceededMessage <==> status == Some(StatusSucceeded)
    ensures m == FailedMessage <==> status == Some(StatusFailed)
  {
    if status == Some(StatusRunning) then RunningMessage
    else if status == Some(StatusSucceeded) then SucceededMessage
    else if status == Some(StatusFailed) then FailedMessage
    else UnknownMessage
  }

  /** Each known status has its own message. */
  lemma KnownStatusesMapApart(s: string, t: string)
    requires IsKnownStatus(s) && IsKnownStatus(t)
    ensures StatusMessage(Some(s)) == StatusMessage(Some(t)) ==> s == t
  {
  }

  /**
   * The command given its ProcessId argument and what GetArchiveStatusAsync
   * returned or threw for it: one line, exit code 0 always.
   */
  function Run(processId: int, status: Outcome<Option<string>>): (r: CommandRun)
    ensures r.exitCode == 0 && |r.output| == 1
    ensures status.Returned? ==> r.output[0] == StatusMessage(status.value)
    ensures status.Threw? ==> r.output[0] == ExceptionLine(status.message)
    ensures r.requests == [StatusRequest(processId)]
  {
    match status
    case Threw(message) => CommandRun(0, [ExceptionLine(message)], [StatusRequest(processId)])
    case Returned(s) => CommandRun(0, [StatusMessage(s)], [StatusRequest(processId)])
  }
}
