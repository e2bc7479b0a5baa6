/** The "create-archive" command: submit the names and print the process id. */
module CreateArchiveCommands {
  import opened Wrappers
  import opened Text
  import opened Console

  const FailedMessage := "Error: Failed to create archive"

  /**
   * The command given its FileNames argument and what CreateArchiveAsync
   * returned or threw. The names are passed on unchanged. Only the handler's
   * 0 sentinel fails the command; an exception is reported and still ends in 0.
   */
  function Run(fileNames: seq<string>, processId: Outcome<int>): (r: CommandRun)
    ensures |r.output| == 1
    ensures r.exitCode == 1 <==> processId == Returned(0)
    ensures r.exitCode != 1 ==> r.exitCode == 0
    ensures processId == Returned(0) ==> r.output == [FailedMessage]
    ensures processId.Returned? && processId.value != 0 ==> r.output == [IntToString(processId.value)]
    ensures processId.Threw? ==> r.output == [ExceptionLine(processId.message)]
    ensures r.requests == [CreateRequest(fileNames)]
  {
    match processId
    case Threw(message) => CommandRun(0, [ExceptionLine(message)], [CreateRequest(fileNames)])
    case Returned(id) =>
      if id != 0 then CommandRun(0, [IntToString(id)], [CreateRequest(fileNames)])
      else CommandRun(1, [FailedMessage], [CreateRequest(fileNames)])
  }

  /** The printed id of a created job reads back as that id. */
  lemma PrintedIdReadsBack(fileNames: seq<string>, id: nat)
    requires id != 0
    ensures var line := Run(fileNames, Returned(id)).output[0];
      (forall k | 0 <= k < |line| :: IsDigit(line[k])) && ParseNat(line) == id
  {
    ParseNatToString(id);
  }

  /** Different ids print different lines, and none prints like the failure. */
  lemma PrintedIdsDiffer(fileNames: seq<string>, i: int, j: int)
    requires i != 0 && j != 0 && i != j
    ensures Run(fileNames, Returned(i)).output != Run(fileNames, Returned(j)).output
    ensures Run(fileNames, Returned(i)).output != [FailedMessage]
  {
    IntToStringInjective(i, j);
    assert Run(fileNames, Returned(i)).output[0] == IntToString(i);
    assert Run(fileNames, Returned(j)).output[0] == IntToString(j);
    if i >= 0 {
      assert IsDigit(IntToString(i)[0]);
    } else {
      assert IntToString(i)[0] == '-';
    }
    assert FailedMessage[0] == 'E';
  }
}
