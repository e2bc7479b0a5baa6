/** The "list" command: the server's file names on one line. */
module ListFilesCommands {
  import opened Wrappers
  import opened Text
  import opened Console

  /** The message of the ArgumentNullException string.Join throws for a null list. */
  const NullValuesMessage := "Value cannot be null. (Parameter 'values')"

  /**
   * The command given what GetFilesAsync returned or threw. The handler's
   * null sentinel, like any exception, ends in an error line and exit code 1.
   * The handler is asked once, whatever it answers.
   */
  function Run(files: Outcome<Option<seq<string>>>): (r: CommandRun)
    ensures |r.output| == 1
    ensures r.exitCode == 0 <==> files.Returned? && files.value.Some?
    ensures r.exitCode != 0 ==> r.exitCode == 1
    ensures files.Returned? && files.value.Some? ==> r.output == [Join(" ", files.value.value)]
    ensures files.Threw? ==> r.output == [ExceptionLine(files.message)]
    ensures files == Returned(None) ==> r.output == [ExceptionLine(NullValuesMessage)]
    ensures r.requests == [ListFilesRequest]
  {
    match files
    case Threw(message) => CommandRun(1, [ExceptionLine(message)], [ListFilesRequest])
    case Returned(None) => CommandRun(1, [ExceptionLine(NullValuesMessage)], [ListFilesRequest])
    case Returned(Some(names)) => CommandRun(0, [Join(" ", names)], [ListFilesRequest])
  }

  /** An empty list prints an empty line and succeeds. */
  lemma EmptyListPrintsEmptyLine()
    ensures Run(Returned(Some([]))) == CommandRun(0, [""], [ListFilesRequest])
  {
  }

  /** Names without spaces can be read back from the printed line, in order. */
  lemma PrintedLineSplitsBack(names: seq<string>)
    requires AllTokens(names)
    ensures Tokens(Run(Returned(Some(names))).output[0]) == names
  {
    TokensOfJoin(names);
  }
}
