/**
 * What a client command ends in: its exit code, the console lines it wrote
 * and the calls it made on the API handler, in order.
 */
module Console {

  /** A call on IApiHandler with the arguments the command passed. */
  datatype Request =
    | ListFilesRequest
    | CreateRequest(fileNames: seq<string>)
    | StatusRequest(processId: int)
    | DownloadRequest(processId: int, outputPath: string)

  datatype CommandRun = CommandRun(exitCode: int, output: seq<string>, requests: seq<Request>)

  /** The line every command's catch block writes for an exception. */
  function ExceptionLine(message: string): string {
    "Error: " + message
  }
}
