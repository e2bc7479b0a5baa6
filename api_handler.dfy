/**
 * ApiHandler: the client's four calls to the files API. An HTTP exchange is
 * an input: either the response the server sent, or the exception the
 * transport threw. Console output is the list of lines written.
 */
module ClientApi {
  import opened Wrappers
  import opened Paths
  import opened Text

  /**
   * A response: its status code, the name .NET prints for it, the body as
   * text, and what ReadFromJsonAsync makes of the body as a T.
   */
  datatype HttpResponse<T> = HttpResponse(statusCode: int, statusName: string, content: string, payload: T)

  /** What a handler call returns or throws, with the lines it wrote. */
  datatype Call<T> = Call(result: Outcome<T>, output: seq<string>)

  predicate IsSuccessStatusCode(statusCode: int) {
    200 <= statusCode <= 299
  }

  /** The exchange reached the server and the server refused. */
  predicate Refused<T>(exchange: Outcome<HttpResponse<T>>) {
    exchange.Returned? && !IsSuccessStatusCode(exchange.value.statusCode)
  }

  /** The line HandleErrorAsync writes for a refused request. */
  function ErrorLine<T>(response: HttpResponse<T>): string {
    "Error: " + response.statusName + " - " + response.content
  }

  /** GET api/files: the decoded list, or null once the server refuses. */
  function GetFiles(exchange: Outcome<HttpResponse<Option<seq<string>>>>): (c: Call<Option<seq<string>>>)
    ensures exchange.Threw? ==> c == Call(Threw(exchange.message), [])
    ensures Refused(exchange) ==> c == Call(Returned(None), [ErrorLine(exchange.value)])
    ensures exchange.Returned? && !Refused(exchange) ==> c == Call(Returned(exchange.value.payload), [])
  {
    match exchange
    case Threw(message) => Call(Threw(message), [])
    case Returned(response) =>
      if !IsSuccessStatusCode(response.statusCode) then Call(Returned(None), [ErrorLine(response)])
      else Call(Returned(response.payload), [])
  }

  /** POST api/files/archive: the process id, or 0 once the server refuses. */
  function CreateArchive(exchange: Outcome<HttpResponse<int>>): (c: Call<int>)
    ensures exchange.Threw? ==> c == Call(Threw(exchange.message), [])
    ensures Refused(exchange) ==> c == Call(Returned(0), [ErrorLine(exchange.value)])
    ensures exchange.Returned? && !Refused(exchange) ==> c == Call(Returned(exchange.value.payload), [])
  {
    match exchange
    case Threw(message) => Call(Threw(message), [])
    case Returned(response) =>
      if !IsSuccessStatusCode(response.statusCode) then Call(Returned(0), [ErrorLine(response)])
      else Call(Returned(response.payload), [])
  }

  /** GET api/files/archive/{id}: the body as the status, or null once the server refuses. */
  function GetArchiveStatus(exchange: Outcome<HttpResponse<()>>): (c: Call<Option<string>>)
    ensures exchange.Threw? ==> c == Call(Threw(exchange.message), [])
    ensures Refused(exchange) ==> c == Call(Returned(None), [ErrorLine(exchange.value)])
    ensures exchange.Returned? && !Refused(exchange) ==> c == Call(Returned(Some(exchange.value.content)), [])
  {
    match exchange
    case Threw(message) => Call(Threw(message), [])
    case Returned(response) =>
      if !IsSuccessStatusCode(response.statusCode) then Call(Returned(None), [ErrorLine(response)])
      else Call(Returned(Some(response.content)), [])
  }

  /** A handler writes exactly one line, the error line, per refused request, and none otherwise. */
  lemma OneErrorLinePerRefusal(files: Outcome<HttpResponse<Option<seq<string>>>>, create: Outcome<HttpResponse<int>>,
                               status: Outcome<HttpResponse<()>>)
    ensures |GetFiles(files).output| == (if Refused(files) then 1 else 0)
    ensures |CreateArchive(create).output| == (if Refused(create) then 1 else 0)
    ensures |GetArchiveStatus(status).output| == (if Refused(status) then 1 else 0)
    ensures Refused(files) ==> GetFiles(files).result == Returned(None)
    ensures Refused(create) ==> CreateArchive(create).result == Returned(0)
    ensures Refused(status) ==> GetArchiveStatus(status).result == Returned(None)
  {
  }

  /**
   * The name the n-th download of a handler is saved under: a single path
   * segment, so Combine keeps it inside the output folder.
   */
  function ArchiveName(n: nat): (r: string)
    ensures IsPlainName(r) && EndsWith(r, ".zip")
  {
    var r := "archive" + NatToString(n) + ".zip";
    assert r[|r| - 4..] == ".zip";
    r
  }

  lemma {:induction false} ArchiveNameInjective(m: nat, n: nat)
    ensures ArchiveName(m) == ArchiveName(n) ==> m == n
  {
    if ArchiveName(m) == ArchiveName(n) {
      var a, b := ArchiveName(m), ArchiveName(n);
      assert NatToString(m) == a[7..|a| - 4];
      assert NatToString(n) == b[7..|b| - 4];
      NatToStringInjective(m, n);
    }
  }

  /** The file a download is saved to carries the archive name, wherever it is saved. */
  lemma SavedPathName(outputPath: string, n: nat)
    ensures GetFileName(Combine(outputPath, ArchiveName(n))) == ArchiveName(n)
  {
    FileNameOfCombine(outputPath, ArchiveName(n));
  }

  class ApiHandler {
    var archivesCounter: nat
    /** The paths downloads have been given, in order; one per number consumed. */
    ghost var savedPaths: seq<string>

    ghost predicate Valid()
      reads this
    {
      && archivesCounter == |savedPaths|
      && forall k | 0 <= k < |savedPaths| :: GetFileName(savedPaths[k]) == ArchiveName(k)
    }

    constructor ()
      ensures Valid() && archivesCounter == 0 && savedPaths == []
    {
      archivesCounter := 0;
      savedPaths := [];
    }

    /**
     * GET api/files/archive/{id}/download. A refused request answers false and
     * consumes no number. An accepted one takes the next archive name, counts
     * it, and only then writes the file, which can throw.
     */
    method DownloadArchive(processId: int, outputPath: string, exchange: Outcome<HttpResponse<()>>, writeError: Option<string>)
      returns (c: Call<bool>, savedTo: Option<string>)
      requires Valid()
      modifies this
      ensures Valid()
      ensures exchange.Threw? ==>
        c == Call(Threw(exchange.message), []) && savedTo == None && unchanged(this)
      ensures Refused(exchange) ==>
        c == Call(Returned(false), [ErrorLine(exchange.value)]) && savedTo == None && unchanged(this)
      ensures exchange.Returned? && !Refused(exchange) ==>
        && archivesCounter == old(archivesCounter) + 1
        && savedPaths == old(savedPaths) + [Combine(outputPath, ArchiveName(old(archivesCounter)))]
        && c.output == []
        && (writeError.None? ==>
              c.result == Returned(true) && savedTo == Some(Combine(outputPath, ArchiveName(old(archivesCounter)))))
        && (writeError.Some? ==> c.result == Threw(writeError.value) && savedTo == None)
    {
      match exchange
      case Threw(message) =>
        return Call(Threw(message), []), None;
      case Returned(response) =>
        if !IsSuccessStatusCode(response.statusCode) {
          return Call(Returned(false), [ErrorLine(response)]), None;
        }
        var path := Combine(outputPath, ArchiveName(archivesCounter));
        SavedPathName(outputPath, archivesCounter);
        ghost var before := savedPaths;
        savedPaths := savedPaths + [path];
        archivesCounter := archivesCounter + 1;
        forall k | 0 <= k < |savedPaths| ensures GetFileName(savedPaths[k]) == ArchiveName(k) {
          if k < |before| {
            assert savedPaths[k] == before[k];
          }
        }
        if writeError.Some? {
          return Call(Threw(writeError.value), []), None;
        }
        return Call(Returned(true), []), Some(path);
    }
  }

  /** No two downloads of one handler are given the same path. */
  lemma {:induction false} SavedPathsDistinct(handler: ApiHandler)
    requires handler.Valid()
    ensures forall i, j | 0 <= i < j < |handler.savedPaths| :: handler.savedPaths[i] != handler.savedPaths[j]
  {
    forall i, j | 0 <= i < j < |handler.savedPaths|
      ensures handler.savedPaths[i] != handler.savedPaths[j]
    {
      ArchiveNameInjective(i, j);
    }
  }
}
