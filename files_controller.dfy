/**
 * FilesController: request validation for a new archive job and the mapping
 * of ArchiveService results to HTTP action results.
 */
module Controllers {
  import opened Wrappers
  import opened Paths
  import opened Text
  import opened Models
  import opened ArchiveServices
  import opened FileServices

  datatype ResponseBody = IdBody(id: int) | StatusBody(status: string)

  datatype ActionResult =
    | BadRequest(message: string)
    | Ok(body: ResponseBody)
    | FileResult(stream: ArchiveStream, contentType: string, fileDownloadName: string)
      /** An unhandled exception, which ASP.NET answers with status 500. */
    | ServerError

  const NoFilesMessage := "Должен присутствовать хотя бы один файл!"
  const ZipContentType := "application/zip"

  function MissingFileMessage(fileName: string): string {
    "Файла " + fileName + " не существует!"
  }

  function UnknownProcessMessage(processId: int): string {
    "Процесса с номером " + IntToString(processId) + " не существует!"
  }

  function UnknownArchiveMessage(processId: int): string {
    "Архива, процесс которого имеет номер " + IntToString(processId) + ", не существует!"
  }

  /** The position of the first name, in list order, that fails the existence check. */
  function FirstMissing(filesDirPath: string, existing: set<string>, fileNames: seq<string>): (r: nat)
    ensures r <= |fileNames|
    ensures forall k | 0 <= k < r :: FileExistCheck(filesDirPath, existing, fileNames[k])
    ensures r < |fileNames| ==> !FileExistCheck(filesDirPath, existing, fileNames[r])
    decreases |fileNames|
  {
    if fileNames == [] || !FileExistCheck(filesDirPath, existing, fileNames[0]) then 0
    else 1 + FirstMissing(filesDirPath, existing, fileNames[1..])
  }

  /**
   * The message InitFilesArchive rejects a list of names with, if it rejects
   * it: a request is accepted exactly when it names at least one file and
   * every name exists; otherwise the message names the first missing file.
   */
  function Rejection(filesDirPath: string, existing: set<string>, fileNames: seq<string>): (r: Option<string>)
    ensures r.None? <==>
      |fileNames| > 0 && forall k | 0 <= k < |fileNames| :: FileExistCheck(filesDirPath, existing, fileNames[k])
    ensures |fileNames| == 0 ==> r == Some(NoFilesMessage)
    ensures |fileNames| > 0 && r.Some? ==>
      exists m | 0 <= m < |fileNames| ::
        && r == Some(MissingFileMessage(fileNames[m]))
        && !FileExistCheck(filesDirPath, existing, fileNames[m])
        && forall k | 0 <= k < m :: FileExistCheck(filesDirPath, existing, fileNames[k])
  {
    if |fileNames| == 0 then Some(NoFilesMessage)
    else
      var m := FirstMissing(filesDirPath, existing, fileNames);
      if m < |fileNames| then Some(MissingFileMessage(fileNames[m])) else None
  }

  /**
   * POST api/files/archive. A null list reaching the action fails on its Count; an empty list or
   * a missing file is rejected before any job exists; otherwise the names
   * are rewritten in place into paths, a job is registered and its id is
   * answered. The job is returned as the handle of the build to run later.
   */
  method InitFilesArchive(archiveService: ArchiveService, filesDirPath: string, existing: set<string>, fileNames: array?<string>)
    returns (result: ActionResult, job: Option<ArchiveCreationProcess>)
    requires archiveService.Valid()
    modifies fileNames, archiveService`processStatusStorage, archiveService`processes, archiveService`pending
    ensures archiveService.Valid()
    ensures fileNames == null ==> result == ServerError && job == None && unchanged(archiveService)
    ensures fileNames != null && Rejection(filesDirPath, existing, old(fileNames[..])).Some? ==>
      && result == BadRequest(Rejection(filesDirPath, existing, old(fileNames[..])).value)
      && job == None && unchanged(archiveService) && unchanged(fileNames)
    ensures fileNames != null && Rejection(filesDirPath, existing, old(fileNames[..])).None? ==>
      && fileNames[..] == ResolvePaths(filesDirPath, old(fileNames[..]))
      && job.Some? && fresh(job.value) && result == Ok(IdBody(job.value.id))
      && MinProcessId <= job.value.id <= MaxProcessId
      && job.value.status == StatusRunning && job.value.filePaths == fileNames[..]
      && job.value.zipFilePath == ArchivePath(archiveService.archivesDirPath, job.value.id)
      && archiveService.processStatusStorage ==
           (if job.value.id in old(archiveService.processStatusStorage) then old(archiveService.processStatusStorage)
            else old(archiveService.processStatusStorage)[job.value.id := job.value])
      && archiveService.processes == old(archiveService.processes) + {job.value}
      && archiveService.pending == old(archiveService.pending) + {job.value}
  {
    if fileNames == null {
      return ServerError, None;
    }
    var rejection := ValidateFileNames(filesDirPath, existing, fileNames);
    if rejection.Some? {
      return BadRequest(rejection.value), None;
    }
    var filesPaths := GetFilesPaths(filesDirPath, fileNames);
    var processId, process := archiveService.CreateNewProcess(filesPaths[..]);
    return Ok(IdBody(processId)), Some(process);
  }

  /**
   * The checks InitFilesArchive makes before anything changes: at least one
   * name, then each name in order, stopping at the first that does not exist.
   */
  method ValidateFileNames(filesDirPath: string, existing: set<string>, fileNames: array<string>)
    returns (rejection: Option<string>)
    ensures rejection == Rejection(filesDirPath, existing, fileNames[..])
  {
    if fileNames.Length == 0 {
      return Some(NoFilesMessage);
    }
    var i := 0;
    while i < fileNames.Length
      invariant 0 <= i <= fileNames.Length
      invariant forall k | 0 <= k < i :: FileExistCheck(filesDirPath, existing, fileNames[k])
    {
      if !FileExistCheck(filesDirPath, existing, fileNames[i]) {
        FirstMissingAt(filesDirPath, existing, fileNames[..], i);
        return Some(MissingFileMessage(fileNames[i]));
      }
      i := i + 1;
    }
    FirstMissingAt(filesDirPath, existing, fileNames[..], fileNames.Length);
    return None;
  }

  /** FirstMissing is the unique position before which every name exists and at which one is missing. */
  lemma {:induction false} FirstMissingAt(filesDirPath: string, existing: set<string>, fileNames: seq<string>, i: nat)
    requires i <= |fileNames|
    requires forall k | 0 <= k < i :: FileExistCheck(filesDirPath, existing, fileNames[k])
    requires i < |fileNames| ==> !FileExistCheck(filesDirPath, existing, fileNames[i])
    ensures FirstMissing(filesDirPath, existing, fileNames) == i
    decreases i
  {
    if i > 0 {
      FirstMissingAt(filesDirPath, existing, fileNames[1..], i - 1);
    }
  }

  /**
   * GET api/files/archive/{processId}: the status of a registered job, or a
   * BadRequest naming the id.
   */
  function CheckProcessStatus(archiveService: ArchiveService, processId: int): (r: ActionResult)
    reads archiveService, archiveService.processes
    requires archiveService.Valid()
    ensures processId !in archiveService.processStatusStorage <==> r == BadRequest(UnknownProcessMessage(processId))
    ensures processId in archiveService.processStatusStorage ==>
      r == Ok(StatusBody(archiveService.processStatusStorage[processId].status))
  {
    match archiveService.GetStatusByProcessId(processId)
    case None => BadRequest(UnknownProcessMessage(processId))
    case Some(status) => Ok(StatusBody(status))
  }

  /**
   * GET api/files/archive/{processId}/download: the archive of a job that
   * succeeded, sent as "{processId}.zip", or a BadRequest naming the id.
   */
  function DownloadArchive(archiveService: ArchiveService, processId: int): (r: ActionResult)
    reads archiveService, archiveService.processes
    requires archiveService.Valid()
    ensures r.FileResult? <==>
      processId in archiveService.processStatusStorage &&
      archiveService.processStatusStorage[processId].status == StatusSucceeded
    ensures !r.FileResult? ==> r == BadRequest(UnknownArchiveMessage(processId))
    ensures r.FileResult? ==>
      && r.stream.path == ArchivePath(archiveService.archivesDirPath, processId)
      && r.stream.path in archiveService.archiveFiles
      && r.contentType == ZipContentType
      && r.fileDownloadName == IntToString(processId) + ".zip"
  {
    match archiveService.GetArchiveByProcessId(processId)
    case None => BadRequest(UnknownArchiveMessage(processId))
    case Some(stream) => FileResult(stream, ZipContentType, IntToString(processId) + ".zip")
  }

  /** The name a download is offered under is the name of the archive file on disk. */
  lemma DownloadNameIsArchiveFileName(archiveService: ArchiveService, processId: int)
    requires archiveService.Valid()
    ensures DownloadArchive(archiveService, processId).FileResult? ==>
      GetFileName(DownloadArchive(archiveService, processId).stream.path) ==
      DownloadArchive(archiveService, processId).fileDownloadName
  {
    if DownloadArchive(archiveService, processId).FileResult? {
      assert MinProcessId <= processId;
      ArchiveFileName(archiveService.archivesDirPath, processId);
    }
  }
}
