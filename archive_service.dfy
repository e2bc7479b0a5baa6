/**
 * ArchiveService: the job registry (processStatusStorage), the ten-minute
 * result cache (memoryCache), job submission and the background archive build.
 * The build, which the source starts with a fire-and-forget task, is the
 * separate method CreateArchive, called later with the job CreateNewProcess
 * returned and an environment that says which files can be read.
 */
module ArchiveServices {
  import opened Wrappers
  import opened Paths
  import opened Text
  import opened Models

  /** Random.Next(100000, 1000000): the upper bound is exclusive. */
  const MinProcessId: int := 100000
  const MaxProcessId: int := 999999

  /** TimeSpan.FromMinutes(10), on a clock that counts seconds. */
  const CacheLifetime: nat := 600

  /** A memory-cache entry: the cached record and the instant it stops being served. */
  datatype CacheEntry = CacheEntry(process: ArchiveCreationProcess, expiresAt: nat)

  /**
   * What the file system does during one build: whether the archive file can
   * be created, and which source files can be read into it.
   */
  datatype BuildEnvironment = BuildEnvironment(canCreateArchive: bool, readable: set<string>)

  /** The read stream GetArchiveByProcessId opens, identified by the file it reads. */
  datatype ArchiveStream = ArchiveStream(path: string)

  predicate AllReadable(filePaths: seq<string>, readable: set<string>) {
    forall k | 0 <= k < |filePaths| :: filePaths[k] in readable
  }

  /** A build of these paths in this environment runs without an exception. */
  predicate BuildSucceeds(filePaths: seq<string>, env: BuildEnvironment) {
    env.canCreateArchive && AllReadable(filePaths, env.readable)
  }

  /** What the archive file holds once a build that could create it has ended. */
  function ArchiveContents(filePaths: seq<string>, readable: set<string>): seq<ZipEntry> {
    Entries(filePaths[..FirstUnreadable(filePaths, readable)])
  }

  /** A successful build archives every path; a failed one stops at the first unreadable path. */
  lemma ArchiveContentsOfBuild(filePaths: seq<string>, env: BuildEnvironment)
    requires env.canCreateArchive
    ensures BuildSucceeds(filePaths, env) ==> ArchiveContents(filePaths, env.readable) == Entries(filePaths)
    ensures !BuildSucceeds(filePaths, env) ==>
      var k := FirstUnreadable(filePaths, env.readable);
      k < |filePaths| && filePaths[k] !in env.readable &&
      ArchiveContents(filePaths, env.readable) == Entries(filePaths[..k])
  {
    var k := FirstUnreadable(filePaths, env.readable);
    assert filePaths[..|filePaths|] == filePaths;
    if k == |filePaths| {
      assert BuildSucceeds(filePaths, env);
    }
  }

  /**
   * The body of the `using (zipArchive)` block: one entry per path, in order,
   * until a path cannot be read, which throws.
   */
  method WriteEntries(filePaths: seq<string>, readable: set<string>) returns (entries: seq<ZipEntry>, failed: bool)
    ensures failed == !AllReadable(filePaths, readable)
    ensures entries == ArchiveContents(filePaths, readable)
  {
    entries := [];
    var i := 0;
    while i < |filePaths| && filePaths[i] in readable
      invariant 0 <= i <= |filePaths|
      invariant forall k | 0 <= k < i :: filePaths[k] in readable
      invariant entries == Entries(filePaths[..i])
    {
      entries := entries + [EntryFor(filePaths[i])];
      assert filePaths[..i + 1][..i] == filePaths[..i];
      i := i + 1;
    }
    // the loop stops early exactly when CreateEntryFromFile throws
    failed := i < |filePaths|;
    assert i == FirstUnreadable(filePaths, readable);
  }

  class ArchiveService {
    const archivesDirPath: string
    /** The registry: job id to the job record stored for it. */
    var processStatusStorage: map<int, ArchiveCreationProcess>
    /** The memory cache: job id to the cached record and its expiry instant. */
    var memoryCache: map<int, CacheEntry>
    /** The clock the cache expiry and record creation times are read from. */
    var now: nat
    /** The archives directory: artifact path to the entries written to it. */
    var archiveFiles: map<string, seq<ZipEntry>>
    /** Every record CreateNewProcess has made, stored in the registry or not. */
    ghost var processes: set<ArchiveCreationProcess>
    /** The records whose build has not run yet. */
    ghost var pending: set<ArchiveCreationProcess>

    /** What holds of every record the service made. */
    ghost predicate JobValid(p: ArchiveCreationProcess)
      reads this`pending, this`archiveFiles, p
    {
      && MinProcessId <= p.id <= MaxProcessId
      && p.zipFilePath == ArchivePath(archivesDirPath, p.id)
      && IsKnownStatus(p.status)
      // a record is running exactly as long as its build has not run
      && (p.status == StatusRunning <==> p in pending)
      && (p.status == StatusSucceeded ==> p.zipFilePath in archiveFiles)
    }

    ghost predicate Valid()
      reads this, processes
    {
      && pending <= processes
      && (forall id | id in processStatusStorage ::
            processStatusStorage[id] in processes && processStatusStorage[id].id == id)
      // the cache only ever holds what the registry holds, and only finished jobs
      && (forall id | id in memoryCache ::
            id in processStatusStorage && memoryCache[id].process == processStatusStorage[id] &&
            memoryCache[id].process.status == StatusSucceeded)
      && (forall p | p in processes :: JobValid(p))
    }

    /** The constructor empties the archives directory: no archive, no job and nothing cached. Its file-system calls are not modelled. */
    constructor (archivesDirPath: string, now: nat)
      ensures Valid()
      ensures this.archivesDirPath == archivesDirPath && this.now == now
      ensures processStatusStorage == map[] && memoryCache == map[] && archiveFiles == map[]
      ensures processes == {} && pending == {}
    {
      this.archivesDirPath := archivesDirPath;
      this.now := now;
      processStatusStorage := map[];
      memoryCache := map[];
      archiveFiles := map[];
      processes := {};
      pending := {};
    }

    /** Time passes; nothing else changes. */
    method Tick(elapsed: nat)
      requires Valid()
      modifies this`now
      ensures Valid()
      ensures now == old(now) + elapsed
    {
      now := now + elapsed;
    }

    /**
     * Starts a job: draws an id, builds a running record with its artifact path
     * and registers it unless the id is taken (TryAdd). The returned record is
     * the handle of the build task, to be run later by CreateArchive.
     */
    method CreateNewProcess(filesPaths: seq<string>) returns (id: int, process: ArchiveCreationProcess)
      requires Valid()
      modifies this`processStatusStorage, this`processes, this`pending
      ensures Valid()
      ensures MinProcessId <= id <= MaxProcessId
      ensures fresh(process) && process.id == id && process.status == StatusRunning
      ensures process.filePaths == filesPaths && process.creationTime == now
      ensures process.zipFilePath == ArchivePath(archivesDirPath, id)
      // TryAdd: a free id gets the new record, a taken one keeps its record
      ensures processStatusStorage ==
        if id in old(processStatusStorage) then old(processStatusStorage)
        else old(processStatusStorage)[id := process]
      ensures id !in old(processStatusStorage) ==> GetStatusByProcessId(id) == Some(StatusRunning)
      ensures processes == old(processes) + {process} && pending == old(pending) + {process}
    {
      var draw :| MinProcessId <= draw <= MaxProcessId;
      process := new ArchiveCreationProcess(draw, StatusRunning, now, filesPaths, ArchivePath(archivesDirPath, draw));
      if draw !in processStatusStorage {
        processStatusStorage := processStatusStorage[draw := process];
      }
      processes := processes + {process};
      pending := pending + {process};
      id := draw;
      assert JobValid(process);
      forall p | p in old(processes) ensures JobValid(p) {
        assert old(JobValid(p));
      }
    }

    /**
     * The background build of one job: creates the archive file, adds one entry
     * per path in order, and ends in success (registry and cache updated) or in
     * failure (only the job's own record changes). A failed build leaves the
     * partly written archive on disk.
     */
    method CreateArchive(process: ArchiveCreationProcess, env: BuildEnvironment)
      requires Valid() && process in pending
      modifies this`processStatusStorage, this`memoryCache, this`archiveFiles, this`pending, process
      ensures Valid()
      ensures process.status == if BuildSucceeds(process.filePaths, env) then StatusSucceeded else StatusFailed
      ensures BuildSucceeds(process.filePaths, env) ==>
        && processStatusStorage == old(processStatusStorage)[process.id := process]
        && memoryCache == old(memoryCache)[process.id := CacheEntry(process, now + CacheLifetime)]
      ensures !BuildSucceeds(process.filePaths, env) ==>
        processStatusStorage == old(processStatusStorage) && memoryCache == old(memoryCache)
      // a failure shows through the registry only when this record is the stored one
      ensures !BuildSucceeds(process.filePaths, env) ==>
        GetStatusByProcessId(process.id) ==
          if process.id in old(processStatusStorage) && old(processStatusStorage)[process.id] == process
          then Some(StatusFailed)
          else old(GetStatusByProcessId(process.id))
      ensures archiveFiles ==
        if env.canCreateArchive
        then old(archiveFiles)[process.zipFilePath := ArchiveContents(process.filePaths, env.readable)]
        else old(archiveFiles)
      ensures processes == old(processes) && pending == old(pending) - {process} && now == old(now)
      ensures forall p | p in processes && p != process :: p.status == old(p.status)
    {
      if !env.canCreateArchive {
        // new FileStream(ZipFilePath, FileMode.Create) throws
        MarkFailed(process);
      } else {
        var entries, failed := WriteEntries(process.filePaths, env.readable);
        StoreArchive(process.zipFilePath, entries);
        if !failed {
          MarkSucceeded(process);
        } else {
          MarkFailed(process);
        }
      }
    }

    /** The archive file is (re)written with these entries; no record changes. */
    method StoreArchive(zipFilePath: string, entries: seq<ZipEntry>)
      requires Valid()
      modifies this`archiveFiles
      ensures Valid()
      ensures archiveFiles == old(archiveFiles)[zipFilePath := entries]
    {
      archiveFiles := archiveFiles[zipFilePath := entries];
      forall p | p in processes ensures JobValid(p) {
        assert old(JobValid(p));
      }
    }

    /** The end of the `try` block: status, registry entry and cache entry of a finished build. */
    method MarkSucceeded(process: ArchiveCreationProcess)
      requires Valid() && process in pending && process.zipFilePath in archiveFiles
      modifies this`processStatusStorage, this`memoryCache, this`pending, process
      ensures Valid()
      ensures process.status == StatusSucceeded
      ensures processStatusStorage == old(processStatusStorage)[process.id := process]
      ensures memoryCache == old(memoryCache)[process.id := CacheEntry(process, now + CacheLifetime)]
      ensures pending == old(pending) - {process}
      ensures forall p | p in processes && p != process :: p.status == old(p.status)
    {
      process.status := StatusSucceeded;
      processStatusStorage := processStatusStorage[process.id := process];
      memoryCache := memoryCache[process.id := CacheEntry(process, now + CacheLifetime)];
      pending := pending - {process};
      forall p | p in processes && p != process ensures JobValid(p) {
        assert old(JobValid(p));
      }
    }

    /** The `catch` block: only the job's own record changes. */
    method MarkFailed(process: ArchiveCreationProcess)
      requires Valid() && process in pending
      modifies this`pending, process
      ensures Valid()
      ensures process.status == StatusFailed
      ensures pending == old(pending) - {process}
      ensures GetStatusByProcessId(process.id) ==
        if process.id in processStatusStorage && processStatusStorage[process.id] == process
        then Some(StatusFailed)
        else old(GetStatusByProcessId(process.id))
      ensures forall p | p in processes && p != process :: p.status == old(p.status)
    {
      process.status := StatusFailed;
      pending := pending - {process};
      forall p | p in processes && p != process ensures JobValid(p) {
        assert old(JobValid(p));
      }
    }

    /** The record a lookup finds: a live cache entry first, otherwise the registry. */
    function GetArchiveCreationProcess(processId: int): (r: Option<ArchiveCreationProcess>)
      reads this, processes
      requires Valid()
      // the cache is only a shortcut: the answer is always the registry's
      ensures r == if processId in processStatusStorage then Some(processStatusStorage[processId]) else None
    {
      if processId in memoryCache && now < memoryCache[processId].expiresAt then Some(memoryCache[processId].process)
      else if processId in processStatusStorage then Some(processStatusStorage[processId])
      else None
    }

    /** The status of a job, or null (None) for an id nobody registered. */
    function GetStatusByProcessId(processId: int): (r: Option<string>)
      reads this, processes
      requires Valid()
      ensures r.Some? <==> processId in processStatusStorage
      ensures r.Some? ==> r.value == processStatusStorage[processId].status && IsKnownStatus(r.value)
    {
      match GetArchiveCreationProcess(processId)
      case Some(p) => Some(p.status)
      case None => None
    }

    /** A read stream on the artifact, only for a job whose record says it succeeded. */
    function GetArchiveByProcessId(processId: int): (r: Option<ArchiveStream>)
      reads this, processes
      requires Valid()
      ensures r.Some? <==> GetStatusByProcessId(processId) == Some(StatusSucceeded)
      ensures r.Some? ==> r.value.path == ArchivePath(archivesDirPath, processId) && r.value.path in archiveFiles
    {
      var process := GetArchiveCreationProcess(processId);
      if process.Some? && process.value.status == StatusSucceeded
      then Some(ArchiveStream(process.value.zipFilePath))
      else None
    }
  }
}
