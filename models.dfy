/**
 * The archive-creation job record and the values the archive builder works
 * with: status strings, zip entries and the artifact path of a job.
 */
module Models {
  import opened Paths
  import opened Text

  /** The three status strings a job record carries (running, succeeded, failed). */
  const StatusRunning: string := "Выполняется"
  const StatusSucceeded: string := "Успешно"
  const StatusFailed: string := "Провален"

  predicate IsKnownStatus(s: string) {
    s == StatusRunning || s == StatusSucceeded || s == StatusFailed
  }

  /** Where the archive of job `id` is written: "{id}.zip" inside the archives directory. */
  function ArchivePath(archivesDirPath: string, id: int): string
  {
    Combine(archivesDirPath, IntToString(id) + ".zip")
  }

  /** The artifact of job `id` is the file "{id}.zip", whatever the archives directory. */
  lemma ArchiveFileName(archivesDirPath: string, id: nat)
    ensures GetFileName(ArchivePath(archivesDirPath, id)) == NatToString(id) + ".zip"
  {
    var name := IntToString(id) + ".zip";
    assert name[|name| - 4..] == ".zip";
    FileNameOfCombine(archivesDirPath, name);
  }

  /** One entry of a zip archive: its name inside the archive and the file its bytes come from. */
  datatype ZipEntry = ZipEntry(name: string, source: string)

  /** The entry CreateEntryFromFile(filePath, Path.GetFileName(filePath)) adds. */
  function EntryFor(filePath: string): ZipEntry {
    ZipEntry(GetFileName(filePath), filePath)
  }

  /** The entries an archive of the given files holds: one per path, in order, named by base file name. */
  function Entries(filePaths: seq<string>): (r: seq<ZipEntry>)
    ensures |r| == |filePaths|
    ensures forall k | 0 <= k < |r| :: r[k].source == filePaths[k] && r[k].name == GetFileName(filePaths[k])
    decreases |filePaths|
  {
    if filePaths == [] then []
    else Entries(filePaths[..|filePaths| - 1]) + [EntryFor(filePaths[|filePaths| - 1])]
  }

  /**
   * The index of the first path the builder cannot read, or the number of
   * paths when it can read them all.
   */
  function FirstUnreadable(filePaths: seq<string>, readable: set<string>): (r: nat)
    ensures r <= |filePaths|
    ensures forall k | 0 <= k < r :: filePaths[k] in readable
    ensures r < |filePaths| ==> filePaths[r] !in readable
    decreases |filePaths|
  {
    if filePaths == [] || filePaths[0] !in readable then 0
    else 1 + FirstUnreadable(filePaths[1..], readable)
  }

  /**
   * The job record (ArchiveCreationProcess with the ZipFilePath the service
   * assigns). Only the status changes after construction, and it is shared:
   * the registry, the cache and the background build hold the same object.
   */
  class ArchiveCreationProcess {
    const id: int
    var status: string
    const creationTime: nat
    const filePaths: seq<string>
    const zipFilePath: string

    constructor (id: int, status: string, creationTime: nat, filePaths: seq<string>, zipFilePath: string)
      ensures this.id == id && this.status == status && this.creationTime == creationTime
      ensures this.filePaths == filePaths && this.zipFilePath == zipFilePath
    {
      this.id := id;
      this.status := status;
      this.creationTime := creationTime;
      this.filePaths := filePaths;
      this.zipFilePath := zipFilePath;
    }
  }
}
