/**
 * FileService: resolving requested file names against the files directory,
 * and the existence check the controller applies to each name. The file
 * system is the set of paths of the regular files that exist: File.Exists
 * is false for a directory, so no directory path is in that set.
 */
module FileServices {
  import opened Paths

  /** The paths the names resolve to, position by position. */
  function ResolvePaths(filesDirPath: string, fileNames: seq<string>): (r: seq<string>)
    ensures |r| == |fileNames|
    ensures forall k | 0 <= k < |r| :: r[k] == Combine(filesDirPath, fileNames[k])
    decreases |fileNames|
  {
    if fileNames == [] then []
    else ResolvePaths(filesDirPath, fileNames[..|fileNames| - 1]) + [Combine(filesDirPath, fileNames[|fileNames| - 1])]
  }

  /**
   * File.Exists(Path.Combine(filesDirPath, fileName)). A rooted name is looked
   * up as given, outside the files directory; an empty name checks the
   * directory path itself, which is not a regular file and so is not in
   * existing.
   */
  predicate FileExistCheck(filesDirPath: string, existing: set<string>, fileName: string)
    ensures IsRooted(fileName) ==> (FileExistCheck(filesDirPath, existing, fileName) <==> fileName in existing)
    ensures fileName == [] ==> (FileExistCheck(filesDirPath, existing, fileName) <==> filesDirPath in existing)
  {
    Combine(filesDirPath, fileName) in existing
  }

  /**
   * Rewrites the caller's list in place, element i becoming
   * Combine(filesDirPath, old element i), and returns that same list.
   */
  method GetFilesPaths(filesDirPath: string, fileNames: array<string>) returns (r: array<string>)
    modifies fileNames
    ensures r == fileNames
    ensures fileNames[..] == ResolvePaths(filesDirPath, old(fileNames[..]))
  {
    ghost var names := fileNames[..];
    var i := 0;
    while i < fileNames.Length
      invariant 0 <= i <= fileNames.Length
      invariant forall k | 0 <= k < i :: fileNames[k] == Combine(filesDirPath, names[k])
      invariant forall k | i <= k < fileNames.Length :: fileNames[k] == names[k]
    {
      fileNames[i] := Combine(filesDirPath, fileNames[i]);
      i := i + 1;
    }
    ResolvedPointwise(filesDirPath, names, fileNames[..]);
    r := fileNames;
  }

  /** A list that is the resolution of each name, position by position, is ResolvePaths of those names. */
  lemma ResolvedPointwise(filesDirPath: string, fileNames: seq<string>, paths: seq<string>)
    requires |paths| == |fileNames|
    requires forall k | 0 <= k < |paths| :: paths[k] == Combine(filesDirPath, fileNames[k])
    ensures paths == ResolvePaths(filesDirPath, fileNames)
  {
  }

  /** A name passes the existence check exactly when the path GetFilesPaths resolves it to exists. */
  lemma ExistCheckMatchesResolvedPath(filesDirPath: string, existing: set<string>, fileNames: seq<string>)
    ensures forall k | 0 <= k < |fileNames| ::
      FileExistCheck(filesDirPath, existing, fileNames[k]) <==> ResolvePaths(filesDirPath, fileNames)[k] in existing
  {
  }

  /**
   * Resolved plain names keep their names: the archive entry built from a
   * resolved path is named after the file name that was requested.
   */
  lemma ResolvedPathsKeepNames(filesDirPath: string, fileNames: seq<string>)
    requires forall k | 0 <= k < |fileNames| :: IsPlainName(fileNames[k])
    ensures forall k | 0 <= k < |fileNames| :: GetFileName(ResolvePaths(filesDirPath, fileNames)[k]) == fileNames[k]
  {
    forall k | 0 <= k < |fileNames|
      ensures GetFileName(ResolvePaths(filesDirPath, fileNames)[k]) == fileNames[k]
    {
      FileNameOfCombine(filesDirPath, fileNames[k]);
    }
  }
}
