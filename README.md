# AwesomeFilesApp archive jobs, in Dafny

AwesomeFilesApp is a small client/server system for zipping files on request.

The server (ApiService) has three parts:

- **FilesController** checks that every requested file name exists.
- **FileService** resolves the names against its files directory.
- **ArchiveService** registers an archive-creation process under a random id, starting as "Выполняется" (running). A background build then writes the ZIP archive and ends the process as "Успешно" (succeeded) or "Провален" (failed). The service answers status and download requests for the process.

The command-line client (ClientService) talks to the server through **ApiHandler**. It offers the commands `list`, `create-archive`, `status`, `download` and `complete-archive`, and a read-dispatch loop that runs them.

This project models that core and proves what each piece promises.

**Server state.** `ArchiveServices.ArchiveService` is a class holding:

- the registry (`processStatusStorage`, a map from id to process record);
- the memory cache (`memoryCache`, each entry with its expiry time);
- a clock (`now`);
- the archives written so far (`archiveFiles`, from path to its list of entries).

**Process records.** Records are objects of class `Models.ArchiveCreationProcess`, whose status field is assigned in place. Because records are objects, the model keeps the source's aliasing. When an id collides, `TryAdd` keeps the old record. The new job still builds, and a failure changes only the new job's own record, which the registry does not hold.

**The background build.** The build is the method `CreateArchive`. It is called later with the job that `CreateNewProcess` returned. A ghost set of pending jobs lets it run at most once per job.

**Build outcome.** The outcome is an input, a `BuildEnvironment` that says two things:

- whether the archive file can be created;
- which source files can be read.

**The cache.** The class invariant, `Valid`, proves that the cache never disagrees with the registry. So a lookup through the cache always gives the registry's record.

**The client.** The client's HTTP exchanges, and the answers of the handler the commands call, are inputs to the model. Console output is the list of lines written.

One consequence of the model, stated by the contracts rather than by a separate theorem: two jobs that draw the same id write the same `"{id}.zip"` path. So the archive a download streams is the one the most recent build wrote, whichever job the registry holds.

## Model

| member | source | states |
|---|---|---|
| Models.ArchiveCreationProcess.constructor | SafeBoard/ApiService/Models/ArchiveCreationProcess.cs:6-17 | A record carries its id, status, creation time, file paths and archive path as given. |
| Models.ArchiveFileName | SafeBoard/ApiService/Services/ArchiveService.cs:80 | The archive of process `id` is the file `"{id}.zip"` in the archives directory. |
| Models.Entries | SafeBoard/ApiService/Services/ArchiveService.cs:110-114 | One archive entry per path, in order, each reading that path and named by its base file name. |
| Models.FirstUnreadable | SafeBoard/ApiService/Services/ArchiveService.cs:110-113 | The first path, in order, whose entry cannot be written; every path before it is readable. |
| ArchiveServices.WriteEntries | SafeBoard/ApiService/Services/ArchiveService.cs:104-116 | The foreach loop fails exactly when some path is unreadable. It leaves the entries of the readable prefix in the archive. |
| ArchiveServices.ArchiveContentsOfBuild | SafeBoard/ApiService/Services/ArchiveService.cs:104-116 | A build that succeeds archives every path. One that fails because some path is unreadable keeps only the entries before the first such path. |
| ArchiveServices.ArchiveService.constructor | SafeBoard/ApiService/Services/ArchiveService.cs:26-62 | A new service has an empty registry, an empty cache and no archives, and satisfies the invariant. |
| ArchiveServices.ArchiveService.CreateNewProcess | SafeBoard/ApiService/Services/ArchiveService.cs:70-92 | The id is in 100000..999999. The fresh record starts "Выполняется", holds the given paths and has archive path `"{id}.zip"`. The registry is updated as `TryAdd`: a taken id keeps its old record. A free id then reads "Выполняется". The job is pending. |
| ArchiveServices.ArchiveService.CreateArchive | SafeBoard/ApiService/Services/ArchiveService.cs:99-134 | Runs at most once per job, only while the job is pending. Success writes "Успешно" to the record, overwrites `registry[id]` and sets `cache[id]` to expire after 600 s. Failure writes "Провален" to the job's own record only, and it shows through a lookup only if the registry holds that record. Other jobs' statuses are unchanged. The invariant is kept. |
| ArchiveServices.ArchiveService.StoreArchive | SafeBoard/ApiService/Services/ArchiveService.cs:104-116 | The archive file at the path now holds exactly the written entries. Other archives and all records are unchanged. The invariant is kept. |
| ArchiveServices.ArchiveService.MarkSucceeded | SafeBoard/ApiService/Services/ArchiveService.cs:118-125 | Status "Успешно", registry entry and a cache entry expiring at `now + 600`. Nothing else changes. |
| ArchiveServices.ArchiveService.MarkFailed | SafeBoard/ApiService/Services/ArchiveService.cs:127-133 | Status "Провален" on the job's own record. The registry and the cache are untouched. |
| ArchiveServices.ArchiveService.GetArchiveCreationProcess | SafeBoard/ApiService/Services/ArchiveService.cs:175-185 | Reading a live cache entry first and the registry otherwise gives exactly the registry's record, or null for an unknown id. |
| ArchiveServices.ArchiveService.GetStatusByProcessId | SafeBoard/ApiService/Services/ArchiveService.cs:141-153 | Null exactly for an unregistered id. Otherwise it is the registered record's status, one of the three known values. |
| ArchiveServices.ArchiveService.GetArchiveByProcessId | SafeBoard/ApiService/Services/ArchiveService.cs:160-173 | A stream exists if and only if the status is "Успешно". It reads `"{id}.zip"`, an archive that has been written. |
| Paths.CombineShape | SafeBoard/ApiService/Services/FileService.cs:86 | An empty second part yields the first. A rooted second part replaces the first. Otherwise the result starts with the first part and ends with the second. |
| Paths.FileNameShape | SafeBoard/ApiService/Services/ArchiveService.cs:113 | The file name is a suffix of the path without a separator, preceded by a separator unless it is the whole path. |
| FileServices.ResolvePaths | SafeBoard/ApiService/Services/FileService.cs:84-87 | Same length; element i is `Combine(filesDirPath, name i)`. |
| FileServices.GetFilesPaths | SafeBoard/ApiService/Services/FileService.cs:81-91 | Rewrites the caller's array in place, element by element, into resolved paths (an empty array stays empty), and returns that same array. |
| FileServices.FileExistCheck | SafeBoard/ApiService/Services/FileService.cs:98-102 | A rooted name is checked as given, outside the files directory. An empty name checks the directory path itself, which a file-exists test rejects because `existing` holds regular files only. |
| FileServices.ExistCheckMatchesResolvedPath | SafeBoard/ApiService/Services/FileService.cs:98-102 | `FileExistCheck` holds for a name exactly when the path `GetFilesPaths` resolves it to exists. |
| FileServices.ResolvedPathsKeepNames | SafeBoard/ApiService/Services/FileService.cs:84-87 | A resolved plain name has that name as its base file name, so the archive entry is named after the requested file. |
| Controllers.FirstMissing | SafeBoard/ApiService/Controllers/FilesController.cs:72-80 | The first name, in list order, that fails the existence check; every earlier name exists. |
| Controllers.Rejection | SafeBoard/ApiService/Controllers/FilesController.cs:65-80 | A request is accepted if and only if it is non-empty and every name exists. An empty list gets the "at least one file" message. Otherwise the message names the first missing file. |
| Controllers.ValidateFileNames | SafeBoard/ApiService/Controllers/FilesController.cs:65-80 | The checking loop with early return produces exactly that rejection. |
| Controllers.InitFilesArchive | SafeBoard/ApiService/Controllers/FilesController.cs:57-89 | If the action is reached with a null list, it fails with an unhandled error. A rejected request gives BadRequest with the message and changes nothing: no job and an untouched list. An accepted request rewrites the list into paths, registers a job on exactly those paths and answers `Ok` with the job's id. |
| Controllers.CheckProcessStatus | SafeBoard/ApiService/Controllers/FilesController.cs:101-118 | BadRequest naming the id if and only if it is unregistered. Otherwise `Ok` with the registered status unchanged. |
| Controllers.DownloadArchive | SafeBoard/ApiService/Controllers/FilesController.cs:130-147 | A file result if and only if the registered status is "Успешно". It streams `"{id}.zip"` with content type "application/zip" and download name `"{id}.zip"`. Otherwise BadRequest naming the id. |
| Controllers.DownloadNameIsArchiveFileName | SafeBoard/ApiService/Controllers/FilesController.cs:146 | The download name equals the base name of the archive file streamed. |
| ClientApi.GetFiles | SafeBoard/ClientService/ApiHandler.cs:28-43 | A refused request returns null and writes one error line. A successful one returns the decoded list and writes nothing. A transport exception propagates. |
| ClientApi.CreateArchive | SafeBoard/ClientService/ApiHandler.cs:50-68 | A refused request returns 0 and writes one error line. A successful one returns the decoded id. |
| ClientApi.GetArchiveStatus | SafeBoard/ClientService/ApiHandler.cs:75-90 | A refused request returns null and writes one error line. A successful one returns the body text as the status. |
| ClientApi.OneErrorLinePerRefusal | SafeBoard/ClientService/ApiHandler.cs:128-135 | Each handler call writes exactly one `"Error: {code} - {body}"` line when refused and none otherwise, and returns its sentinel. |
| ClientApi.ArchiveName | SafeBoard/ClientService/ApiHandler.cs:112 | `archive{n}.zip` is a single path segment ending in `.zip`, so Path.Combine keeps it inside the output folder. |
| ClientApi.ArchiveNameInjective | SafeBoard/ClientService/ApiHandler.cs:112 | Different counter values give different `archive{n}.zip` names. |
| ClientApi.SavedPathName | SafeBoard/ClientService/ApiHandler.cs:112 | Wherever it is saved, the n-th download's file is named `archive{n}.zip`. |
| ClientApi.ApiHandler.constructor | SafeBoard/ClientService/ApiHandler.cs:17-22 | The counter starts at 0, so the first download is `archive0.zip`. |
| ClientApi.ApiHandler.DownloadArchive | SafeBoard/ClientService/ApiHandler.cs:98-121 | A refused response returns false, writes the error line and leaves the counter unchanged. An accepted one takes `archive{counter}.zip` in the output path and increments the counter by one before writing. A write failure therefore consumes the number and throws. |
| ClientApi.SavedPathsDistinct | SafeBoard/ClientService/ApiHandler.cs:112-113 | No two downloads of one handler are given the same path. |
| ListFilesCommands.Run | AwesomeFilesApp/ClientService/Commands/ListFilesCommand.cs:26-44 | One line. Exit code 0 and the names joined by single spaces exactly when a list came back. A null list throws in `string.Join` and an exception gives an error line, both with exit code 1. Its one handler call is `GetFilesAsync`. |
| ListFilesCommands.EmptyListPrintsEmptyLine | AwesomeFilesApp/ClientService/Commands/ListFilesCommand.cs:33 | An empty list prints an empty line and exits 0. |
| ListFilesCommands.PrintedLineSplitsBack | AwesomeFilesApp/ClientService/Commands/ListFilesCommand.cs:33 | Names without spaces are read back from the printed line, in order. |
| CreateArchiveCommands.Run | SafeBoard/ClientService/Commands/CreateArchiveCommand.cs:32-57 | One line. Exit code 1 if and only if the id is the 0 sentinel, whose line is "Error: Failed to create archive". A nonzero id prints the id. An exception prints its message and exits 0. Its one handler call submits the given names unchanged. |
| CreateArchiveCommands.PrintedIdReadsBack | SafeBoard/ClientService/Commands/CreateArchiveCommand.cs:39-42 | The printed line of a created job is all digits and parses back to the id. |
| CreateArchiveCommands.PrintedIdsDiffer | SafeBoard/ClientService/Commands/CreateArchiveCommand.cs:39-47 | Distinct ids print distinct lines, and no id prints like the failure line. |
| ProcessStatusCommands.StatusMessage | SafeBoard/ClientService/Commands/GetProcessStatusCommand.cs:40-46 | "Выполняется" gives "Process in progress, please wait...", "Успешно" gives "Archive has been created." and "Провален" gives "Archive creation is failed.", each exactly for that status. "Unknown status." is given exactly for null or any other text. |
| ProcessStatusCommands.KnownStatusesMapApart | SafeBoard/ClientService/Commands/GetProcessStatusCommand.cs:42-44 | The three statuses get three different messages. |
| ProcessStatusCommands.Run | SafeBoard/ClientService/Commands/GetProcessStatusCommand.cs:32-58 | Exactly one line, and exit code 0 on every path, the exception path included. Its one handler call asks for the status of the given id. |
| DownloadArchiveCommands.Run | AwesomeFilesApp/ClientService/Commands/DownloadArchiveCommand.cs:38-69 | A zero id or a missing or empty path gives "Error: Null id of process or path" and exit code 1. A true result gives "Archive downloaded to {path}" and 0. A false result gives "Error: Failed downloaded to {path}" and 1. An exception gives an error line and 0. The guard that fails makes no handler call. Otherwise the one call downloads the given id to the given path. |
| DownloadArchiveCommands.GuardSkipsApi | AwesomeFilesApp/ClientService/Commands/DownloadArchiveCommand.cs:41-45 | When the guard fails the API's answer makes no difference: it is never asked. |
| DownloadArchiveCommands.ExitCodeOne | AwesomeFilesApp/ClientService/Commands/DownloadArchiveCommand.cs:41-68 | Exit code 1 if and only if the arguments are missing or the download answered false. |
| CompleteArchiveCommands.PollLines | AwesomeFilesApp/ClientService/Commands/GetCompleteArchiveCommand.cs:64 | One `"Process status: {status}"` line per poll that answered, in order, with null printed as empty. |
| CompleteArchiveCommands.FirstEnding | AwesomeFilesApp/ClientService/Commands/GetCompleteArchiveCommand.cs:60-74 | The poll that ends the loop is the first that threw or answered exactly "Успешно". Every earlier answer, "Провален" and null included, polls again. |
| CompleteArchiveCommands.PollStatus | AwesomeFilesApp/ClientService/Commands/GetCompleteArchiveCommand.cs:60-74 | The loop stops at that poll and has written one status line per earlier poll. It made one status call for the job per poll, the ending one included. |
| CompleteArchiveCommands.Track | AwesomeFilesApp/ClientService/Commands/GetCompleteArchiveCommand.cs:57-80 | After the start line it polls up to the ending poll. An exception writes an error line and exits 1 with no download. After "Успешно" it downloads exactly once, after that poll. Every status call is for the job's id, and the download sends that id and the output path. |
| CompleteArchiveCommands.Execute | AwesomeFilesApp/ClientService/Commands/GetCompleteArchiveCommand.cs:38-91 | With no names or no output path, or with the 0 sentinel, it writes the error message and exits 1, with no poll and no download. An exception from the submission writes an error line and exits 1. Otherwise it behaves as `Track`. The first handler call submits the given names. After a 0 sentinel or a failed submission there is no other call. For a nonzero id the later calls are those `Track` makes for that id. |
| CompleteArchiveCommands.DownloadFollowsSuccess | AwesomeFilesApp/ClientService/Commands/GetCompleteArchiveCommand.cs:60-77 | A download call is the last call, there is only one, it comes right after a poll that answered "Успешно", and it sends the job's id and the output path. |
| CompleteArchiveCommands.AfterDownload | AwesomeFilesApp/ClientService/Commands/GetCompleteArchiveCommand.cs:77-90 | One download call, for the job's id and the output path. An exception writes its error line and exits 1. A true result writes "Archive downloaded to {path}" and exits 0. A false result writes nothing and exits 0. |
| ClientStartCommands.StepInvocations | SafeBoard/ClientService/Commands/ClientStartCommand.cs:39-55 | A pass executes at most one command. It executes one exactly when the line has a token and the first token is a registered name. The command's name and arguments are then the line's tokens. |
| ClientStartCommands.StepOutput | SafeBoard/ClientService/Commands/ClientStartCommand.cs:44-61 | A pass that leaves the loop writes nothing. An unregistered name writes only "Unknown command: {name}". A command that ran contributes its own lines, or one error line when it threw. |
| ClientStartCommands.FirstStopLeaves | SafeBoard/ClientService/Commands/ClientStartCommand.cs:30-41 | The pass that leaves the loop is the first whose line is null, empty, or has no tokens. Every earlier pass has a token to dispatch. |
| ClientStartCommands.Pass | SafeBoard/ClientService/Commands/ClientStartCommand.cs:30-61 | One pass exits exactly on a null or empty line, and goes round again exactly when the line has a token. A pass that goes on writes the unknown-name line or the command's own output or error line, and executes the named command only when it is registered. |
| ClientStartCommands.Execute | SafeBoard/ClientService/Commands/ClientStartCommand.cs:22-66 | The banner is written first, then each pass's output. An unknown name gives "Unknown command: {name}". A known name runs the command with the remaining tokens, keeping its output, or writing an error line when it throws. A null or empty line returns 0. A line of spaces only throws the index error out of the loop. |
| ClientStartCommands.OnlyRegisteredCommandsRun | SafeBoard/ClientService/Commands/ClientStartCommand.cs:44-55 | Only registered command names are ever executed, at most one per pass. |
| ClientStartCommands.DispatchesJoinedLine | SafeBoard/ClientService/Commands/ClientStartCommand.cs:39-55 | A line that is a command name and its arguments joined by spaces runs that command with exactly those arguments. |
| ClientStartCommands.BlankLineLeavesLoop | SafeBoard/ClientService/Commands/ClientStartCommand.cs:33-41 | A non-empty line leaves the loop by the index error if and only if it consists of spaces only. |
| Text.TokensOfJoin | SafeBoard/ClientService/Commands/ClientStartCommand.cs:39 | Splitting on spaces with empty entries removed undoes joining space-free words with single spaces. |
| Text.TokensAreTokens | SafeBoard/ClientService/Commands/ClientStartCommand.cs:39 | Every entry of the split is non-empty and holds no space. |
| Text.TokensEmptyIffBlank | SafeBoard/ClientService/Commands/ClientStartCommand.cs:39 | The split yields no entries if and only if the line consists of spaces. |

## Left out

- ZIP encoding, file streams and file contents: an archive is its list of (entry name, source path) entries. The build's outcome is the `BuildEnvironment` input: whether the archive file can be created, and which sources can be read.
- Concurrency: the source runs the build on the thread pool right after registering the job. The model calls it as a later, separate step on the returned job, and does not reason about interleavings or `ConcurrentDictionary` atomicity.
- `Random`: the id is any value in 100000..999999.
- The clock and `IMemoryCache` internals: time is a natural number of seconds, advanced by `Tick`. Expiry is a stored deadline.
- The three-second wait between polls is left out.
- Starting the build: the source runs it with `Task.Run` right after registering the job (ArchiveService.cs:88). The model makes no promise that `CreateArchive` is ever called for a job, only that it runs at most once.
- Controllers.InitFilesArchive: whether ASP.NET's model validation answers 400 before the action is reached with a null list depends on project settings that are not part of this model. The model covers the action body only.
- ArchiveServices.ArchiveService.GetStatusByProcessId: the source's catch-all returning null cannot fire in the model, whose lookups never throw.
- The ArchiveService constructor's file-system work: it creates the archives directory and deletes the files in it. The model only has the result, an empty set of archives. Also left out: the FileService constructor with its debug-only sample files, `FileService.GetFilesNames` and the `GET api/files` endpoint that returns it are directory I/O and are not modelled.
- Path rules: `Path.Combine` and `Path.GetFileName` are modelled with the Unix separator `/` only. A null argument is not modelled.
- Models.ArchiveCreationProcess: `FilePaths` is held as a snapshot of the resolved list. The source aliases the caller's list, which nothing changes after registration.
- ClientApi.GetFiles: a body that fails to decode as JSON throws in the source. The model takes the decoded payload as given; the same holds for ClientApi.CreateArchive.
- ClientApi.ApiHandler.DownloadArchive: the counter is unbounded; the source's 32-bit `int` would wrap after 2^31 downloads.
- HTTP routing, JSON serialisation and `HttpClient` are represented by response datatypes. The status body is taken to reach the client as plain text.
- McMaster argument binding: each command takes its bound option values as parameters, and each reports the `IApiHandler` calls it makes with those values. In the read-dispatch loop a command's run, with its lines or exception, is an input of each pass.
- The `"> "` prompt and `IConsole` are left out.
- CompleteArchiveCommands.Execute: the source's loop is unbounded. The model consumes a finite list of poll answers and reports `StillPolling` when they run out.
- Logging, the database logging middleware and both `Program.cs` files contain no archive logic and are not modelled.
- The older `SafeBoard` drafts of the download and list commands are not modelled; the `AwesomeFilesApp` versions, which agree with the tests, are.
- Where the code and its tests disagree, the model follows the code. `GetProcessStatusCommand` returns 0 when the handler throws, while its test expects 1. The service tests call a constructor with two arguments, which the service no longer has.
