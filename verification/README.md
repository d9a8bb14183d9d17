# DReX concurrency and protocol model

DReX runs GPU and DPU workloads under scheduling control: benchmark drivers launch kernels in
batches, windows and time slices, and a small service accepts uploaded workspaces and runs commands
in them. There is no single large algorithm in it; there are several small concurrent protocols and
two encoders with their decoders. This project models those and proves what they guarantee over
every interleaving, every stream and every input.

`dafny verify dfyconfig.toml` checks everything.

## How it is organised

- **Gated launch pipeline** (`GatedLaunch`, `GatedInvariants`, `GatedTheorems`, `GatedBatches`,
  `GatedFailures`, `GatedStops`, `GatedOverlap`, `GatedPipeline`, `GatedRuns`): submitter,
  completion worker, device and stop flag as a state machine, its inductive invariant, deadlock
  freedom, termination, the batch gate, what failing calls do, and the driver as an object with
  fields whose methods are shown to be the machine's steps. With a batch size of zero it is the
  ungated pipeline, which the high-priority driver shares.
- **Submission service** (`TaskRegistry`, `Submissions`, `Isolation`, `NestedWorkspaces`,
  `Reception`, `SubmissionLife`, `CleanSlate`): any number of submissions over one lock set, one
  process-group registry and one disk.
- **Upload** (`Files`, `ChunkWriter`, `SessionSpec`, `UploadSession`, `UploadClient`,
  `UploadTheorems`, `StreamEnds`, `FileBlocks`, `RoundTrip`, `UploadLosses`): the client's chunker,
  the server's lazily reopening writer, how they invert each other, and exactly when data is lost.
- **Paths and quoting** (`Paths`, `WorkspacePaths`, `Spellings`, `Shell`), each against a reference
  reading: a walk over the components, and the token rules of sections 2.2 and 2.3 of the
  POSIX.1-2017 Shell Command Language.
- **Monitoring** (`ChildMonitor`, `MonitorResults`, `MonitorThreads`): the child's monitor and its
  cancel thread.
- **Benchmarks** (`TokenWindows`, `TokenThrottle`, `ProcessSync`, `TimeSlice`, `TimeSliceCounts`,
  `TimeSliceThreads`, `LatencySummary`, `LatencyRanks`, `LatencyRuns`).

A concurrent component is a labelled transition system: one action for each critical section and
each foreign call, so that a list of actions is one interleaving. Beside it stands a class with the
source's fields; each of its methods updates them in place and is proved equal to one action, its
`Execute` method runs any interleaving, and a method that builds the object and runs it states the
guarantees on the object's own fields.

## Assumptions

- The device library starts kernels in launch order, kernel i only while the wait event is strictly
  above its threshold, sets the completion event to kernel i's value when i finishes, and creates
  both events at zero. The two threads and the device interleave freely; a timed wait that checks
  its condition again is a step that is not enabled.
- A stop request, once made, stays. A request's cancellation does too.
- The workspace root is absolute, normal, without a trailing separator and without symbolic links
  below it, and a directory that a configuration spells with a trailing separator does not exist yet,
  so that `fs::relative` strips the root lexically. For a directory that exists it also drops the
  separator; `WorkspacePaths.SameStoredKeyIff` says what that does to the keys.
- On the server's disk only conflicts between files and directories make an operation fail. Cleanup
  removes its two directories in one step, and a directory is removed whole.
- The throttle's clock does not run backwards, its stop flag is set after finitely many polls, and a
  token is granted at the time its check read. Products of utilization and unit, and sums of
  durations, fit their type.
- Process ids are arbitrary; those of different tasks may be equal.

## Where the code and its documentation, or its intent, part

- `server/remote_service_implement.cc:350-351` says a stream may switch between files at arbitrary
  chunk boundaries. Reopening truncates (line 359), so a file holds only its last run of chunks
  (`UploadTheorems.LastRunWins`); a stream that comes back to a file loses what it sent before
  (`UploadLosses.SwitchingLosesData`; exactly when, `UploadLosses.NothingLostIff`).
- An empty file produces no chunk and does not arrive (`RoundTrip.ImageOf`).
- A file the client cannot open ends the stream as if the upload were complete, and the server goes on
  with what came before it (`RoundTrip.Submit`).
- A workspace asked for with a trailing separator, a dot or a dot-dot at the end is locked and then
  refuses every file (`RoundTrip.TakesFilesIff`, `WorkspacePaths.TrailingWorkspaceIff`).
- The lock separates keys, not directories: nested workspaces can be live at once, and one's cleanup
  then takes the other's files (`NestedWorkspaces.NestedWorkspacesLoseFiles`; exactly when,
  `NestedWorkspaces.CleanupTakesFileIff`).
- A failed launch or event update while a batch is open leaves its kernels gated and the join waiting
  (`GatedFailures.FailedLaunchHangs`; exactly when, `GatedFailures.JoinReturnsIff`; for which
  configurations, `GatedFailures.NeverHangsIff`).
- The cancel thread can signal the group of a child that was already reaped, though never after the
  monitor has returned (exactly when, `ChildMonitor.LateSignalPossibleIff` and
  `ChildMonitor.NoLateSignalsIff`).
- A stop that ends the time-slice driver's window wait lets one more kernel through, unless it takes
  tokens (`TimeSlice.LimitHoldsIff`). A stop during its warm-up makes it report kernels completed that
  it does not report submitted (`TimeSlice.CompletedWithinSubmittedIff`).
  `application/dpu_ts/README.md:6` speaks of `update_add`; the code sets the event (`update_set`), and
  so does the model.
- The processes' barrier starts afresh only if the shared count is zero; a count left over from an
  earlier run breaks the lockstep (`ProcessSync.LockstepIff`). `application/gpu_dynamic_up/run.sh:71`
  resets it only on request.
- The percentile positions are computed in 32 bits and wrap for very many tasks
  (`LatencySummary.WrapReorders`; exactly when the percentiles are in order, `LatencySummary.OrderedIff`).

## Model

| member | source | states |
|---|---|---|
| `GatedTheorems.DeadlockFreedom` | application/dpu/low_priority/dpa_kernel_launch/host/dpa_kernel_launch_sample.c:285-288 | for every configuration: no interleaving without failing calls can get stuck before the submitter returns, if and only if the window can hold every task or is at least one and at least a batch |
| `GatedTheorems.LargeBatchDeadlocks` | application/dpu/low_priority/dpa_kernel_launch/host/dpa_kernel_launch_sample.c:375-383 | the other direction by construction: for every configuration outside that condition, a run of the driver that ends stuck in the window wait |
| `GatedTheorems.ConfigureSuffices` | application/dpu/low_priority/dpa_kernel_launch/host/dpa_kernel_launch_sample.c:285-288 | the two corrections leave the smallest window that is at least one, at least a batch and at least what was asked for, and nothing else changes; it is always deadlock-free, and it differs from what was asked for only when that would deadlock or all tasks fit into it |
| `GatedTheorems.BlockedOnReleased` | application/dpu/low_priority/dpa_kernel_launch/host/dpa_kernel_launch_sample.c:375-383 | a submitter blocked on the window or on a drain is blocked by a kernel whose batch has been released |
| `GatedTheorems.ReleasedMoves` | application/dpu/low_priority/dpa_kernel_launch/host/dpa_kernel_launch_sample.c:202-242 | while a released kernel is uncounted, the device or the worker has an enabled step |
| `GatedTheorems.FaultlessRunsComplete` | application/dpu/low_priority/dpa_kernel_launch/host/dpa_kernel_launch_sample.c:371-561 | a run without failing calls that can go no further has returned with success, worker gone, every launched kernel finished and counted; without a stop those are all the tasks |
| `GatedTheorems.RunsAreBounded` | application/dpu/low_priority/dpa_kernel_launch/host/dpa_kernel_launch_sample.c:371-561 | no interleaving, with any failures and a stop at any time, has more than 14 steps per task and 16 |
| `GatedTheorems.MeasureCountsSteps` | application/dpu/low_priority/dpa_kernel_launch/host/dpa_kernel_launch_sample.c:202-242 | from any reachable state the number of steps still possible is at most an explicit measure that every step of every thread brings down |
| `GatedFailures.JoinReturnsIff` | application/dpu/low_priority/dpa_kernel_launch/host/dpa_kernel_launch_sample.c:532-541 | from a join with a healthy worker, a run that can go no further has returned if and only if the open batch is empty or its gate was raised |
| `GatedFailures.FailureLeavesGated` | application/dpu/low_priority/dpa_kernel_launch/host/dpa_kernel_launch_sample.c:407-436 | after a failed launch or event update, kernels stay gated exactly when gating is on and the open batch has some |
| `GatedFailures.FailedLaunchHangs` | application/dpu/low_priority/dpa_kernel_launch/host/dpa_kernel_launch_sample.c:407-408 | with two or more tasks to a batch, a run in which the second launch fails and the join then waits for ever |
| `GatedFailures.NeverHangsIff` | application/dpu/low_priority/dpa_kernel_launch/host/dpa_kernel_launch_sample.c:285-541 | with the window of at least one that the driver always has: no run hangs, whatever calls fail, if and only if there is no gating or no task |
| `GatedFailures.SomeRunHangs` | application/dpu/low_priority/dpa_kernel_launch/host/dpa_kernel_launch_sample.c:478-541 | the hang for every gated configuration, batches of one included: a stop while a batch is open, and a flush whose update fails |
| `GatedInvariants.InitialInv` | application/dpu/low_priority/dpa_kernel_launch/host/dpa_kernel_launch_sample.c:369-371 | the invariant holds when the launch loop begins |
| `GatedInvariants.StepKeepsInv` | application/dpu/low_priority/dpa_kernel_launch/host/dpa_kernel_launch_sample.c:202-561 | every step of the submitter, the worker, the device and the stop flag keeps the invariant: counters, window, records, queue order, gate, exits and result |
| `GatedInvariants.RunKeepsInv` | application/dpu/low_priority/dpa_kernel_launch/host/dpa_kernel_launch_sample.c:202-561 | the invariant holds after every interleaving |
| `GatedBatches.GateHolds` | application/dpu/low_priority/dpa_kernel_launch/host/dpa_kernel_launch_sample.c:369-438 | in every reachable state kernel i waits at 4 + 2 * (i / batch), the wait event is above every closed batch's threshold, and a kernel of the open batch has started only if a final flush or a stop raised the gate |
| `GatedBatches.WaitEventRises` | application/dpu/low_priority/dpa_kernel_launch/host/dpa_kernel_launch_sample.c:430-437 | no step lowers the wait event |
| `GatedBatches.RunKeepsNumbered` | application/dpu/low_priority/dpa_kernel_launch/host/dpa_kernel_launch_sample.c:394-438 | thresholds, closed batches and released kernels stay in step over every run |
| `GatedBatches.DrainingSerialisesBatches` | application/dpu/low_priority/dpa_kernel_launch/host/dpa_kernel_launch_sample.c:439-470 | with draining on, a batch opens only when everything before it is counted, and any two outstanding kernels are of the same batch |
| `GatedBatches.CountingIsInOrder` | application/dpu/low_priority/dpa_kernel_launch/host/dpa_kernel_launch_sample.c:202-238 | the worker is at most one kernel ahead of its count, reads only published records, counts in order, and the unsigned window subtraction never wraps and stays within the window |
| `GatedBatches.DrainsBeforeFinish` | application/dpu/low_priority/dpa_kernel_launch/host/dpa_kernel_launch_sample.c:488-528 | with draining on, a submitter that was neither stopped nor failed refuses further work only with every published kernel counted, the partly filled last batch included |
| `GatedOverlap.OverlapPossibleIff` | application/dpu/low_priority/dpa_kernel_launch/host/dpa_kernel_launch_sample.c:425-470 | with the window the driver has: some run has kernels of two batches outstanding together if and only if there is no draining, more than one batch, and room for two |
| `GatedStops.StopEndsLaunching` | application/dpu/low_priority/dpa_kernel_launch/host/dpa_kernel_launch_sample.c:372-391 | from any state with a stop requested, every continuation launches at most one more kernel, and only if the submitter had already passed its last check |
| `GatedStops.StopOnlyFlushes` | application/dpu/low_priority/dpa_kernel_launch/host/dpa_kernel_launch_sample.c:430-487 | after a stop no further batch is released: unless a release was under way, the gate does not move and the wait event stays or is raised to the 64-bit maximum |
| `GatedStops.StopFlushesNow` | application/dpu/low_priority/dpa_kernel_launch/host/dpa_kernel_launch_sample.c:430-513 | a submitter stopped while holding or draining a batch raises the gate to the maximum next, even if the worker has failed, and goes to cleanup |
| `GatedStops.FailureEndsLaunching` | application/dpu/low_priority/dpa_kernel_launch/host/dpa_kernel_launch_sample.c:384-391 | after a failed wait at most one more kernel is launched, and only if the submitter had left the window wait |
| `GatedStops.WaitsEndIff` | application/dpu/low_priority/dpa_kernel_launch/host/dpa_kernel_launch_sample.c:375-383 | in every reachable state the window wait ends if and only if there is room, a failure or a stop, and a drain if and only if everything published is counted, or a failure or a stop |
| `GatedStops.ReturnedResult` | application/dpu/low_priority/dpa_kernel_launch/host/dpa_kernel_launch_sample.c:397-551 | the result of every run that returns: its own first failing call, else the worker's error if a wait failed, else success; a flush that fails after a stop does not count |
| `GatedPipeline.LaunchPipeline.Execute` | application/dpu/low_priority/dpa_kernel_launch/host/dpa_kernel_launch_sample.c:202-561 | the object's methods, one for each critical section and library call, run in any interleaving, give exactly the state of the state machine |
| `GatedRuns.LaunchTasks` | application/dpu/low_priority/dpa_kernel_launch/host/dpa_kernel_launch_sample.c:202-561 | the driver as an object, built from its settings and driven through any interleaving: its own counters, window, records, thresholds and gate satisfy the guarantees, its result is the one its failing calls determine, its run is bounded, and if no call failed and nothing can move any more, everything launched is counted and without a stop that is every task |
| `GatedRuns.LaunchUntilStopped` | application/dpu/low_priority/dpa_kernel_launch/host/dpa_kernel_launch_sample.c:372-391 | the driver object with a stop request in the middle of any run: afterwards it launches at most the one kernel it was about to launch |
| `Paths.IsSubPath` | server/remote_service_implement.cc:29-38 | the iterator loop answers whether the base's elements are a prefix of the candidate's |
| `Paths.NormalIsWalk` | server/remote_service_implement.cc:40-42 | normalising agrees with walking the components one by one, dots, dot-dots and the root included |
| `Paths.AnyOrderReduces` | server/remote_service_implement.cc:40-42 | removing name/dot-dot pairs in any order until none is left always gives the same names, those where the walk ends |
| `Paths.NormalIsIdempotent` | server/remote_service_implement.cc:40-42 | normalising twice is normalising once, trailing separators included |
| `WorkspacePaths.SubPathNames` | server/remote_service_implement.cc:29-38 | on absolute paths the test compares names, and a base with a trailing separator is a prefix of nothing but itself |
| `WorkspacePaths.AcceptedIff` | server/remote_service_implement.cc:130-152 | a configuration is accepted if and only if walking both its directories from the root ends at or below the root |
| `Spellings.SpellingParses` | server/remote_service_implement.cc:40-42 | every spelling parses to its names: absolute if and only if it begins with a separator, trailing if and only if it ends with one, however many separators stand together |
| `Spellings.EveryStringIsSpelled` | server/remote_service_implement.cc:40-42 | and every string is such a spelling |
| `Spellings.SpelledRequest` | server/remote_service_implement.cc:130-152 | workspace and output as strings of plain names, absolute or not: accepted if and only if both places are at or below the root, and then these are the places; an absolute one starts at the top |
| `Spellings.SpelledWorkspace` | server/remote_service_implement.cc:135-145 | with no output asked for, the output is the directory `output` inside the workspace |
| `Spellings.DefaultRequest` | server/remote_service_implement.cc:135-137 | with nothing asked for, the workspace is `uploaded_task` with its output inside |
| `WorkspacePaths.RejoinedKey` | server/remote_service_implement.cc:226-232 | joining the stored key to the root again reaches the accepted directory, and the same spelling unless it is the root written without a separator |
| `WorkspacePaths.SameKeyIff` | server/remote_service_implement.cc:147-148 | two accepted directories that do not exist yet have one lock key if and only if they are the same directory, spelled alike as to a trailing separator; the root has one key |
| `WorkspacePaths.SameStoredKeyIff` | server/remote_service_implement.cc:147-148 | the same when directories may already exist, whose keys carry no separator: same directory, and both or neither key with a separator |
| `WorkspacePaths.ParseRender` | server/remote_service_implement.cc:147-148 | spelling names and parsing them again gives the names back |
| `WorkspacePaths.FileAcceptedIff` | server/remote_service_implement.cc:321-324 | a chunk's path is accepted if and only if its walk ends at or below the workspace, unless the workspace has a trailing separator, which then accepts only itself |
| `Spellings.SpelledChunk` | server/remote_service_implement.cc:317-324 | a chunk's path as a string of plain names, absolute or not: accepted if and only if its place is at or below the workspace, which is where it is written |
| `WorkspacePaths.TrailingWorkspaceIff` | server/remote_service_implement.cc:139-149 | which requests lead to a workspace with a trailing separator: those spelled with one, or ending in a dot or dot-dot |
| `ChunkWriter.FileAfterAll` | server/remote_service_implement.cc:313-372 | last run wins: after any accepted writes each file holds the data of its last run, runs being cut at a change of target, before a file start and after a file end; other files are untouched |
| `ChunkWriter.PutFiles` | server/remote_service_implement.cc:326-365 | what one accepted write does to all files: append if it continues the open file, else truncate first |
| `ChunkWriter.LastRunExtends` | server/remote_service_implement.cc:344-365 | one more write to a file extends its last run or starts a new one |
| `ChunkWriter.PutAppend` | server/remote_service_implement.cc:252-272 | writing one stream after another is writing their concatenation, acceptance included |
| `UploadSession.WorkspaceLockGuard.Acquire` | server/remote_service_implement.cc:183-202 | the lock is taken only if free; every refusal leaves the table and the guard as they were |
| `UploadSession.WorkspaceLockGuard.Release` | server/remote_service_implement.cc:210-218 | releasing takes exactly the guard's own key out of the table, and does nothing when not locked |
| `UploadSession.WorkspaceLockGuard.RegisterCleanupTargets` | server/remote_service_implement.cc:204-208 | the two keys are remembered for cleanup and nothing else changes |
| `UploadSession.WorkspaceLockGuard.Cleanup` | server/remote_service_implement.cc:220-238 | the registered directories are removed once |
| `UploadSession.WorkspaceLockGuard.Destroy` | server/remote_service_implement.cc:178-181 | cleanup comes first, then the release; afterwards the guard holds nothing |
| `UploadSession.WorkspaceDownloadSession.HandleConfig` | server/remote_service_implement.cc:286-311 | the configuration is resolved, locked and registered, or refused with the source's status |
| `UploadSession.WorkspaceDownloadSession.HandleMessage` | server/remote_service_implement.cc:256-271 | a message is a configuration, a chunk, or refused as empty |
| `UploadSession.WorkspaceDownloadSession.CloseCurrentFile` | server/remote_service_implement.cc:367-372 | closing forgets the open file and touches no data |
| `UploadSession.WorkspaceDownloadSession.EnsureOutputFile` | server/remote_service_implement.cc:344-365 | the open file is kept only if the chunk continues it; otherwise it is closed, and reopened truncated |
| `UploadSession.WorkspaceDownloadSession.HandleFileChunk` | server/remote_service_implement.cc:313-342 | one chunk: order of the checks, reopening, appending, closing at the end of a file |
| `UploadSession.WorkspaceDownloadSession.WriteChunk` | server/remote_service_implement.cc:326-341 | the part of a chunk that touches the disk |
| `UploadSession.WorkspaceDownloadSession.Run` | server/remote_service_implement.cc:246-283 | the loop over the stream with its cancellation checks is the recursive session specification |
| `UploadClient.StreamFile` | client/client_api.cc:155-183 | the read loop sends exactly the file's chunks, or their first ones if the stream breaks, and counts the bytes |
| `UploadClient.StreamWorkspaceFiles` | client/client_api.cc:139-188 | all chunks of the files up to the first that cannot be opened, in order, with the exact progress count, unless the stream breaks, and then a prefix of them; success if and only if every file opens |
| `UploadClient.BytesOfFile` | client/client_api.cc:155-183 | a file's chunks carry each of its bytes once |
| `UploadClient.ChunkShapes` | client/client_api.cc:155-175 | each chunk carries its own piece of the file, a full buffer but for the last; the first and only the first starts the file, and the last and only the last ends it, if it is short |
| `UploadClient.ChunksAreMebibytes` | client/client_api.cc:140 | a full buffer is one mebibyte |
| `UploadClient.NextChunk` | client/client_api.cc:156-175 | one pass of the read loop takes the next chunk off the rest of the file; only a short read sees its end |
| `UploadTheorems.ServeChunks` | server/remote_service_implement.cc:246-283 | after the configuration, a stream is accepted if and only if it is never cancelled, holds only chunks with accepted paths and every write succeeds |
| `StreamEnds.WhereItEnds` | server/remote_service_implement.cc:246-342 | every stream ends at exactly one place with exactly one status: seen cancelled, over with or without a configuration, or at the first message refused, for its own reason |
| `StreamEnds.ConfigOutcome` | server/remote_service_implement.cc:286-311 | a configuration is accepted if and only if it is the first, stays in the root and its key is free; each other case has its own status and changes nothing |
| `StreamEnds.ChunkOutcome` | server/remote_service_implement.cc:313-342 | each refusal of a chunk has its own status: no configuration, no path, a path outside, a conflict on the disk |
| `UploadTheorems.LastRunWins` | server/remote_service_implement.cc:246-372 | an accepted stream is one configuration and then chunks, and afterwards every file on disk holds its last run |
| `UploadLosses.NothingLostIff` | server/remote_service_implement.cc:344-365 | an accepted stream loses nothing of any file if and only if every chunk for a file before that file's last run is empty |
| `UploadLosses.KeepsAllIff` | server/remote_service_implement.cc:344-365 | the same for one file and any sequence of writes |
| `UploadLosses.SwitchingLosesData` | server/remote_service_implement.cc:350-359 | for any accepted configuration and any two files: a stream that comes back to the first file after the second is accepted, and only its last piece is left |
| `RoundTrip.UploadRoundTrip` | client/client_api.cc:139-188 | for any files with distinct, non-nested normal paths, of any sizes, for any chunk size and any disk: the server accepts the client's stream if and only if nothing on the disk is in the way of a non-empty file, and the disk then gains exactly the non-empty files with identical bytes |
| `RoundTrip.VacantHasNoConflict` | server/remote_service_implement.cc:344-365 | in a vacant workspace nothing is ever in the way |
| `RoundTrip.AllFilesWrite` | server/remote_service_implement.cc:313-365 | all chunks of all files are accepted if and only if every file can be created on the disk as it was |
| `RoundTrip.UnreadableFileTruncates` | client/client_api.cc:142-146 | a file that cannot be opened ends the stream cleanly, so the server accepts and stores the files before it as if they were all |
| `RoundTrip.Submit` | client/client_api.cc:139-188 | client and server objects composed: the client reports the first unreadable file, the server's status is Ok if and only if nothing is in the way of the files before it, and the disk gains exactly those |
| `RoundTrip.ImageOf` | client/client_api.cc:156-161 | what the round trip leaves: each non-empty file under its own path with its own bytes, and no empty file |
| `FileBlocks.BlockWrites` | client/client_api.cc:163-175 | one file's chunks are accepted if and only if the file can be created, and create it with exactly its bytes, also when its size is a multiple of the chunk size and no chunk is marked last |
| `FileBlocks.FirstPut` | server/remote_service_implement.cc:344-365 | a write that does not continue the open file succeeds if and only if its file can be created, and then the file holds nothing else |
| `FileBlocks.FitsAfter` | server/remote_service_implement.cc:352-359 | creating one file neither helps nor hinders another that is not nested with it |
| `UploadTheorems.ConfigAccepted` | server/remote_service_implement.cc:286-311 | a configuration inside the root with a free key is accepted, takes its lock and registers its cleanup |
| `UploadTheorems.TrailingWorkspaceTakesNoFile` | server/remote_service_implement.cc:313-324 | a workspace spelled with a trailing separator takes its lock, but every chunk fails and no file changes |
| `RoundTrip.TakesFilesIff` | server/remote_service_implement.cc:313-324 | an accepted workspace can take a file, on some disk, if and only if it is not spelled with a trailing separator |
| `UploadTheorems.ChunkStaysInside` | server/remote_service_implement.cc:313-342 | a chunk, accepted or not, changes no file outside the workspace |
| `TaskRegistry.Registry.RegisterTaskProcessGroup` | server/task_runtime_control.cc:132-139 | the group is entered unless the key is empty or the group is not positive |
| `TaskRegistry.Registry.UnregisterTaskProcessGroup` | server/task_runtime_control.cc:141-151 | only the caller's own entry is erased, or any entry when the given group is not positive |
| `Submissions.LocksAndRegistryAgree` | server/remote_service_implement.cc:178-218 | after any interleaving of any number of submissions: the locks are exactly the keys held, all different; every registered group belongs to the one running submission that holds the workspace |
| `Submissions.LookupFindsRunning` | server/task_runtime_control.cc:153-173 | after any interleaving, a utilization update finds a process group if and only if its value is in range and that is the group of a submission running in the workspace it names; each refusal has its own cause |
| `SubmissionLife.ReleaseFrees` | server/remote_service_implement.cc:210-218 | a submission that releases its workspace frees it: the key leaves the lock set, nobody holds it, and the submission holds nothing and has no step left |
| `SubmissionLife.SubmissionsEnd` | server/remote_service_implement.cc:394-430 | however submissions interleave, each takes at most ten steps besides its uploads |
| `SubmissionLife.StuckIffGone` | server/remote_service_implement.cc:394-430 | a submission can go no further if and only if it has given everything back |
| `SubmissionLife.AllEndedLeavesNothing` | server/remote_service_implement.cc:178-218 | when every submission can go no further, no lock and no registration is left |
| `SubmissionLife.ReleasedWorkspaceGoesLiveAgain` | server/remote_service_implement.cc:183-218 | after a release a new submission that asks for the same workspace gets it |
| `SubmissionLife.RegisteredGroupIsOwnChild` | server/task_executor.cc:490-501 | the group registered for a workspace is the process that the submission holding it started itself |
| `SubmissionLife.RegistryRoundTrip` | server/task_runtime_control.cc:132-151 | registering and unregistering touch one key, the second undoes the first, and another group's unregistration takes nothing away |
| `Submissions.RegistryStep` | server/task_executor.cc:497-501 | registering never overwrites an entry, unregistering erases the submission's own entry and nothing else, no other step touches the registry |
| `Submissions.TaskStaysOk` | server/remote_service_implement.cc:394-430 | what a submission holds at each phase: key, cleanup registration, paths and process id |
| `Submissions.StepKeepsInv` | server/remote_service_implement.cc:394-430 | every step of every submission keeps locks, registry and phases coherent |
| `Submissions.RunKeepsInv` | server/remote_service_implement.cc:394-430 | the coherence holds after every interleaving |
| `Isolation.CleanupRemoves` | server/remote_service_implement.cc:220-238 | cleanup reaches, through the stored keys, exactly the files and directories at or below the two accepted directories |
| `CleanSlate.CleanedCanBeFilled` | server/remote_service_implement.cc:220-238 | after a cleanup, any file at or below the workspace can be created if and only if no file stands where a parent of the workspace should be |
| `CleanSlate.NextUploadFindsNothing` | server/remote_service_implement.cc:220-238 | so the next upload into the workspace conflicts with nothing the last submission left |
| `Isolation.OnlyHoldersRemove` | server/remote_service_implement.cc:178-181 | a submission without a lock removes nothing; one that removes still holds its key afterwards |
| `Isolation.CleanupSparesIff` | server/remote_service_implement.cc:220-238 | cleanup spares a directory on every disk if and only if that directory is neither above nor below the two being removed |
| `Isolation.OthersSpare` | server/remote_service_implement.cc:220-238 | with separate workspaces, no step of one submission changes a file in another's workspace |
| `Isolation.WorkspacesAreIsolated` | server/remote_service_implement.cc:394-430 | over every run of the others in which live workspaces stay separate, a submission finds every file of its workspace as it left it |
| `Reception.ChunkIsUpload` | server/remote_service_implement.cc:313-342 | every chunk handled by a session is an upload step of its own submission into its own workspace, or leaves all files alone |
| `Reception.ReceptionIsRun` | server/remote_service_implement.cc:246-311 | whatever arrives and whenever it is cancelled, receiving is a run of the submission's own steps with the session's files, locks and guard, and goes on to execution if and only if the session ends with Ok |
| `Reception.StreamSparesOthers` | server/remote_service_implement.cc:246-342 | a whole stream, accepted or not, leaves every directory apart from the workspace as it was |
| `Isolation.DifferentKeysCoexist` | server/remote_service_implement.cc:194-201 | the lock alone does not separate: any two accepted configurations with different keys, nested ones too, can be live together |
| `NestedWorkspaces.CleanupTakesFileIff` | server/remote_service_implement.cc:183-238 | for any two accepted configurations with different keys: some disk and run have the first one's cleanup remove a file of the second one's live workspace if and only if the first one's workspace or output directory lies above or below it |
| `NestedWorkspaces.NestedWorkspacesLoseFiles` | server/remote_service_implement.cc:183-238 | such pairs exist for every plain workspace and every plain directory inside it |
| `Isolation.ConfigureGoesLive` | server/remote_service_implement.cc:286-311 | a free key is enough for a new submission to become live, without moving the others |
| `Shell.ShellEscape` | server/task_executor.cc:30-41 | the loop builds the quoted form |
| `Shell.QuotingRoundTrip` | server/task_executor.cc:30-41 | a shell reads the quoted form of every string as exactly one word, the string itself |
| `Shell.CommandArrivesIff` | server/task_executor.cc:118-131 | the wrapped command line reads as the six words of the wrapper, `-oL`, `-eL`, `/bin/sh`, `-c` and the user's command, if and only if the command has no NUL; with one it does not parse |
| `Shell.UnwrappedIff` | server/task_executor.cc:118-128 | the command is executed as it stands if and only if a terminal is asked for or the wrapper is not found |
| `Shell.WrapperReads` | server/task_executor.cc:130 | the fixed part of the wrapper reads as its five words, whatever follows |
| `ChildMonitor.MonitorGuarantees` | server/task_executor.cc:307-483 | in every interleaving: at most one reap, kept and logged output are the pieces read in order, OK means exit code zero, one reap, no cancellation fired and no signal, CANCELLED means the cancel thread fired |
| `MonitorResults.ReturnedStatus` | server/task_executor.cc:350-483 | every run that has returned, in both directions, from its system calls alone: once the output has ended, CANCELLED if the cancel thread fired, else OK if the child exited with zero, else INTERNAL; DEADLINE_EXCEEDED after silence, INTERNAL after a failed call; it never returns before one of these |
| `MonitorResults.KeepsWhatWasRead` | server/task_executor.cc:410-416 | at every moment the kept output is exactly what the reads have delivered |
| `MonitorResults.SignalsSent` | server/task_executor.cc:335-386 | a cancellation that fires sends a terminate and then a kill, and only for a cancelled request; silence sends a terminate and then a kill; nothing else is sent |
| `ChildMonitor.NoSignalAfterReturn` | server/task_executor.cc:448-452 | once the monitor has returned nothing signals the process group |
| `ChildMonitor.LateSignalsAreCancellers` | server/task_executor.cc:335-343 | a signal sent after the child was reaped is the cancel thread's, and the cancellation has fired |
| `ChildMonitor.NoLateSignalsIff` | server/task_executor.cc:327-345 | a reaped child is never signalled, in any run, if and only if there is no request to watch |
| `ChildMonitor.LateSignalPossibleIff` | server/task_executor.cc:329-345 | in a reachable state with the child reaped, some continuation still signals its group if and only if the cancel thread is past its last check, or has that check ahead of it and the stop flag is not set |
| `ChildMonitor.LateSignalHappens` | server/task_executor.cc:329-357 | such a signal is possible: a run that sends one |
| `ChildMonitor.JoinCompletes` | server/task_executor.cc:448-452 | the join cannot hang: until the cancel thread is over it can move, and each move brings its end nearer |
| `ChildMonitor.RunKeepsInv` | server/task_executor.cc:307-483 | the monitor's invariant holds after every interleaving |
| `MonitorThreads.TaskMonitor.Execute` | server/task_executor.cc:307-483 | the object's methods, one for each step of the event loop and the thread, run in any interleaving, give exactly the state of the state machine |
| `MonitorThreads.MonitorChild` | server/task_executor.cc:307-483 | the monitor and its cancel thread as an object, from the start and under any interleaving: one reap at most, the output read, the status and the signals that its system calls determine, who sent a late signal, and a cancel thread that is over on return |
| `TokenThrottle.ThrottleRate` | application/gpu_token_up/main/up_loop.cpp:69-86 | whatever the file says and however the clock advances: in every half-open interval of length L a throttle grants at most (ceil(L / window) + 1) * 100 * unit tokens |
| `TokenThrottle.SampledRate` | application/gpu_token_up/main/up_loop.cpp:108-115 | a throttle that has never sampled more than u grants in every interval of length L at most (ceil(L / window) + 1) * max(1, u * unit) tokens |
| `TokenThrottle.ReadRate` | application/gpu_token_up/main/up_loop.cpp:89-115 | the same from the file's readings: with a first reading that could be read and none above u |
| `TokenThrottle.WindowGrantsItsQuota` | application/gpu_token_up/main/up_loop.cpp:108-115 | what is left of a window and what it has granted make up max(1, u * unit) for the utilization u it sampled |
| `TokenThrottle.ReadingsBoundSamplesBelow` | application/gpu_token_up/main/up_loop.cpp:89-106 | no utilization is below l if no reading is, up to the full utilization |
| `TokenWindows.RateBound` | application/gpu_token_up/main/up_loop.cpp:69-115 | the arithmetic of the bound, for every history of non-overlapping windows that each stay within their quota |
| `TokenWindows.RateBoundIsTight` | application/gpu_token_up/main/up_loop.cpp:69-115 | a history that reaches the bound |
| `TokenThrottle.QuotaBound` | application/gpu_token_up/main/up_loop.cpp:112-113 | every sampled quota is between one and the quota at full utilization |
| `TokenThrottle.Throttle.constructor` | application/gpu_token_up/main/up_loop.cpp:49-55 | a new throttle has granted nothing; if enabled its first window is open |
| `TokenThrottle.Throttle.ReadUtilization` | application/gpu_token_up/main/up_loop.cpp:89-106 | in-range contents of the file as they are, others clamped to 0 and 100; no file means 100, an unreadable one the last value |
| `TokenThrottle.Throttle.Refill` | application/gpu_token_up/main/up_loop.cpp:108-115 | one new window, after the end of the previous one, with the file's contents, the utilization they give and the quota that gives |
| `TokenThrottle.Throttle.Acquire` | application/gpu_token_up/main/up_loop.cpp:69-86 | only refills, and then, unless stopped or disabled, exactly one grant in the newest window at the time its check read; a window that is not over and has tokens left is not replaced, and earlier windows stay as they were |
| `TokenThrottle.Throttle.Measure` | application/gpu_token_up/main/up_loop.cpp:181-195 | a measured window lasts as long as asked unless stopped, and counts exactly the tokens it took, but for one taken just as a stop arrived: no inference without a token; the history only grows |
| `TokenThrottle.Throttle.Benchmark` | application/gpu_token_up/main/up_loop.cpp:174-196 | the whole benchmark: every window unless stopped, the inferences counted are the tokens granted but for at most one, and every interval keeps the rate bound |
| `ProcessSync.PassesIffOtherArrived` | application/gpu_dynamic_up/include/utils.h:74-85 | from a count of zero, a waiting process gets through if and only if the other has arrived as often, and they never differ by more than one arrival |
| `ProcessSync.LockstepIff` | application/gpu_dynamic_up/include/utils.h:74-85 | the lockstep holds in every interleaving if and only if the shared count does not start above zero, and both are never blocked together if and only if it does not start below zero |
| `ProcessSync.RunKeepsInv` | application/gpu_dynamic_up/include/utils.h:74-85 | count and arrivals agree after every interleaving |
| `ProcessSync.Pair.Execute` | application/gpu_dynamic_up/include/utils.h:74-85 | two handles on one shared counter, with their arrivals and returns in any interleaving, give exactly the state of the transition system |
| `ProcessSync.RunPair` | application/gpu_dynamic_up/include/utils.h:74-85 | two fresh handles under any interleaving: the count is the arrivals, and from a count of zero neither process passes a phase the other has not reached, they differ by at most one arrival and are never blocked together |
| `ProcessSync.Windows` | application/gpu_dynamic_up/main/up_loop.cpp:61-112 | all windows but the last have the window length and the last is positive and no longer, they add up to the duration, and the k-th barrier target is the k-th of the barrier's own numbering |
| `ProcessSync.TargetsExactIff` | application/gpu_dynamic_up/main/up_loop.cpp:85-86 | the int casts leave the targets at 2, 4, 6, ... if and only if the last fits |
| `TimeSlice.MeasurementConserves` | application/dpu_ts/dpa_kernel_launch/host/dpa_kernel_launch_sample.c:363-388 | a measurement that begins before any stop completes no more than it submits and leaves at most the in-flight limit, plus one when a stop interrupts the window wait without tokens |
| `TimeSlice.CompletedWithinSubmittedIff` | application/dpu_ts/dpa_kernel_launch/host/dpa_kernel_launch_sample.c:346-388 | for every limit: every measurement, whenever a stop comes, reports no more completed than submitted if and only if there is no warm-up |
| `TimeSlice.EarlyStopMiscounts` | application/dpu_ts/dpa_kernel_launch/host/dpa_kernel_launch_sample.c:232-250 | for every limit, a run that a stop cuts short in the warm-up and that reports one kernel completed and none submitted |
| `TimeSlice.LimitHoldsIff` | application/dpu_ts/dpa_kernel_launch/host/dpa_kernel_launch_sample.c:178-214 | the number in flight keeps its limit in every run if and only if the driver takes tokens |
| `TimeSlice.StopOvershoots` | application/dpu_ts/dpa_kernel_launch/host/dpa_kernel_launch_sample.c:178-214 | for every limit, a run without tokens that has one kernel more in flight |
| `TimeSlice.MeasurementLeavesLimit` | application/dpu_ts/dpa_kernel_launch/host/dpa_kernel_launch_sample.c:381-388 | in every run the kernels a measurement leaves in flight keep the limit, but for the one a stop can let through, and neither reported number is negative |
| `TimeSliceCounts.ReportedNumbersAreSteps` | application/dpu_ts/dpa_kernel_launch/host/dpa_kernel_launch_sample.c:363-388 | the two numbers a measurement reports are the worker's counting steps and the driver's submissions between its two readings |
| `TimeSliceCounts.StopEndsSubmitting` | application/dpu_ts/dpa_kernel_launch/host/dpa_kernel_launch_sample.c:176-214 | after a stop at most one more kernel is submitted, only from the window, and none with tokens |
| `TimeSliceCounts.FailureEndsSubmitting` | application/dpu_ts/dpa_kernel_launch/host/dpa_kernel_launch_sample.c:144-194 | after a failed wait nothing more is submitted or counted |
| `TimeSliceCounts.ReturnsMeasuredOrFailed` | application/dpu_ts/dpa_kernel_launch/host/dpa_kernel_launch_sample.c:346-422 | a run that returns has failed or reported a measurement, never both |
| `TimeSlice.MeasurementStartsDrained` | application/dpu_ts/dpa_kernel_launch/host/dpa_kernel_launch_sample.c:358-366 | if no stop has come by then, the measured phase begins with completed equal to submitted |
| `TimeSlice.RunKeepsInv` | application/dpu_ts/dpa_kernel_launch/host/dpa_kernel_launch_sample.c:120-388 | counters, phases and readings stay consistent over every interleaving |
| `TimeSliceThreads.TimeSliceDriver.Execute` | application/dpu_ts/dpa_kernel_launch/host/dpa_kernel_launch_sample.c:120-420 | the object's methods, one for each critical section, run in any interleaving, give exactly the state of the state machine |
| `TimeSliceThreads.RunBenchmark` | application/dpu_ts/dpa_kernel_launch/host/dpa_kernel_launch_sample.c:120-420 | the benchmark as an object, built from its settings and driven through any interleaving: counters in order, the limit with its one exception, and without a warm-up no more completed than submitted |
| `LatencySummary.OrderedIff` | application/dpu/high_priority/dpa_kernel_launch/host/dpa_kernel_launch_sample.c:262-266 | for each number of tasks: p50 <= p95 <= p99 between minimum and maximum for all durations if and only if the three 32-bit positions are in order |
| `LatencySummary.NoWrapOrders` | application/dpu/high_priority/dpa_kernel_launch/host/dpa_kernel_launch_sample.c:263-264 | they are whenever (n - 1) * 99 fits 32 bits |
| `LatencySummary.WrapReorders` | application/dpu/high_priority/dpa_kernel_launch/host/dpa_kernel_launch_sample.c:263-264 | at 45000001 tasks they are not |
| `LatencySummary.IndexInRange` | application/dpu/high_priority/dpa_kernel_launch/host/dpa_kernel_launch_sample.c:263-264 | no position is ever out of range, wrapped or not |
| `LatencySummary.SortSorts` | application/dpu/high_priority/dpa_kernel_launch/host/dpa_kernel_launch_sample.c:257 | the sorted copy ascends and is a permutation |
| `LatencySummary.PrintSummary` | application/dpu/high_priority/dpa_kernel_launch/host/dpa_kernel_launch_sample.c:239-266 | the loop, sum, sort and indices give the summary of the first records; nothing is reported without a completion or an interval |
| `LatencyRanks.SummaryMeans` | application/dpu/high_priority/dpa_kernel_launch/host/dpa_kernel_launch_sample.c:251-266 | in terms of the durations alone: minimum and maximum are among them and bound them, the sum is theirs, and each percentile is one of them with the rank its 32-bit position asks for |
| `LatencyRuns.CountedAreWritten` | application/dpu/high_priority/dpa_kernel_launch/host/dpa_kernel_launch_sample.c:170-227 | in any interleaving of submitter and worker: when the worker has gone, exactly the counted records have a duration, each its own kernel's end minus its launch, and every other is untouched |
| `LatencyRuns.RunAndReport` | application/dpu/high_priority/dpa_kernel_launch/host/dpa_kernel_launch_sample.c:451-464 | objects composed, under any interleaving: what is reported is the summary of exactly the kernels whose waits succeeded |

## Left out

- The gRPC and bRPC transport, protobuf, flags, logging and the clients' `main` functions: streams
  are sequences of messages with a cancellation flag per read.
- `client/integrated_client.cc` and `client/resource_client.cc`: thin wrappers around a controller
  that is not part of this model.
- The real file system: symbolic links, `weakly_canonical`, permissions, write errors after a
  successful open, a local file that changes while it is read, implementation-defined root names.
- fork, exec, pseudo-terminals, `/proc`, `xcli` and the child's environment: their outcomes are
  arbitrary.
- What the executed command writes itself, and the runtime file a utilization update writes.
- `WriteTerminalOutput` and `CreateOutputArchive`, which the current flow does not use.
- CUDA, TensorRT and DOCA set-up, device kernels, and the heartbeat threads.
- The initialisation race of the shared barrier memory, and a process that stops between two calls of
  `Sync`.
- `SendTaskConfig` and `TaskSubmit`: their order, configuration first and then the files, is the shape
  of the stream in `RoundTrip.UploadRoundTrip`; the remaining fields of the configuration are not
  modelled.
- RoundTrip.Submit: is about a stream that does not break; for one that does,
  `UploadClient.StreamWorkspaceFiles` says which chunks were sent.
- WorkspacePaths.ResolveTaskPaths: computes keys for directories that do not exist yet, or are spelled
  without a trailing separator.
- Formatting: log lines, progress percentages, the terminal's idle indicator, deadline arithmetic
  (`timespec_add_ms`) and the averages of the summary.
- The time-slice driver's discovery of its token queue in the middle of a run: whether it has tokens
  is fixed per run; without tokens the model allows everything the code can do before the discovery.
- ProcessSync.Windows: covers a run nobody stops; after a stop the two processes may make different
  numbers of calls.
- Termination of the time-slice driver after a failed launch, where its worker can be left waiting.
- LatencyRuns.RunAndReport: leaves out the window and the device, which are those of the gated
  pipeline with a batch size of zero.
- Submissions.LocksAndRegistryAgree: takes each removal of a submission's directories as one step, so
  it does not show a removal interleaved with another submission's writes.
