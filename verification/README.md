# HDFS small-file benchmark: worker and drivers

This project models the core of a set of HDFS benchmark programs:

- `HdfsClient`, a worker thread. It polls request lines such as `add <local> <remote>`, `read <remote>` or `DONE 1000` off a shared `LinkedList<String>`, parses them with `split(" ", 3)` and runs the matching file-system operation. It stops when it finds the queue empty.
- Five test drivers fill that queue and start pools of workers on it:
  - `ThroughputTest`: read phase, write phase, cleanup, then a load of 1000 uniquely named uploads;
  - `MixedTest` and `ConMixedTest`: a mixed read/add phase;
  - `ConcurrencyTest`: `getblocklocations` requests;
  - `MetadataSizeTest`: 99 × 5000 uploads with progress markers.

The file system is abstract. `Store.Fs` holds:
- a flat remote map from path strings to nodes (a file with its bytes, or a directory);
- a local map from file names in the worker's working directory to bytes.

Each worker operation is a total function on `Fs` (`Store.*Effect`). Its result says how the operation ended:
- `Done`;
- one of the guards that prints and returns (`NoSuchPath`, `AlreadyExists`);
- an `IOException` (`IOFailure`), which ends `run` because the catch is outside the loop;
- `System.exit` (`Exit(1)`);
- an unchecked exception (`RuntimeFault`): `Path("")`, `charAt` past the end.

The worker dispatches `modificationtime` to the corrected operation (`Store.ModificationTimeEffect`). The operation as written, whose format string throws on every existing path, is `Store.ModificationTimeAsWritten`; see "## Findings".

The worker is a class (`Worker.HdfsClient`). Its `Run` loop is proved equal to the functional `Worker.Execute` over the queue contents. A thread pool is modelled as its workers run to completion one after another, in slot order (`Worker.RunPool`, specified by `Worker.ExecutePool`).

Randomness is passed in as sequences. `getRandomFile` becomes a sequence of drawn names, and `Math.random()` a sequence of coins. The drivers are methods over the same `StringList` queue and ledger objects the programs share. Their contracts tie the final store and queue to `ExecutePool` over the request lines the driver generated. The phase lemmas say what those runs do:
- reads copy, adds upload, deletes remove exactly the targets;
- markers are transparent;
- the whole throughput cycle leaves the remote store as it was.

Modules:
- `Common`: Option, NoDup, Each;
- `Paths`: lastIndexOf / basename, the add target, local keys;
- `Decimal`: `%02d` / `%05d` and integer printing;
- `Requests`: split, the verb chain;
- `Store`: the abstract file system and the operations;
- `Queues`: `LinkedList<String>`;
- `Worker`: dispatch, `run`, the copy loop, pools;
- `Workload`: the request lines and the fills;
- `Phases`: what whole phases do;
- one module per driver.

## Model

| member | source | states |
|---|---|---|
| Paths.LastSlash | src/HDFSClient.java:187 | the result is -1 or the index of a `/`, and no `/` follows it |
| Paths.Basename | src/HDFSClient.java:187 | the file name is a slash-free suffix of the path, and a slash-free path is its own file name |
| Paths.BasenameAppend | src/HDFSClient.java:372-373 | a directory prefix ending in `/` does not change the file name the read writes to |
| Paths.TargetRule | src/HDFSClient.java:327-330 | `add` uploads to `dest` plus the source's file name exactly when `dest` ends in `/`, otherwise to `dest` itself |
| Paths.LocalKey | src/HDFSClient.java:341-342 | a local path starting with `./` names the same working-directory file as the path without it; any other path is its own key |
| Paths.LocalKeyDotSlash | src/ThroughputTest.java:83-84 | `./<name>` opens the local file `<name>` that an earlier read created |
| Decimal.Numeral | src/ThroughputTest.java:147 | Java's decimal rendering of a count: digits only, no leading zero except for 0 |
| Decimal.ValueOfNumeral | src/ThroughputTest.java:147 | the printed count reads back as the count |
| Decimal.ZeroPadRoundTrip | src/ThroughputTest.java:142 | `%05d` of a count below 10^5 reads back as the count |
| Decimal.ZeroPadFixedWidth | src/ThroughputTest.java:142 | `%02d`/`%05d` of a count in range is exactly 2/5 characters wide, and different counts give different strings |
| Decimal.NumeralWidth | src/ThroughputTest.java:142 | a count below 10^w prints in at most w digits, so zero-padding never overflows the width |
| Requests.IndexOfSpace | src/HDFSClient.java:69 | the first space, or -1 when there is none; everything before it is space-free |
| Requests.Split | src/HDFSClient.java:69 | `split(" ", limit)` gives 1 to `limit` pieces, empty pieces kept |
| Requests.SplitPieces | src/HDFSClient.java:69 | every piece but the last is space-free, and the last is too when the limit was not reached |
| Requests.JoinSplit | src/HDFSClient.java:69 | joining the pieces with single spaces gives back the request line |
| Requests.SplitJoin | src/HDFSClient.java:69 | a line joined from pieces, all but the last space-free, splits back into those pieces |
| Requests.SplitAtSpace | src/HDFSClient.java:69-73 | a line with a space has at least two pieces, so it passes the token-count check |
| Requests.ParseTokens | src/HDFSClient.java:71-118 | fewer than two tokens returns; an unknown verb is rejected exactly when the first token is none of the ten verbs; a known verb dispatches or faults on a missing third token |
| Requests.Parse | src/HDFSClient.java:62-73 | a line is a marker exactly when its first two characters are `DO`; on a line of two or more characters an index fault comes only after `split`, from a missing argument token |
| Requests.ParseRender | src/HDFSClient.java:69-118 | round trip: every command with transmissible arguments, rendered as a line, parses back to itself |
| Requests.VerbChainSelects | src/HDFSClient.java:75-114 | the verb chain selects the operation the first token names |
| Requests.OneWordIsTooFew | src/HDFSClient.java:71-73 | a one-word line (a bare `gethostnames` among them) makes the worker return |
| Requests.UnknownVerbRejected | src/HDFSClient.java:115-117 | any first token outside the ten verbs is rejected, whatever follows it |
| Requests.ParseVerbLine | src/HDFSClient.java:69-118 | a line `verb rest` is dispatched on `verb` and the pieces of `rest` |
| Store.LocalBytes | src/HDFSClient.java:341-342 | opening a local file succeeds exactly when its key is a present, non-empty name, and yields that file's bytes |
| Store.Child | src/HDFSClient.java:241 | copying into a directory gives a path under that directory with the source's file name |
| Store.AddEffect | src/HDFSClient.java:316-354 | empty dest faults; an existing target is left alone; otherwise the target gets the local bytes, or stays empty with an IOException when the local source is missing |
| Store.ReadEffect | src/HDFSClient.java:356-387 | succeeds exactly for an existing file with a non-empty file name, copying its bytes to that local name; every other outcome leaves the store unchanged |
| Store.DeleteEffect | src/HDFSClient.java:389-406 | an absent path is reported; otherwise exactly that path is removed; no other path or local file changes |
| Store.MkdirEffect | src/HDFSClient.java:408-425 | a present path is reported; otherwise exactly that directory is added; all else is kept |
| Store.RenameEffect | src/HDFSClient.java:282-314 | absent source or present target is reported with no change; otherwise the node moves from `from` to `to` and nothing else changes |
| Store.CopyFromLocalEffect | src/HDFSClient.java:220-249 | a missing dest is reported; the copy completes exactly when the local source is there and no directory is in the way, writing the bytes to dest or to dest's child; otherwise the process exits with status 1 and nothing changes |
| Store.CopyToLocalEffect | src/HDFSClient.java:251-280 | a missing source is reported; the remote side never changes; an existing directory completes with no change; a file completes exactly when it has a local name to go to, and its bytes go to the local dest, or under its own name when dest is the working directory |
| Store.CopyToWorkingDirectory | src/HDFSClient.java:271-273 | a file copied to `.` or `./` is stored under its own file name |
| Store.CopyRoundTrip | src/HDFSClient.java:220-280 | a remote file copied to a local file and back over itself completes both ways and leaves the remote store as it was |
| Store.BlockLocationsEffect | src/HDFSClient.java:171-193 | read-only; completes exactly on existing files, reports absent paths, and ends in an `IOException` exactly on existing directories, which have no blocks to locate |
| Store.ModificationTimeAsWritten | src/HDFSClient.java:195-218 | as written, every existing path ends in an unchecked exception; only absent paths are reported |
| Store.ModificationTimeFormatFault | src/HDFSClient.java:216 | on any existing path, the as-written operation faults where the corrected one completes |
| Store.ModificationTimeEffect | src/HDFSClient.java:195-218 | corrected: read-only, completes exactly on existing paths |
| Queues.StringList.IsEmpty | src/HDFSClient.java:47 | true exactly when the list has no elements |
| Queues.StringList.Contains | src/ThroughputTest.java:45 | true exactly when some element equals the name |
| Queues.StringList.Offer | src/ThroughputTest.java:53 | appends at the tail |
| Queues.StringList.Poll | src/HDFSClient.java:60 | removes and returns the head; on the empty list returns null and changes nothing |
| Worker.Dispatch | src/HDFSClient.java:75-114 | the read-only operations keep the store; only the two copies can exit, and with status 1; delete/mkdir/rename keep the local side |
| Worker.StepOf | src/HDFSClient.java:62-118 | a marker changes nothing; a halt is never the empty-queue stop; an exit always has status 1 |
| Worker.OpNeverReturnsOrExits | src/HDFSClient.java:75-114 | a dispatched command other than the two copies neither returns early nor exits |
| Worker.Execute | src/HDFSClient.java:43-119 | `run` polls at most the whole queue, at least one line of a non-empty queue, and all of it when it stops on the empty queue |
| Worker.DrainsIffRunsThrough | src/HDFSClient.java:43-119 | `run` stops on the empty queue exactly when no line ends the loop, and then it has polled every line |
| Worker.ExecuteAppend | src/HDFSClient.java:43-119 | running a drained queue and then another is running their concatenation |
| Worker.MarkersTransparent | src/HDFSClient.java:64-68 | a queue of markers is drained with the store unchanged |
| Worker.ExecutePool | src/ThroughputTest.java:59-71 | a pool polls at most the queue, and at least one line of a non-empty queue |
| Worker.PoolDrains | src/ThroughputTest.java:59-71 | a queue one worker drains is drained by any non-empty pool, with the same store and no exit |
| Worker.EmptyPool | src/MetadataSizeTest.java:25-29 | workers started on the empty queue change nothing |
| Worker.ReadChunk | src/HDFSClient.java:346 | `in.read(b)` delivers 1..1024 next bytes of the stream, or -1 at its end |
| Worker.CopyStream | src/HDFSClient.java:344-348 | the 1024-byte copy loop writes out exactly the input bytes, in order |
| Worker.HdfsClient.constructor | src/HDFSClient.java:35-38 | a new worker is bound to the queue and not stopped |
| Worker.HdfsClient.StopThread | src/HDFSClient.java:126-128 | after it, the worker is stopped |
| Worker.HdfsClient.Run | src/HDFSClient.java:41-123 | the loop polls a prefix of the queue and ends with the store and halt reason `Execute` gives; a stopped worker polls nothing; it ends stopped exactly when it found the queue empty |
| Worker.HdfsClient.Process | src/HDFSClient.java:62-118 | the loop body after the poll takes the step `StepOf` specifies |
| Worker.HdfsClient.AddFile | src/HDFSClient.java:316-354 | the guard and copy loop implement `AddEffect` |
| Worker.HdfsClient.ReadFile | src/HDFSClient.java:356-387 | the guard and copy loop implement `ReadEffect` |
| Worker.StartWorker | src/ThroughputTest.java:60-61 | a fresh worker in slot j runs `Execute` on the current queue and leaves its unpolled suffix |
| Worker.RunSlot | src/ThroughputTest.java:59-71 | the worker started in one slot polls the next lines of the queue, and the pool's account advances by them, closing on an exit |
| Worker.RunPool | src/ThroughputTest.java:59-71 | filling slots 0..n-1 and running them leaves the store, exit flag and queue suffix `ExecutePool` gives |
| Workload.ReadRequestParses | src/ThroughputTest.java:48-50 | the read line parses to a read of `/read/<name>` |
| Workload.WriteRequestParses | src/ThroughputTest.java:83-84 | the write line parses to the add of `./<name>` to `/throughput/<name>` |
| Workload.MixedAddRequestParses | src/MixedTest.java:53-54 | the mixed add line parses to the add of `./read/<name>` to `/throughput/<name>` |
| Workload.DeleteRequestParses | src/ThroughputTest.java:117 | the cleanup line parses to a delete of `/throughput/<name>` |
| Workload.BlockRequestParses | src/ConcurrencyTest.java:40-42 | the block-locations line parses to that operation on `/read/<name>` |
| Workload.AddLineIsAdd | src/ThroughputTest.java:138-142 | any `add a b` line dispatches to add |
| Workload.LoadRequestParses | src/ThroughputTest.java:138-142 | a load line adds the local file to its unique path; spaces in the name stay in the target |
| Workload.DoneMarkerIsMarker | src/ThroughputTest.java:147 | `DONE <n>` is a marker the worker skips |
| Workload.UniquePathsDistinct | src/ThroughputTest.java:141-143 | different (trial, file) counters give different upload paths, whatever the names |
| Workload.LocalPathNoSpace | src/ThroughputTest.java:140 | the absolute local path of a space-free name is space-free, so the load line has three tokens |
| Workload.Admitted | src/ThroughputTest.java:41-47 | every admitted name was drawn and was not already in the ledger |
| Workload.AdmittedNoDup | src/ThroughputTest.java:43-46 | rejection sampling keeps the ledger duplicate-free |
| Workload.AdmittedRecordsAll | src/ThroughputTest.java:43-46 | every drawn name ends up in the ledger |
| Workload.AdmittedSkips | src/ThroughputTest.java:43-45 | draws the ledger already holds admit nothing |
| Workload.AdmitNext | src/ThroughputTest.java:43-46 | one round admits exactly the first fresh draw |
| Workload.SampleName | src/ThroughputTest.java:43-45 | the do/while returns the first draw absent from the ledger, every skipped draw being present |
| Workload.FillReads | src/ThroughputTest.java:41-56 | the ledger grows by the admitted names and the queue by one read line each, in order |
| Workload.MixedRequests | src/MixedTest.java:49-55 | one line per name, chosen by its coin |
| Workload.MixedRequestsAt | src/MixedTest.java:50-55 | the k-th line is the read when the k-th coin is below 0.8, the add otherwise |
| Workload.FillMixed | src/MixedTest.java:42-61 | the ledger grows by the admitted names and the queue by their coin-chosen lines, in order |
| Workload.EnqueueWrites | src/ThroughputTest.java:82-89 | one add per ledger entry, in ledger order; the ledger is unchanged |
| Workload.DrainLedger | src/ThroughputTest.java:112-119 | the ledger empties; one delete line per entry in order; exactly the ledger's local files are removed |
| Workload.MarkedLoadLength | src/ThroughputTest.java:135-152 | the load phase has one add per file plus one marker per thousand |
| Workload.MarkedLoadPrefix | src/ThroughputTest.java:135-152 | the lines of a shorter load are a prefix of the longer one |
| Workload.LoadRequestNotMarker | src/HDFSClient.java:64 | an upload line is never taken for a marker |
| Workload.MarkedLoadAt | src/ThroughputTest.java:146-149 | the j-th add sits at j-1+j/1000, with `DONE j` right before it when 1000 divides j |
| Workload.MarkerOnlyBefore | src/ThroughputTest.java:146-149 | a marker precedes the j-th add exactly when 1000 divides j |
| Workload.EnqueueLoad | src/ThroughputTest.java:135-152 | the queue grows by exactly the marked load lines |
| Phases.ReadStep | src/ThroughputTest.java:48-50 | a read of an existing `/read/` file copies its bytes to the local file of the same name |
| Phases.WriteStep | src/ThroughputTest.java:83-84 | an add of a local copy to an absent target uploads those bytes |
| Phases.ReadsPhase | src/ThroughputTest.java:41-71 | the read phase drains, keeps the remote side, and leaves a local copy of every file |
| Phases.WritesPhase | src/ThroughputTest.java:82-105 | the write phase drains and uploads every local copy to its own target, touching nothing else |
| Phases.ReadThenAddRoundTrip | src/ThroughputTest.java:41-105 | after the read and write phases each `/throughput/<name>` holds the bytes of `/read/<name>` |
| Phases.RequestsNeverReturnOrExit | src/HDFSClient.java:71-118 | no line the drivers generate for a plain name returns early or exits |
| Phases.DeleteStep | src/ThroughputTest.java:117 | a cleanup line removes its target whether or not it was there |
| Phases.CleanupPhase | src/ThroughputTest.java:112-131 | the cleanup drains and removes exactly the ledger's targets |
| Phases.WrittenUndone | src/ThroughputTest.java:112-119 | removing the targets undoes the write phase on the remote side |
| Phases.ThroughputCycle | src/ThroughputTest.java:41-131 | read, write and cleanup together leave the remote store as it was |
| Phases.ReadWritePools | src/ThroughputTest.java:58-105 | with any pool, both phases are drained without exit, and dropping the targets gives back the initial remote store |
| Phases.CleanupPool | src/ThroughputTest.java:121-131 | any non-empty pool drains the cleanup with the same effect as one worker |
| Phases.Cleanup | src/ThroughputTest.java:112-131 | the ledger empties; from an empty queue with plain names the pool drains it and removes exactly the ledger's targets |
| Phases.MixedAddStep | src/MixedTest.java:52-54 | a mixed add whose local copy `read/<name>` exists and whose target is absent uploads that copy to `/throughput/<name>` |
| Phases.MixedAddDispatch | src/HDFSClient.java:316-354 | adding `./read/<name>` reads the working directory's `read/<name>` and creates the absent target with its bytes |
| Phases.MixedDoneFresh | src/MixedTest.java:42-61 | a name not yet handled still has no target, and its local copy is untouched by the earlier lines |
| Phases.MixedDoneRead | src/MixedTest.java:50-51 | one more read line extends the mixed phase's result by one local copy |
| Phases.MixedDoneAdd | src/MixedTest.java:52-54 | one more add line extends the mixed phase's result by one upload |
| Phases.MixedPhaseRuns | src/MixedTest.java:42-76 | on a prepared store, the mixed phase drains without ending early: each read leaves its `/read/` bytes locally, each add uploads its local copy, and no other remote path changes |
| Phases.MixedUndone | src/MixedTest.java:82-101 | removing the targets after the mixed phase gives back the initial remote store |
| Phases.MixedPool | src/MixedTest.java:64-76 | any non-empty pool drains the mixed phase of a prepared store without exit, and dropping the targets gives back the initial remote store |
| Phases.MixedPhase | src/MixedTest.java:42-76 | a duplicate-free sample of fresh draws; the store and queue are what the pool makes of the mixed lines |
| ThroughputTest.ReadPhase | src/ThroughputTest.java:41-71 | the sample is fresh, duplicate-free and prepared; the store and queue are what the pool makes of the read lines |
| ThroughputTest.WritePhase | src/ThroughputTest.java:82-105 | the store and queue are what the pool makes of one add per ledger entry |
| ThroughputTest.PreparedLedger | src/ThroughputTest.java:41-46 | names sampled from prepared draws are prepared |
| ThroughputTest.Trial | src/ThroughputTest.java:35-166 | the ledger is emptied; the store before the load equals the initial remote store, and the end store is what the load pool makes of it |
| ThroughputTest.RunTrials | src/ThroughputTest.java:29-169 | the 99 trials end with an empty ledger when they complete |
| MixedTest.MixedLineParses | src/MixedTest.java:49-55 | each mixed line parses to a read or an add as its coin says, and never returns or exits |
| MixedTest.MixedTargetsCleaned | src/MixedTest.java:82-102 | every target a mixed add writes is gone after the cleanup |
| MixedTest.Trial | src/MixedTest.java:36-137 | from an empty queue on a store prepared for the sampled names, the mixed pool drains without exit and does what `Phases.MixedDone` says, the cleanup restores the initial remote store, and the load phase runs from there; if the mixed pool drains on any other store, the cleanup still removes exactly the ledger's targets |
| MixedTest.RunTrials | src/MixedTest.java:30-140 | the 99 trials end with an empty ledger when they complete |
| ConMixedTest.Pow2 | src/ConMixedTest.java:37 | `Math.pow(2, e)` is at least one |
| ConMixedTest.Pow2Monotone | src/ConMixedTest.java:37 | the worker count grows with the trial |
| ConMixedTest.ThreadCountBound | src/ConMixedTest.java:37 | 2^(Trials-1) slots hold every trial's workers and the cleanup's 16 |
| ConMixedTest.ThreadCountFits | src/ConMixedTest.java:31-37 | the 16-slot pool holds trial i's workers exactly when i ≤ 5 |
| ConMixedTest.PoolOverflowAtTrialSix | src/ConMixedTest.java:31-70 | the loop reaches trial 6, and trial i overflows the 16 slots exactly when i ≥ 6 |
| ConMixedTest.TrialAsWritten | src/ConMixedTest.java:44-80 | as written, a trial ends in a pool overflow exactly when it starts more than 16 workers |
| ConMixedTest.Trial | src/ConMixedTest.java:44-102 | with enough slots no overflow occurs; from an empty queue on a store prepared for the sampled names, the pool of `2^(i-1)` drains the mixed phase without exit and the cleanup restores the initial remote store; if the mixed pool drains on any other store, the cleanup still removes exactly the ledger's targets |
| ConMixedTest.RunTrials | src/ConMixedTest.java:29-118 | with a pool sized for the largest trial, the ten trials never overflow and end with an empty ledger |
| ConcurrencyTest.BlockStep | src/ConcurrencyTest.java:40-42 | a block-locations line never changes the store; it lets the loop go on exactly when `/read/<name>` is not a directory, and a directory ends the worker with an `IOException` |
| ConcurrencyTest.BlockPhaseReadOnly | src/ConcurrencyTest.java:36-64 | when no requested `/read/` path is a directory, a worker drains the whole phase and leaves the store as it was |
| ConcurrencyTest.FillBlockRequests | src/ConcurrencyTest.java:36-48 | one line per draw, repeats allowed, appended in order |
| ConcurrencyTest.Trial | src/ConcurrencyTest.java:31-68 | from an empty queue, with no drawn `/read/` path a directory, the pool drains the trial without exit and the store is unchanged |
| ConcurrencyTest.RunTrials | src/ConcurrencyTest.java:26-72 | with no drawn `/read/` path a directory, after 15 trials the store is unchanged and the queue empty |
| MetadataSizeTest.MetaLoadLength | src/MetadataSizeTest.java:34-53 | a trial holds one upload per file plus one marker per hundred |
| MetadataSizeTest.MetaLoadPrefix | src/MetadataSizeTest.java:34-53 | the lines of fewer files are a prefix |
| MetadataSizeTest.MetaLoadLast | src/MetadataSizeTest.java:44-51 | the last file's upload ends the trial, followed only by its marker when due |
| MetadataSizeTest.MetaLoadAt | src/MetadataSizeTest.java:44-51 | the j-th upload sits at j-1+(j-1)/100, followed by the marker carrying j+(i-1)·5000 when 100 divides j |
| MetadataSizeTest.MarkerOnlyAtInterval | src/MetadataSizeTest.java:48-50 | a marker follows the j-th upload exactly when 100 divides j |
| MetadataSizeTest.LabelsIncrease | src/MetadataSizeTest.java:49 | the marker counts strictly increase across files and trials |
| MetadataSizeTest.DoneMarkersDistinct | src/MetadataSizeTest.java:49 | different counts give different marker lines |
| MetadataSizeTest.UploadPathsDistinct | src/MetadataSizeTest.java:41-43 | no two uploads of the run share a remote path |
| MetadataSizeTest.AllTrialsLength | src/MetadataSizeTest.java:32-63 | the run queues 5050 lines per trial |
| MetadataSizeTest.EnqueueTrial | src/MetadataSizeTest.java:34-53 | the queue grows by exactly the trial's lines |
| MetadataSizeTest.StartClients | src/MetadataSizeTest.java:25-29 | 32 workers started on the empty queue stop and change nothing |
| MetadataSizeTest.EnqueueAll | src/MetadataSizeTest.java:32-63 | the queue holds the 99 trials' lines in order |
| MetadataSizeTest.RunTrials | src/MetadataSizeTest.java:21-74 | the store is unchanged, nobody exits, and the queue holds every trial's lines |

## Left out

- Threads run concurrently in the programs. Here a pool runs its workers one after another, in slot order. Interleavings, and races on the queue outside its `synchronized` blocks, are not modelled.
- Timing, throughput output and all printing are left out: `System.out`, `System.err`, `printUsage`, the throughput lines.
- The Hadoop `Configuration` and `FileSystem` instances are not modelled.
- `ifExists` is read as a plain existence test. The store is a flat map: no directory hierarchy, no implicit parent creation, no recursive delete of a directory's contents, no path normalisation.
- `getFileBlockLocations` on a directory: the namenode refuses it. The model reduces that refusal to an `IOFailure`, and the `ConcurrencyTest` contracts assume that the drawn `/read/` paths are not directories.
- `getHostnames` output: the datanode report is not modelled; the operation changes nothing.
- `copyToLocal` of a remote directory is modelled as a completed no-op on the local side.
- Store.CopyToLocalEffect: the working directory (`.` or `./`) is the only local directory. Any other local directory used as a destination is taken as a file name.
- Worker.Dispatch: `modificationtime` goes to the corrected `Store.ModificationTimeEffect`, so the worker carries on past an existing path. The program's worker dies there of the format exception, which `Store.ModificationTimeAsWritten` models.
- Workload.SampleName: returns with `ok` false when the drawn names run out, where the program would keep drawing. The drivers then end with `DrawsExhausted`.
- MetadataSizeTest.RunTrials: only the sequential schedule is modelled. The 32 workers start on the empty queue and stop before anything is queued, so the queued uploads are never polled. A concurrent run or the commented-out `wait` variant of `run` would consume them.
- ConMixedTest.RunTrials: the `System.in.read` pause between trials is not modelled. Neither is the pause in MetadataSizeTest.
- The class name is `HdfsClient` in `src/HDFSClient.java`, but `ConMixedTest` and `MetadataSizeTest` instantiate `HDFSClient`. The model uses the one worker class for all drivers.
- Phases.RequestsNeverReturnOrExit and the phase lemmas assume plain names: no spaces, no `/`, not empty. A space in a sampled name changes how `split(" ", 3)` cuts the line; those cases are handled by `Requests.Parse` but not summarised by a phase lemma.
- ThroughputTest.Trial: states the remote side. The local copies left by the read phase are removed by `Workload.DrainLedger`, whose contract states it.
- `java.io.File.delete` failures and `getRandomFile` on an empty directory (an exception in the driver) are not modelled.

## Findings

| source | as written | input that shows it | evidently intended | confidence | as-written member | corrected member |
|---|---|---|---|---|---|---|
| src/HDFSClient.java:216 | `%0.2f` has the zero-padding flag without a width, so Java's formatter throws `MissingFormatWidthException` while parsing the format, before it looks at the `long` argument; the line runs only for existing paths | `modificationtime /read/a` with `/read/a` present: the worker dies | print the time with an integer conversion such as `%d` | not executed | Store.ModificationTimeFormatFault | Store.ModificationTimeEffect |
| src/ConMixedTest.java:31 | the pool has 16 slots, but trial i starts 2^(i-1) workers and the loop runs to trial 10 | trial 6: `threadPool[16]` is out of bounds and the main thread dies | a pool sized for the largest trial, 2^(10-1) = 512 slots | not executed | ConMixedTest.TrialAsWritten | ConMixedTest.RunTrials |
