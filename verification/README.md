# YLX Transfer: a verified model of its protocols

YLX Transfer is a desktop application with a Rust backend and a TypeScript client.  This project models
the parts of it that are protocols rather than screens, and proves what they promise over every run,
every crash point and every order of events:

* **Deleting library entries** is a transaction over two authorities.  Directories are renamed into a hidden
  trash, each recorded by a marker file; SQLite holds leases, staged or committed intents and the revision
  that a commit compares and swaps.  `DeleteWorld` is the durable state with a notion of *fate* -- where a
  complete recovery would bring every directory, row and upload lease.  `LibraryDelete` (disk, application
  store, recovery), `DeleteBatch` and `DeleteOperation` (one deletion) are the code, in which every effect
  asks an oracle whether it takes place, fails, takes place and then reports an error, or is preceded by the
  end of the process.  `DeleteRuns` puts whole runs together: any
  sequence of deletions and launches.  `UploadLeases` and `UploadReconcile` are the
  leases that keep uploads and deletions apart.
* **Publication and convergence.**  `Publication` numbers every published value under one lock, `Reducer`
  is the revision-fenced cell of the client, `Convergence` relates the two under any delivery order,
  `BackendStart` is the start that buffers, reads, replays and goes live, and `Replication` takes them all
  together, from the caches of the backend to the cells of the client.
* **Boot migration** (`BootMigration`) from a plaintext legacy file to the vault, SQLite and an archive.
* **Fencing state machines**: the operation runner (`OperationRunner`), click-again confirmation
  (`Confirm`), the media root leases (`LibraryRoot`), the media lifecycle (`MediaLifecycle`), and
  source-version-fenced publication with its merge (`MediaPublication`).
* **Scheduling and batches**: the bounded scheduler (`Scheduler`), the batch contract on both sides
  (`Batch`, `BatchWorkflows`) and the normalization of pipeline answers (`PipelineBatch`).

Objects that the program updates in place are classes; each such class has a value-level view, and the
laws are lemmas about views or invariants that every method keeps.  Protocols whose steps interleave
across threads (upload leases, media lifecycle) are state machines over their atomic steps; the operation
runner is both, split at the points where other calls can come in between.

## Results that depart from what the code's comments say

* **A deletion can lose track of a directory.**  If the intents cannot be recorded, and the rollback then
  cannot rename a directory back but can remove its marker, nothing is left that knows of the directory.
  `DeleteEntries` proves that this is the only way -- nothing goes astray if and only if the run is not
  `Stranded` -- and that exactly the directories that the rollback loses (`LostBy`) are lost to recovery, while
  every other directory and every row keeps its fate.  They stay in the trash, whole, for good
  (`LostIsNotDestroyed`).  `StrandingHappens` is a concrete such run.
* **A deletion that was reported done can come undone.**  A refused deletion may leave a directory in the
  trash.  Deleting the same entry again finds no directory, removes the row and succeeds; the next recovery
  puts the directory back.  `GoneForGood` has the exact condition for one deletion -- the directory stays
  away iff no payload of an earlier one is still to be put back -- and `ReportAtTheEnd` for a deletion
  anywhere in a session.  `ReportedGoneAndBack` is a concrete such session.  The row is gone in any case.
* **An entry can be deleted under a live upload**, if an upload start fails between the busy check and the
  leases of the deletion and also fails to cancel its job.  `AliveUnderDelete` says that these jobs are
  exactly the live ones under a deletion; `LateJobHappens` is a concrete run.
* **The archive of the legacy file need not hold the legacy configuration.**  `Launch` proves when it does:
  iff no boot stopped between the migration and the archiving, or the one that did had nothing to add, that
  is, the coordinates were set and no entry was marked as interrupted (`ArchiveTold`).  `ArchiveDiffers` is
  a concrete such pair of boots.
* **A stop may return while a start that overlaps it goes on to launch workers.**  `OverlapMatters`, over all
  runs: after the return workers run or can come up without another start iff an earlier stop has missed them,
  or the flag of the application is up and some start has no epoch yet or a task of the current one.
  `OverlapHappens` is a concrete such run from the initial state.  `StopIsFinal` is for starts and stops that
  do not overlap.
* **A stop may leave workers that no later stop stops.**  A start that comes between the last stores of a stop
  takes back the mark of the completed stop before it is set.  `MissedExactly` says when that can happen, over
  all runs; `MissedHappens` is a concrete run in which a stop returns without an error and workers run on.
* **A superseded request can toast**, a success or a failure.  Whether it is current is asked when its reply or
  its failure is there; then callbacks of the caller run, and then it toasts without asking again.
  `SupersededToast` has the exact condition, over all runs: a toast is of a superseded request iff another
  intent of its scope was called for between the look that allowed the toast and the toast.
  `SupersededSuccess` and `SupersededFailure` are the two concrete runs.  From a look
  that finds its request superseded on, it neither commits nor toasts (`SupersededIsSilent`).
* **The root of a media library can be installed more than once through one exclusive lease**, although the
  type's comment says once (`InstalledTwice`, the run of a new authority).  Generations tell the roots apart
  all the same (`InstallsGrow`).
* **With a saturated revision counter clients can disagree.**  `ConvergesExactly`: a client that handled
  the latest publication of a resource holds it, whatever the order, iff no two publications of that
  resource share the last revision with different values.  `SaturatedDiverges` is a concrete such history.

## Model

| member | source | states |
|---|---|---|
| DeleteRuns.DeleteAndRelaunch | src-tauri/src/library_delete.rs:87-449 | over any deletion, from any state that recovery need not guess about, leftovers of earlier deletions included, and any number of interrupted launches: once recovery completes, the state is what recovery alone would have made of the old one, or that without the rows and directories of the batch, and a reported success or failure says which; a stranded deletion costs exactly the directories its rollback has lost, which lie whole in the trash; one launch without failures is enough |
| DeleteRuns.GoneForGood | src-tauri/src/library_delete.rs:115-193 | the exact worth of a reported deletion: its rows are gone, and a directory is gone for good iff no earlier refused deletion left it in the trash to be put back |
| DeleteRuns.Session | src-tauri/src/library_delete.rs:87-449 | any sequence of deletions and launches, however they fail or end, is a chain in which each step takes away its batch or nothing, as its caller was told, or, if it is stranded, exactly the directories it has lost |
| DeleteRuns.SessionEnds | src-tauri/src/library_delete.rs:87-449 | after such a session a complete recovery leaves exactly the rows that no deletion took, and exactly the directories that no deletion took from their path or lost |
| DeleteRuns.ReportAtTheEnd | src-tauri/src/library_delete.rs:87-449 | a success reported anywhere in a session: at its end the row is gone, and the directory is back iff an earlier refusal had left it in the trash and no later deletion took it from its path |
| DeleteRuns.LostIsNotDestroyed | src-tauri/src/library_delete.rs:160-168 | a directory that a stranded deletion has lost is never destroyed: it lies in the trash at the end of the session, and its row is there unless a later deletion took it |
| DeleteRuns.ReportedGoneAndBack | src-tauri/src/library_delete.rs:133-193 | the concrete session in which a deletion is reported done and the directory returns |
| DeleteRuns.Launch | src-tauri/src/library_delete.rs:368-449 | launches whose recoveries fail or crash anywhere keep the fate, a complete one brings every directory home and leaves no trace, and an undisturbed one completes |
| DeleteRuns.RecoveryIsDetermined | src-tauri/src/library_delete.rs:368-449 | all complete recoveries of one state, however often interrupted, end in the same state |
| DeleteRuns.QuietEnd | src-tauri/src/library_delete.rs:345-363 | from a state in which recovery has nothing to do, a committed deletion of which nothing is left means that exactly its rows and directories are missing |
| DeleteRuns.StrandingHappens | src-tauri/src/library_delete.rs:160-168 | a concrete run that strands a directory |
| DeleteOperation.DeleteEntries | src-tauri/src/library_delete.rs:87-193 | nothing goes astray iff the run is not stranded, and if it is, exactly what the rollback loses; otherwise all or nothing at every crash point; what the caller hears, what is back at its source, and which intents and leases are left is determined by which effects take place; after a failed staging whose undoing goes well every directory of the batch is home and nothing of the operation is left; empty, contradicting and leased batches are refused iff they are that and change nothing |
| DeleteOperation.StageEntries | src-tauri/src/library_delete.rs:208-291 | succeeds iff every effect does, keeps the fate at every point, and has marked and moved exactly the entries up to the effect at which it stops |
| DeleteOperation.RollbackStaged | src-tauri/src/library_delete.rs:293-341 | after it exactly those directories are away and those markers left whose rename or removal did not take place or was not come to; restored iff every effect takes place |
| DeleteOperation.MissingIsLost | src-tauri/src/library_delete.rs:293-341 | the directories that end without a record are exactly those that the rollback comes to, cannot rename back and takes the marker of all the same |
| DeleteOperation.PlacedKeepsFate | src-tauri/src/library_delete.rs:208-291 | a partly staged batch has the fate of the unstaged state, less exactly the moved directories without marker or intent |
| DeleteOperation.CommitIsGone | src-tauri/src/library_delete.rs:170-183 | committing a staged batch takes from the fate exactly what the batch named |
| DeleteOperation.CleanupCommittedDelete | src-tauri/src/library_delete.rs:345-363 | the operation is ended iff every effect of the cleanup takes place, and then its markers and payloads are gone; otherwise its intents and leases stay as they were |
| DeleteOperation.PurgedIsWithout | src-tauri/src/library_delete.rs:185-193 | a completely cleaned-up deletion leaves no trace of the operation |
| DeleteOperation.UndoUnrecorded | src-tauri/src/library_delete.rs:160-168 | the rollback without intents: exactly the directories it loses are lost to recovery, everything else keeps its fate, and what is back and what is reported follows effect by effect |
| DeleteOperation.UndoUncommitted | src-tauri/src/library_delete.rs:170-183 | the rollback with staged intents loses nothing however it goes; the intents are forgotten iff it goes well and the abort takes place |
| DeleteOperation.UndoUnstaged | src-tauri/src/library_delete.rs:133-148 | after a failed staging the orphan scan puts back what was moved, and reports it restored iff every effect that the scan comes to takes place; the leases are given back |
| DeleteOperation.BackWhereItWas | src-tauri/src/library_delete.rs:133-148 | once that scan has come to its end every directory of the batch is at its source, as it was, and nothing of the operation is on the disk |
| DeleteBatch.UniqueEntries | src-tauri/src/library_delete.rs:96-113 | refuses iff a key names two entries, and otherwise keeps the first entry of every key in order |
| DeleteBatch.FirstKeysInOrder | src-tauri/src/library_delete.rs:96-113 | the keys of a batch stand in the order of their first entries |
| LibraryDelete.RecoverPendingDeletes | src-tauri/src/library_delete.rs:368-446 | keeps the fate at every crash and failure point, leaves no trace that recovery could find and no empty operation directory if it completes, changes nothing on a quiet state, and completes if every effect that it comes to takes place |
| LibraryDelete.RecoverOrphanMarkers | src-tauri/src/library_delete.rs:580-672 | goes through every operation directory: puts back every payload with a marker and no intent, never over an existing directory, removes the marker, and leaves no empty directory behind; comes to its end iff every effect that it comes to takes place |
| LibraryDelete.PutBack | src-tauri/src/library_delete.rs:707-745 | a payload goes back iff its path is free and the rename takes place |
| LibraryDelete.SettleOperation | src-tauri/src/library_delete.rs:391-426 | staged intents roll back, committed ones are finished, mixed ones are refused; settled iff every effect that it comes to takes place |
| LibraryDelete.ReleaseOrphanLeases | src-tauri/src/library_delete.rs:428-446 | releases exactly the delete leases of operations without an intent, whatever intents there are |
| LibraryDelete.AppStore.AcquireOperationLeases | src-tauri/crates/ylx-transfer-core/src/persistence/app_store.rs:568-637 | all leases or none |
| LibraryDelete.AppStore.RecordLibraryDeleteIntents | src-tauri/crates/ylx-transfer-core/src/persistence/app_store.rs:683-753 | replaying a staged intent is idempotent, a committed one is a conflict |
| LibraryDelete.AppStore.CommitLibraryDeleteIfRevision | src-tauri/crates/ylx-transfer-core/src/persistence/app_store.rs:813-907 | the compare and swap: rows, intents and revision change together or not at all; a replay or a batch without rows takes no revision |
| LibraryDelete.AppStore.AbortLibraryDelete | src-tauri/crates/ylx-transfer-core/src/persistence/app_store.rs:911-927 | drops the staged intents and the leases of the operation |
| LibraryDelete.AppStore.FinalizeLibraryDelete | src-tauri/crates/ylx-transfer-core/src/persistence/app_store.rs:931-947 | drops the committed intents and the leases of the operation |
| DeleteOperation.InOnePlace | src-tauri/src/library_delete.rs:208-341 | a batch that is on its way, staging or rolling back, has each of its directories at its source or in one payload, never both |
| DeleteWorld.QuietIsDetermined | src-tauri/src/library_delete.rs:368-449 | when recovery finds nothing any more, the fate is the whole state |
| DeleteWorld.DropMarkerKeepsFate | src-tauri/src/library_delete.rs:639-666 | a marker may go once its payload is back or an intent records it |
| DeleteWorld.MoveBackKeepsFate | src-tauri/src/library_delete.rs:728-741 | renaming a payload back to a free path changes no fate |
| DeleteWorld.CleaningKeepsFate | src-tauri/src/library_delete.rs:345-363 | neither does any part of cleaning up a committed entry, torn directories included |
| DeleteWorld.DropIntentsKeepsFate | src-tauri/crates/ylx-transfer-core/src/persistence/app_store.rs:911-947 | intents may go once no payload depends on them |
| UploadLeases.NoDeleteUnderUpload | src-tauri/src/library_delete.rs:495-578 | over every interleaving in which failing starts cancel their jobs, no job is alive on an entry that a deletion has leased |
| UploadLeases.AliveUnderDelete | src-tauri/src/library_delete.rs:115-131 | the live jobs under a deletion are exactly those that a failing start left alive after the two looks of the busy check |
| UploadLeases.LiveJobIsLeased | src-tauri/src/application/workflows.rs:969-1030 | the lease of an entry lives from before its job exists until a terminal state is seen |
| UploadLeases.RunKeepsInv | src-tauri/src/application/workflows.rs:1134-1168 | the invariant of leases, jobs, commands and deletions over every run, crashes and boots included |
| UploadLeases.LateJobHappens | src-tauri/src/application/workflows.rs:1025-1028 | the concrete run in which a job stays alive under a deletion |
| UploadLeases.LeasesExactly | src-tauri/src/application/workflows.rs:969-1168 | a key is leased iff it was free, the keys of a deletion all or none, and a command that is over has given back what it held |
| UploadLeases.LooksExactly | src-tauri/src/library_delete.rs:495-578 | the busy check finds a key free iff it is not leased and no unfinished upload is on it |
| UploadLeases.UploadGivesBack | src-tauri/src/application/workflows.rs:969-1168 | an upload that runs its course keeps its lease while its job lives, and leaves the leases as they were |
| UploadLeases.GivenUpIsHeld | src-tauri/src/library_delete.rs:556-578 | a reaper that stops looking leaves its lease, and the entry stays refused to uploads and deletions |
| UploadReconcile.ReconcileUploadLeases | src-tauri/src/library_delete.rs:454-490 | a complete pass leaves exactly the delete leases and the leases of unfinished uploads; a failing one has released stale ones only; complete iff every release takes place |
| UploadReconcile.RecoverAtBoot | src-tauri/src/library_delete.rs:368-449 | the recovery at boot, deletions and then upload leases: the fate of every deletion is kept however it fails, the leases of unfinished uploads stay, a complete one leaves exactly those, and it completes if every effect that it comes to takes place |
| Publication.FreshUntilSaturated | src-tauri/src/application.rs:419-433 | a publication is larger than all before it iff the counter has not saturated |
| Publication.LatestWasPublished | src-tauri/src/application.rs:589-604 | a cached value was published under its revision, and is the newest of its resource |
| Publication.PublishedResources.Publish | src-tauri/src/application.rs:773-833 | value and revision of one resource change together, and the caches stay the latest of the history |
| Publication.PublishedResources.PublishSessions | src-tauri/src/application.rs:869-891 | the same per device |
| Publication.PublishedResources.AdvanceSessionRevision | src-tauri/src/application.rs:897-903 | reserves a revision without caching anything |
| Publication.PublishedResources.ReadSnapshot | src-tauri/src/application.rs:589-604 | every part is the latest of its resource and no newer than the whole, each under its own name; before its first publication a part is what it was seeded with |
| Publication.FetchSnapshot | src/runtime/tauriTransport.ts:169-187 | the check of the transport never refuses a snapshot of the backend, and hands on the latest of each part, each under its own name |
| Publication.TornSnapshot | src/runtime/tauriTransport.ts:169-187 | parts that were read after a publication do not go with a revision that was read before it: the check refuses them iff the counter has not saturated |
| Publication.PublishedResources.Seeded | src-tauri/src/application.rs:406-417 | each resource starts at revision 0 with its own seed |
| Reducer.ChangedIsVisible | src/runtime/reducer.ts:196-238 | a commit reports a change iff a view can see one, and a stale one changes nothing |
| Reducer.LastGoodSurvives | src/runtime/reducer.ts:196-238 | revisions never go back, and the last good value is replaced only by a newer load |
| Reducer.LoadShows | src/runtime/reducer.ts:196-212 | a load is stale iff it is older than the cell; any other, also one of the same revision, replaces the value and clears what was shown of loading and failure |
| Reducer.FailureShows | src/runtime/reducer.ts:214-229 | a failure is stale iff the revision it goes with is older than the cell; any other is shown over the last good value, with its own error |
| Reducer.LoadingShows | src/runtime/reducer.ts:233-236 | while it is loading, a resource shows the value that it had, and no failure |
| Reducer.AppStore.CommitSnapshot | src/runtime/reducer.ts:515-533 | a snapshot is the load of its four parts, stale only as a whole |
| Convergence.Converges | src/runtime/reducer.ts:196-212 | once the latest publication was handled, in whatever order, the client equals the cache of the backend; up to saturation, and beyond it for an unambiguous last revision |
| Convergence.HoldsTheNewest | src/runtime/reducer.ts:196-212 | a cell holds the newest of all loads, whatever their order |
| Convergence.RevisionNeverDecreases | src/runtime/reducer.ts:196-212 | over any run the revision of a cell never decreases |
| Convergence.ShowsWhatWasPublished | src/runtime/reducer.ts:196-233 | what is shown was published under the revision it is shown with |
| Convergence.OrderIsIrrelevant | src/runtime/reducer.ts:196-233 | clients that were sent the same publications agree |
| Convergence.ReadsArePublished | src-tauri/src/application.rs:589-604 | a read taken at any time loads only what was published |
| Convergence.ConvergesExactly | src-tauri/src/application.rs:419-433 | every client that handled the latest publication holds it iff the saturated revision of the resource stands for one value |
| Convergence.SaturatedDiverges | src-tauri/src/application.rs:419-433 | the concrete history that runs into saturation, and a delivery after which the client shows the older value |
| BackendStart.StartBackend | src/runtime/start.ts:94-247 | while the snapshot is awaited every resource is shown as loading; a fatal read fails each of them with its message, over the last good value, and single reads that fail report their own problems; a start hands over all it received and tells the view of the reads and of every event it delivers; it fails iff the read is fatal or the view throws |
| BackendStart.BackendSession.Drain | src/runtime/start.ts:230-240 | the FIFO drain, with events emitted during it, ends live with exactly the uncovered events delivered in order, unless the view disposes or throws |
| BackendStart.BackendSession.Receive | src/runtime/start.ts:101-113 | an event is buffered before the session is live, delivered afterwards, and dropped after disposal |
| BackendStart.HandoffIsSeamless | src/runtime/start.ts:63-66 | a live session has brought the store to the state that committing every event would, if a revision stands for one value |
| BackendStart.DroppingIsHarmless | src/runtime/start.ts:63-66 | dropping covered events leaves the same state as committing them |
| BackendStart.UncoveredIsTheRest | src/runtime/start.ts:63-66 | exactly the covered events are dropped |
| Replication.BackendAgrees | src-tauri/src/application.rs:419-433 | and it does for what the backend publishes: reads and events of one revision have one value |
| Replication.StartFromBackend | src/runtime/start.ts:94-247 | a start that fetches its snapshot has read exactly what was published by then, and every empty cell becomes that or stays empty |
| Replication.StartFromReads | src/runtime/start.ts:145-203 | a start from reads of the backend, whole or one by one and each at its own time, brings every empty cell to what was read of it, and leaves it empty if its read failed |
| Replication.ReplicaEqualsCache | src/runtime/start.ts:63-66 | end to end, for whole snapshots and for single reads at different times: after the start, with events in whatever order and number, each cell whose latest publication was read or received equals the cache of the backend, also if its own read failed |
| BootMigration.Machine.Boot | src-tauri/src/state.rs:383-499 | one boot keeps what has to be brought about at every crash point; it comes up iff every effect that it comes to takes place, and then with the profile, the library, the archive and the credential that the fields of SQLite or of the legacy file prescribe |
| BootMigration.Launch | src-tauri/src/state.rs:258-499 | any number of interrupted boots and one full one give the credential, library and storage of a single boot, field by field; if no credential is owed, an empty vault is seeded by the last boot iff its look and its write take place; and the archive is the legacy configuration iff no boot stopped in the window before archiving or the one that did had nothing to add |
| BootMigration.Machine.Load | src-tauri/src/state.rs:258-334 | the one read: SQLite if authoritative, else the legacy file, else defaults, with default coordinates where there are none; fails iff a read fails or the legacy file that it needs is corrupt |
| BootMigration.Machine.ReconcileInterruptedUploads | src-tauri/src/composition.rs:5322-5450 | every live upload is cancelled, and interrupted entries are marked |
| BootMigration.Machine.BootstrapCredential | src-tauri/src/composition.rs:5901-5938 | an occupied vault is never overwritten, and no failure is fatal |
| BootMigration.Machine.MoveStore | src-tauri/src/state.rs:469-483 | scrub, migrate, archive: at every point one source holds the configuration and SQLite takes over only from a scrubbed file |
| BootMigration.CredentialIsSomewhere | src-tauri/src/state.rs:441-471 | the legacy credential is at all times in the vault or in the legacy file |
| BootMigration.LibraryIsSomewhere | src-tauri/src/state.rs:469-483 | the library is at all times in the legacy file or in SQLite |
| BootMigration.ArchiveIsTold | src-tauri/src/state.rs:469-483 | the archive over any number of boots: exactly one, and equal to the legacy configuration under the exact condition |
| BootMigration.MigratedAddsNothing | src-tauri/src/state.rs:301-418 | migrating leaves the configuration as it was iff the coordinates are set and no upload was interrupted |
| BootMigration.ArchiveDiffers | src-tauri/src/state.rs:469-483 | the concrete pair of boots whose archive is not the legacy configuration |
| BootMigration.ReconciledIsSame | src-tauri/src/composition.rs:5322-5450 | reconciling changes nothing that projecting the completions would not |
| BootMigration.WhoIsMarked | src-tauri/src/composition.rs:5322-5450 | an entry that was being uploaded is marked as interrupted unless its job has ended without being acknowledged or is of another revision; no other entry is touched |
| BootMigration.ReconciledOnce | src-tauri/src/composition.rs:5322-5450 | a second pass finds nothing to do |
| OperationRunner.Runner.Run | src/runtime/operations.ts:89-121 | joins the current request of the same intent iff there is one, and otherwise starts one that supersedes its scope |
| OperationRunner.Runner.Resolve | src/runtime/operations.ts:123-127 | the reply of a request commits iff it is still the newest of its scope, and otherwise leaves no trace |
| OperationRunner.Runner.ToastSuccess | src/runtime/operations.ts:128-130 | the success toast comes after the commit, whatever has started since |
| OperationRunner.CurrentUntil | src/runtime/operations.ts:95-108 | over every run an unsettled request stays current exactly until another intent of its scope is called for; calls for its own intent join it |
| OperationRunner.SupersededToast | src/runtime/operations.ts:123-141 | every toast was allowed by a look that found its request current; it is of a superseded request iff another intent of the scope was called for since that look, for successes and failures alike |
| OperationRunner.SupersededIsSilent | src/runtime/operations.ts:123-141 | of a request that is superseded when its reply or failure is looked at nothing more is ever seen, and nothing at all if it had not committed before |
| OperationRunner.ToldOverRuns | src/runtime/operations.ts:123-141 | over every run at most one commit and then at most one toast is seen of a request, and nothing before its reply is there |
| OperationRunner.SeenExactly | src/runtime/operations.ts:123-141 | a commit is seen iff its reply finds the request current, a toast iff the request may toast, and nothing else ever |
| OperationRunner.GoesOn | src/runtime/operations.ts:123-149 | a look brings a request to its toast or to its end, and a toast or an end lets it settle |
| OperationRunner.SupersededSuccess | src/runtime/operations.ts:127-130 | the concrete run in which a commit calls for another intent before the success toast |
| OperationRunner.SupersededFailure | src/runtime/operations.ts:135-140 | the concrete run in which a failure callback calls for another intent before the failure toast |
| OperationRunner.Runner.Reject | src/runtime/operations.ts:131-139 | a failure counts only for a request that is still the newest of its scope, and otherwise leaves no trace |
| OperationRunner.Runner.ToastFailure | src/runtime/operations.ts:135-140 | the failure toast comes after the callback of the caller, whatever has started since |
| OperationRunner.Runner.Finish | src/runtime/operations.ts:142-149 | clears exactly its own slot and count, and with the last request everything is empty |
| OperationRunner.LookKeepsOrder | src/runtime/operations.ts:123-127 | commits of a scope have strictly increasing sequence numbers |
| OperationRunner.StartKeepsSlots | src/runtime/operations.ts:91-121 | every unsettled current request is found by the lookup, and stays so when another one starts |
| OperationRunner.SettleKeepsSlots | src/runtime/operations.ts:142-149 | settling an old request never takes the slot of a newer one |
| OperationRunner.TallyUp | src/runtime/operations.ts:72-76 | a key's busy count is the number of its unsettled requests |
| OperationRunner.TallyDown | src/runtime/operations.ts:78-87 | and stays so when one settles |
| OperationRunner.NothingLeft | src/runtime/operations.ts:142-149 | with no request left, nothing is in flight or busy |
| Confirm.ConfirmController.Request | src/runtime/confirm.ts:47-125 | one click arms for the whole window under a fresh id if nothing is armed or the window is over, confirms what is armed inside it, and is ignored while the operation runs |
| Confirm.TwoClicks | src/runtime/confirm.ts:47-125 | of two clicks the second confirms what the first has armed iff it comes inside the window, and arms anew otherwise |
| Confirm.ConfirmController.Fire | src/runtime/confirm.ts:115-123 | a timer disarms the operation it was set for or nothing |
| Confirm.ConfirmController.Settle | src/runtime/reducer.ts:412-417 | a running phase ends only by the settle with its id |
| Confirm.ConfirmController.Clear | src/store.ts:120-129 | clears the armed confirmations under a prefix and leaves running ones |
| Confirm.ConfirmController.CommitRun | src/runtime/confirm.ts:103-106 | an operation is confirmed on the target it was armed for, inside its window, and for the first time |
| LibraryRoot.LibraryRootAuthority.AcquireSharedLease | src-tauri/src/media/library_root.rs:130-152 | granted iff no change is in progress and the root is what it was |
| LibraryRoot.LibraryRootAuthority.AcquireExclusiveLease | src-tauri/src/media/library_root.rs:159-182 | granted iff no lease of either kind is live |
| LibraryRoot.LibraryRootAuthority.InstallRoot | src-tauri/src/media/library_root.rs:195-203 | a new root under a larger generation, with no shared lease alive |
| LibraryRoot.LibraryRootAuthority.AssertCurrent | src-tauri/src/media/library_root.rs:205-237 | passes iff generation, identity and file system all agree |
| LibraryRoot.FenceOverRuns | src-tauri/src/media/library_root.rs:205-237 | over every run after a lease was granted: its fence passes iff no root was installed since and the file system shows what it was granted for |
| LibraryRoot.LiveFenceOverRuns | src-tauri/src/media/library_root.rs:130-237 | as long as a lease is live no root can have been installed, so its fence fails iff the directory changed outside the application |
| LibraryRoot.InstallsGrow | src-tauri/src/media/library_root.rs:195-203 | whatever happens between two installs, the later root has the larger generation |
| LibraryRoot.InstalledTwice | src-tauri/src/media/library_root.rs:159-203 | the run of a new authority in which one exclusive lease installs two roots |
| MediaLifecycle.StopIsFinal | src-tauri/src/media.rs:434-475 | after a stop that returns without an error no workers run, and later workers belong to a start called after it, whatever the order of recovery, gate and epochs |
| MediaLifecycle.IdleUntilStart | src-tauri/src/media.rs:434-475 | when nothing runs and no start is on its way, nothing runs until start is called, however stops and tasks interleave |
| MediaLifecycle.RunKeepsInv | src-tauri/src/media.rs:387-475 | the invariant of flag, epoch, gate and workers over every run |
| MediaLifecycle.MediaApplication.Start | src-tauri/src/media.rs:387-405 | the call is the three steps of the machine, or nothing if already started |
| MediaLifecycle.MediaApplication.RecoveryTask | src-tauri/src/media.rs:406-428 | workers are launched only for an epoch that is still current |
| MediaLifecycle.MediaApplication.Stop | src-tauri/src/media.rs:434-475 | the call is the steps of the machine, and succeeds iff the last stop stands or the port stops |
| MediaLifecycle.OverlapMatters | src-tauri/src/media.rs:387-475 | over all runs, however starts and stops overlap: once a stop returns without an error, workers run or can come up without another start iff they run already, or the flag is up and some start has no epoch yet or a task of the current one; after a stop that stopped the port none run |
| MediaLifecycle.MissedExactly | src-tauri/src/media.rs:444-475 | over all runs, workers can run under a stop that is taken to be complete, so that further stops leave them, iff they do already at its return, or the flag is up and some start had forgotten the last stop before this one was complete and is not outdated |
| MediaLifecycle.MissedHappens | src-tauri/src/media.rs:456-475 | the concrete run from the initial state in which a start between the last stores of a stop leaves workers that the next stop does not stop |
| MediaLifecycle.OverlapHappens | src-tauri/src/media.rs:434-448 | the concrete run from the initial state in which workers come up after a stop has returned |
| MediaPublication.MergeAllThenPublish | src-tauri/src/media/ports.rs:278-298 | publishing a merge of deltas shows what publishing them in turn shows, ties included |
| MediaPublication.FirstOfTheNewest | src-tauri/src/media.rs:780-868 | each slot ends with the first of the newest versions published to it |
| MediaPublication.ProjectionDelta.MergeIn | src-tauri/src/media/ports.rs:278-285 | takes over what is newer, and a tie keeps what is there |
| MediaPublication.MediaApplication.PublishDelta | src-tauri/src/media.rs:780-868 | a resource is replaced iff the delta has a newer version of it; what is accepted shares one fresh revision and is announced in order; nothing accepted changes nothing |
| MediaPublication.MediaApplication.StartImportBatch | src-tauri/src/media.rs:527-570 | one publish for the batch shows what one publish per effect would; one verdict per request, by what its effect and the published jobs say; a started job that is not shown fails the batch |
| Scheduler.DemoTransferState.StartTransfer | src-tauri/src/sim.rs:235-279 | starts at once iff fewer than three are under way, and else waits |
| Scheduler.DemoTransferState.RetryTransfer | src-tauri/src/sim.rs:291-337 | resumes exactly a failed row, with the bytes it had sent, at once iff fewer than three are under way |
| Scheduler.DemoTransferState.FinishTransfer | src-tauri/src/sim.rs:417-513 | ends one transfer and owes a drain; a failed row stays retryable |
| Scheduler.DemoTransferState.DrainOnce | src-tauri/src/sim.rs:557-597 | promotes the oldest waiting row, or ends iff there is no room or none waits |
| Scheduler.DemoTransferState.ProcessQueue | src-tauri/src/sim.rs:557-597 | terminates, full or with none waiting, having promoted the oldest rows |
| Scheduler.AtMostThree | src-tauri/src/sim.rs:235-597 | of any four transfers one is neither preparing nor running |
| Batch.ValidateCoverage | src/runtime/batch.ts:48-66 | accepts iff every distinct requested item is answered exactly once, and otherwise names the first thing that is wrong |
| Batch.CoversIsPermutation | src/runtime/batch.ts:48-66 | the accepted replies are exactly the permutations of the distinct items |
| Batch.UniqueInOrder | src/runtime/batch.ts:48-66 | the distinct items stand in the order of their first occurrences |
| Batch.ToBatchItems | src/runtime/batch.ts:70-81 | an accepted reply is branded item by item |
| Batch.ToDispatchItems | src/runtime/batch.ts:85-97 | a job comes from its own item's answer |
| BatchWorkflows.UniqueItems | src-tauri/src/application/workflows.rs:50-56 | each item once, at its first occurrence |
| BatchWorkflows.RemoveLibraryEntries | src-tauri/src/application/workflows.rs:667-797 | the reply covers the request on every branch, absent entries first, each in order; it tells whether the durable deletion took place (what that is worth for a directory left over from an earlier refusal is DeleteRuns.GoneForGood); it did iff something was there that nobody held and every effect took place that leads to the commit; a failure has taken no row and no directory other than those gone astray; the claim is given back |
| BatchWorkflows.WithoutInTwo | src-tauri/src/application/workflows.rs:745-760 | what stays of the library stays in its order |
| BatchWorkflows.RemovalIsAccepted | src-tauri/src/application/workflows.rs:667-797 | the client's coverage check accepts every such reply |
| BatchWorkflows.DeleteSessions | src-tauri/src/application/workflows.rs:285-390 | one verdict per distinct session on the demo and the device branch, each with its own reason, and what stays stays in order |
| BatchWorkflows.DownloadSessions | src-tauri/src/application/workflows.rs:877-907 | one verdict per distinct session, and a failure does not stop the rest |
| BatchWorkflows.AppData.ClaimLibraryDeleteKeys | src-tauri/src/state.rs:118-127 | claims all keys or none |
| PipelineBatch.NormalizePipelineBatchOutcome | src-tauri/src/media.rs:1181-1233 | one result per request in order; a verdict is kept iff the item was answered once; the batch fails iff an item was missed or repeated, or something else was answered |
| PipelineBatch.RequireProjections | src-tauri/src/media.rs:660-688 | a started pipeline that is not shown fails its item and the batch |

## Left out

- Deletion: one operation runs at a time, with a fresh id; its leftovers of earlier runs may be there. Two deletions staging at once are not modelled: the orphan scan of one would restore the other.
- Deletion: marker writes are atomic. A torn marker, which makes recovery report an error, is not modelled.
- Deletion: paths are taken as validated; symlink, path and file-system checks, and the removal of empty trash directories beyond whether it succeeds, are not modelled.
- SQLite, the object store, the keyring, discovery, HTTP and FFmpeg are represented by the effects of the calls only.
- LibraryDelete.RecoverPendingDeletes: ends before the pass over upload leases, which UploadReconcile.RecoverAtBoot adds; the counts of what was recovered are not reported.
- LibraryDelete.AppStore.RecordLibraryDeleteIntents: an intent is its operation, key and status; the paths and the expected revision, which a replay also compares, are not part of it.
- DeleteRuns.Session: operation ids are the smallest numbers beyond those in use, where the code draws random ones.
- UploadLeases.RunKeepsInv: a retry is a start whose job is new, and a start that meets a conflicting job is one that fails; the commands and the reaper are steps of one machine, not methods, because they run in different threads; the reaper's number of looks is not bounded.
- UploadReconcile.ReconcileUploadLeases: each upload command holds one lease, as the code takes them.
- Publication.PublishedResources.Publish: one method stands for the four publishers of identical shape; delivery to subscribers, serialization and its failures are left out.
- Convergence.Converges: leaves out the device list that the client builds itself under a revision of the backend.
- Reducer.AppStore.CommitSnapshot: the cells are one map from resource to cell; the branches of the user interface other than confirmations are left out.
- BackendStart.StartBackend: what awaits return, and what the view does when it is told of something, are parameters.
- BootMigration.Machine.ReconcileInterruptedUploads: an entry has at most one unacknowledged upload job, and claims of multipart uploads are left out.
- BootMigration.Launch: libraries are compared after projecting completions, and the names of archives are left out.
- OperationRunner.Runner.Run: a commit is seen when it begins; what the call itself and the callbacks do, and the text of toasts, are parameters; promises are request ids.
- Confirm.ConfirmController.Fire: timers fire at any time at all, early or late, which is more than a clock allows.
- LibraryRoot.LibraryRootAuthority.InstallRoot: generations are unbounded numbers, while the code's counter is 64 bits wide.
- MediaLifecycle.StopIsFinal: a recovery may still publish after a stop, because that publication is not gated.
- MediaPublication.MediaApplication.PublishDelta: the five slots are a total map, and event delivery is left out.
- Scheduler.DemoTransferState.FinishTransfer: when and how a transfer finishes is arbitrary; progress, speed, and the effects on devices and library are left out.
- BatchWorkflows.RemoveLibraryEntries: nothing else changes the in-memory library between its two critical sections, and the projected library in the reply is left out.
- Navigation and view guards repeat the fence of the operation runner in a simpler form and are left out; so are decoders, command adapters, views and themes.
