# Sky-Claw: verified models of its transactional and concurrent core

Sky-Claw automates the upkeep of a modded game installation. Its risky parts are the ones
that change files, share state between coroutines and agents, or decide what an LLM gets to
see. This project models those parts in Dafny and proves what they promise.

Each component has up to two modules. A *protocol* module gives the state, the atomic steps
and the theorems over whole runs; a *class* module has the same fields as the Python class,
and its methods are proved to perform exactly the steps of the protocol. Further modules state
over the actions of a run, and in numbers, what its steps do: which events are dispatched, who
is answered what, what a row says. A step is a stretch
of code without an `await`, one SQL statement, one file copy or one clock reading with the
statement it belongs to, unless a module says otherwise.

| modules | component |
|---|---|
| `SyncPipeline`, `SyncLookups`, `SyncEngine` | producer, workers, bounded queue and poison pills of `SyncEngine.run` |
| `Leases`, `Locks` | TTL leases in `resource_locks`, with the retry loop |
| `Snapshots`, `Retention` | file snapshots, restore with its temporary backup, the size limit |
| `Journal`, `Rollback`, `UndoHistory` | operation journal, unit of work and undo, as a stack over whole histories |
| `TransactionLocks`, `TransactionAtomicity`, `TransactionLeases` | `SnapshotTransactionLock`: lock, snapshots, rollback, release |
| `DeadLetters`, `DeadLetterAccounts`, `DeadLetterDelays`, `DeadLetterShortcuts`, `DeadLetterClaims`, `DeadLetterHistory`, `DeadLetterExamples`, `DlqManager` | dead letter queue: claim, retry with backoff, death, recovery, crashes |
| `BusProtocol`, `BusOrder`, `EventBus` | bounded dispatch of the event bus and its backpressure |
| `ResolverProtocol`, `PathResolver` | single-flight cache of resolved paths |
| `StateGraph`, `StateRoutes` | supervisor workflow: nodes, routing and edges |
| `LikeSearch` | escaping and matching of the mod search |
| `TelegramSender`, `RateProtocol` | message splitting and the per-chat rate limit |
| `Pruning`, `PruningPolicy` | pruning rules of the Tree-of-Thought engine |
| `TokenBudget`, `TokenBudgetManager` | summarising and truncating a conversation |
| `Folds`, `Sorting`, `Wrappers` | sums over sequences, a stable sort, optional values |

Where a promise fails in some case, a lemma named `When...` gives the exact condition under
which it holds, or a lemma shows a concrete failing run:

- a sync run with `worker_count` below one returns zero counters for a modlist that fits the queue;
- two journal rows with the same timestamp (the resolution is one second) make "last" ambiguous;
- a restore deletes a file that happens to be named like its temporary backup;
- the undo of an operation that created a file reports a deletion but deletes nothing;
- the rollback of a transaction loses a target named like the backup of an earlier target;
- the snapshot just taken can be evicted by the size limit;
- stale recovery of a row whose handler runs for over a minute breaks exclusion;
- a handler run for a row that was fetched before an earlier failure breaks the attempt count;
- with several workers a retry delay of over a minute can be cut short;
- a cleanup between two leases lets a stale clock reading record an overlap;
- a cancelled file operation is never undone, and neither is a failed creation;
- a lock object that is used again restores its targets to the bytes of the first snapshot that is still stored;
- a transaction that outlasts its lease can roll back over the work of the next holder;
- top-k can keep a node and mark it dead when the list names it more than once;
- a percentile of 1.0, which the configuration allows, indexes past the end;
- `messages_to_preserve` of zero preserves everything, since `-0` is the front of a list;
- a send at the very clock reading of the last recorded one, as for consecutive chunks of a message, can exceed the rate.

The documentation of `truncate_older_messages` and its log line promise that older messages
are dropped also when none are to be preserved; the model follows the code.

Assumptions that the theorems need are `requires` clauses of the lemmas: for undo, one agent,
distinct timestamps, an existing target that is the only file to change, no cancellation after
a change, fresh snapshot names and no eviction of a snapshot still needed (`UndoHistory.Clean`);
for the transaction lock, fresh names and no eviction during the transaction
(`TransactionAtomicity.GoodPlan`, `StillStored`).

`dafny verify dfyconfig.toml` checks the whole project.

## Model

| member | source | states |
|---|---|---|
| `SyncPipeline.ReturnedRunsAccount` | sky_claw/antigravity/orchestrator/sync_engine.py:622-664 | In every interleaving of the producer and one or more workers, a run that returns has handed out exactly the consecutive batches of the modlist, each once and in queue order, leaves an empty queue, and has as many outcomes as mods |
| `SyncPipeline.WhenReturnedRunsAccount` | sky_claw/antigravity/orchestrator/sync_engine.py:639-656 | The result of `run` can be trusted exactly when there is a worker, or no mod, or the modlist needs more batches than the queue holds; without workers any other run returns with zero counters |
| `SyncPipeline.ProducerAlone` | sky_claw/antigravity/orchestrator/sync_engine.py:631-656 | Without workers, a producer whose batches fit the queue does reach a normal return, and the counters never move |
| `SyncPipeline.CountersTally` | sky_claw/antigravity/orchestrator/sync_engine.py:779-819 | Each of the three counters of the result counts exactly the lookups that ended with its own outcome |
| `SyncPipeline.NextChunk` | sky_claw/antigravity/orchestrator/sync_engine.py:706-719 | A batch that reached its size, or the last one, is the next piece of the modlist cut into pieces of that size |
| `SyncPipeline.StepKeepsInv` | sky_claw/antigravity/orchestrator/sync_engine.py:631-756 | Every action of every asyncio task, failures and timeouts included, keeps: live workers equal pills queued plus pills to send, batches precede pills, and outcomes plus unsettled mods equal the mods handed out |
| `SyncPipeline.RunKeepsInv` | sky_claw/antigravity/orchestrator/sync_engine.py:622-664 | The invariant holds after any run |
| `SyncPipeline.RunsAreBounded` | sky_claw/antigravity/orchestrator/sync_engine.py:622-664 | A measure bounds the length of every run, however the tasks interleave and whatever fails |
| `SyncPipeline.NotStuck` | sky_claw/antigravity/orchestrator/sync_engine.py:631-656 | No reachable state is stuck before completion, even when the queue holds fewer items than there are pills |
| `SyncLookups.EachLookedUpOnce` | sky_claw/antigravity/orchestrator/sync_engine.py:758-819 | A run that returns has looked up each mod of the modlist exactly as often as it is listed |
| `SyncLookups.BatchesAreFull` | sky_claw/antigravity/orchestrator/sync_engine.py:706-719 | The batches of a returning run make up the modlist; all but the last have exactly `batch_size` mods, or one mod if that is not positive |
| `SyncLookups.HandedOutIsLookedUp` | sky_claw/antigravity/orchestrator/sync_engine.py:728-819 | At any point of any run what was handed out is looked up or still in the hands of a worker, mod by mod |
| `SyncLookups.ReturnsOnlyUnharmed` | sky_claw/antigravity/orchestrator/sync_engine.py:635-656 | `run` returns only if no producer failure, pill timeout or worker failure occurred, and then one pill was sent for each worker |
| `SyncLookups.WaitsOnlyWhenFull` | sky_claw/antigravity/orchestrator/sync_engine.py:706-719 | The producer waits with a due batch or a pill exactly while a bounded queue is full |
| `SyncEngine.SyncRun.Run` | sky_claw/antigravity/orchestrator/sync_engine.py:622-664 | Under an arbitrary scheduler without failures the pipeline ends, with every mod accounted for |
| `SyncEngine.SyncRun.Advance` | sky_claw/antigravity/orchestrator/sync_engine.py:622-664 | Some task can always go on; whichever does keeps the invariant and uses up work |
| `SyncEngine.SyncRun.Schedule` | sky_claw/antigravity/orchestrator/sync_engine.py:728-756 | Whatever task is resumed performs one action of the protocol |
| `SyncEngine.SyncRun.Read` | sky_claw/antigravity/orchestrator/sync_engine.py:706-708 | Reading a mod moves it from the modlist to the batch |
| `SyncEngine.SyncRun.Put` | sky_claw/antigravity/orchestrator/sync_engine.py:709-719 | A due batch goes to the back of the queue and an empty one is started |
| `SyncEngine.SyncRun.BeginPoison` | sky_claw/antigravity/orchestrator/sync_engine.py:635-639 | The pills are owed on success and on failure of the producer alike |
| `SyncEngine.SyncRun.SendPill` | sky_claw/antigravity/orchestrator/sync_engine.py:639-641 | One pill goes to the back of the queue |
| `SyncEngine.SyncRun.Get` | sky_claw/antigravity/orchestrator/sync_engine.py:728-737 | A worker takes the front of the queue: a pill ends it, a batch keeps it busy |
| `SyncEngine.SyncRun.SettleNext` | sky_claw/antigravity/orchestrator/sync_engine.py:779-819 | The next mod of the batch gets one outcome and one counter moves |
| `SyncEngine.SyncRun.FinishBatch` | sky_claw/antigravity/orchestrator/sync_engine.py:755-756 | The worker is free again |
| `SyncEngine.SyncResult.Record` | sky_claw/antigravity/orchestrator/sync_engine.py:783-819 | An outcome raises its own counter by one and no other |
| `Leases.LeaseExclusion` | sky_claw/antigravity/db/locks.py:105-123 | In every run of acquire, release and cleanup statements under one non-decreasing clock, a second grant of a resource runs strictly after the first lease expired, or after its holder or a forced release removed the row in between |
| `Leases.LeaseStays` | sky_claw/antigravity/db/locks.py:105-123 | Until it is given up, a granted lease keeps its own row for as long as it lasts, whatever the other agents do |
| `Leases.WhenRecordsAreDisjoint` | sky_claw/antigravity/db/locks.py:262-279 | For a lease that is not given up and not granted again in between, the next recorded lease starts after it ends, whatever clock reading it uses, if and only if no cleanup removed the expired row |
| `Leases.RowUntilCleanup` | sky_claw/antigravity/db/locks.py:405-417 | Such a lease keeps its own row exactly until a cleanup finds it expired |
| `Leases.RecordedLeasesDisjoint` | sky_claw/antigravity/db/locks.py:262-279 | The recorded intervals of any two grants are disjoint when the clock is read as the later statement runs, and those of two grants in a row also with a stale reading unless a cleanup came in between |
| `Leases.StaleReadRecordsOverlap` | sky_claw/antigravity/db/locks.py:262-279 | With a stale clock reading and a cleanup in between, the recorded interval of a new lease can overlap an older one |
| `Leases.AttemptsAreSteps` | sky_claw/antigravity/db/locks.py:257-314 | The retry loop changes the table as a list of protocol steps does |
| `Leases.AcquiredIsGranted` | sky_claw/antigravity/db/locks.py:257-314 | The lease that an acquisition returns is the one granted by the last of those steps, so the exclusion results speak of it |
| `Leases.LeaseCovers` | sky_claw/antigravity/db/locks.py:105-123 | Until a lease is given up or ends, nobody else is granted the resource and its row is there |
| `Leases.AcquireEffect` | sky_claw/antigravity/db/locks.py:105-113 | An acquisition takes a resource without a row or with an expired one until `ttl` after the reading; nothing else changes |
| `Leases.ReleaseEffect` | sky_claw/antigravity/db/locks.py:316-386 | A release removes exactly the row of its own agent, a forced one the row of anybody |
| `Leases.CleanupEffect` | sky_claw/antigravity/db/locks.py:405-417 | Exactly the rows that end before the reading go |
| `Leases.FirstChanceIsTaken` | sky_claw/antigravity/db/locks.py:257-314 | The first attempt that reaches the database and finds no unexpired row gets the lock, from its own clock reading; without one the lock is refused |
| `Leases.BackoffDoubles` | sky_claw/antigravity/db/locks.py:300-312 | The delay starts at the base, doubles with each attempt and is capped |
| `Locks.DistributedLockManager.AcquireLock` | sky_claw/antigravity/db/locks.py:257-314 | The first attempt that meets a free or expired row takes it; otherwise all attempts are used, with the capped exponential delays between them, and the lock is refused |
| `Locks.DistributedLockManager.Upsert` | sky_claw/antigravity/db/locks.py:105-113 | The row is written, and the row count positive, exactly when there is no unexpired row |
| `Locks.DistributedLockManager.Suspend` | sky_claw/antigravity/db/locks.py:309-312 | While one agent sleeps the table changes only by the steps of others |
| `Locks.DistributedLockManager.ReleaseLock` | sky_claw/antigravity/db/locks.py:316-364 | Only the row of this agent is deleted, and the result tells whether there was one; a failing statement is an error that changes nothing |
| `Locks.DistributedLockManager.ForceReleaseLock` | sky_claw/antigravity/db/locks.py:366-386 | The row goes, whoever holds it; a failing statement is an error that changes nothing |
| `Locks.DistributedLockManager.CleanupExpired` | sky_claw/antigravity/db/locks.py:405-417 | Exactly the expired rows go, and they are counted |
| `Snapshots.RestoreUndoes` | sky_claw/antigravity/db/snapshot_manager.py:294-333 | Restoring a snapshot undoes a change of its target exactly, if and only if no file has the name of the temporary backup that the restore would delete |
| `Snapshots.RejectedRestoreKeepsTarget` | sky_claw/antigravity/db/snapshot_manager.py:303-318 | A failed checksum leaves the target as it was if and only if the target existed; its temporary backup is gone then, and no other file is touched |
| `Snapshots.WhenRestoreFails` | sky_claw/antigravity/db/snapshot_manager.py:284-318 | A restore fails exactly for a missing copy, or for one whose checksum is known, to be verified and different; otherwise the target has the bytes of the copy |
| `Snapshots.SnapshotRoundTrip` | sky_claw/antigravity/db/snapshot_manager.py:149-336 | A snapshot that retention kept brings the bytes of its file back, to any target and whatever happened to the files, and leaves all other snapshots alone |
| `Snapshots.TamperingIsNoticed` | sky_claw/antigravity/db/snapshot_manager.py:303-318 | A copy whose bytes were changed is accepted if and only if the new bytes have the same checksum |
| `Snapshots.RestoreLosesNamesake` | sky_claw/antigravity/db/snapshot_manager.py:294-333 | An example of a file lost because it is named like the temporary backup |
| `Snapshots.FileSnapshotManager.CreateSnapshot` | sky_claw/antigravity/db/snapshot_manager.py:149-205 | The bytes and their checksum go under the new name, less a given set of evicted snapshots; a missing file is an error that changes nothing |
| `Snapshots.FileSnapshotManager.RestoreSnapshot` | sky_claw/antigravity/db/snapshot_manager.py:284-336 | All effects on the file system, for a missing snapshot, a mismatch with and without a previous target, and a success |
| `Journal.LastIsNewest` | sky_claw/antigravity/db/journal.py:762-798 | The query for the last operation must return the newest undoable row if and only if no other undoable row of the agent has its timestamp |
| `Journal.OperationJournal.GetLastOperation` | sky_claw/antigravity/db/journal.py:783-798 | Some completed or failed row of the agent with the latest timestamp, or none if there is no such row |
| `Journal.OperationJournal.Begin` | sky_claw/antigravity/db/journal.py:333-385 | A pending transaction is added and becomes the current one |
| `Journal.OperationJournal.CommitTransaction` | sky_claw/antigravity/db/journal.py:387-429 | Only a pending transaction commits; any other call is an error that changes nothing |
| `Journal.OperationJournal.BeginOperation` | sky_claw/antigravity/db/journal.py:534-608 | The row goes under the given or the current transaction; without either, or for an unknown one, nothing changes |
| `Journal.OperationJournal.UpdateStatus` | sky_claw/antigravity/db/journal.py:680-723 | Only the status of that row changes |
| `Rollback.RollbackManager.UndoLastOperation` | sky_claw/antigravity/db/rollback_manager.py:65-103 | The row that the journal answers is restored from its snapshot and marked, or nothing is marked if the restore fails |
| `Rollback.RollbackManager.ExecuteFileOperation` | sky_claw/antigravity/orchestrator/sync_engine.py:267-328 | The unit of work: transaction, snapshot, row, operation, status, and after an exception, but not after a cancellation, the undo of what the journal calls the last operation |
| `UndoHistory.UndoLogIsStack` | sky_claw/antigravity/orchestrator/sync_engine.py:274-322 | After any history of operations and undos of one agent the files are what a stack of file systems says |
| `UndoHistory.UndosRestore` | sky_claw/antigravity/db/rollback_manager.py:65-103 | k undos take the files back to what they were before the last k operations not yet undone |
| `UndoHistory.FailureRestores` | sky_claw/antigravity/orchestrator/sync_engine.py:305-322 | A failing operation leaves the files, and everything that can still be undone, as they were |
| `UndoHistory.SuccessPushes` | sky_claw/antigravity/orchestrator/sync_engine.py:296-303 | A successful operation becomes the next thing to undo, on top of all earlier ones |
| `UndoHistory.UndoPops` | sky_claw/antigravity/db/rollback_manager.py:84-103 | An undo restores the files of before the newest operation not yet undone and keeps all older ones undoable |
| `UndoHistory.AnswerIsTop` | sky_claw/antigravity/db/journal.py:783-798 | With distinct timestamps the query has one answer, the newest operation not yet undone |
| `UndoHistory.HistoryRefines` | sky_claw/antigravity/orchestrator/sync_engine.py:274-322 | Journal, snapshot store and files together refine the stack at every point of a history |
| `UndoHistory.UndoOfCreation` | sky_claw/antigravity/db/rollback_manager.py:84-102 | The undo of an operation on a missing target, and the automatic one after it failed, reports success and a deleted file but leaves all files as they are, which restores them only if the operation left no target |
| `UndoHistory.CancellationIsNotUndone` | sky_claw/antigravity/orchestrator/sync_engine.py:296-328 | A cancelled operation leaves what it did to the files and a row that the journal never answers as the last operation |
| `UndoHistory.CancelledKeeps` | sky_claw/antigravity/orchestrator/sync_engine.py:296-328 | A cancellation before any change leaves everything that can still be undone as it was |
| `UndoHistory.UndoNeedsSnapshot` | sky_claw/antigravity/db/rollback_manager.py:84-95 | An undo succeeds exactly when the snapshot is there and intact; without it nothing changes |
| `UndoHistory.RowTells` | sky_claw/antigravity/orchestrator/sync_engine.py:274-328 | The row of an operation names transaction, time, agent, kind, target and snapshot, and its status is completed, failed or started exactly as the operation returned, raised or was cancelled |
| `UndoHistory.WhenTransactionCloses` | sky_claw/antigravity/orchestrator/sync_engine.py:267-322 | The transaction of an operation is committed exactly if the operation returned, and stays pending and current otherwise |
| `UndoHistory.UndoReports` | sky_claw/antigravity/db/rollback_manager.py:65-103 | What an undo reports in each case, and that it marks exactly the row it answers with, and only if it succeeds |
| `UndoHistory.UndoTouchesOwn` | sky_claw/antigravity/db/rollback_manager.py:65-103 | An undo leaves the rows of other agents alone, and rows that are undone already or never ended |
| `UndoHistory.StoreAfter` | sky_claw/antigravity/orchestrator/sync_engine.py:281-328 | After an operation the store holds the snapshot of an existing target with its bytes and checksum, and what was there before, less what retention and pruning removed |
| `TransactionAtomicity.TransactionRollsBack` | sky_claw/antigravity/db/locks.py:531-562 | If the body raises, every target that existed on entry has its entry bytes again whatever the body wrote, duplicates included, and apart from the paths of temporary backups no other file is touched; with snapshots of earlier uses of the lock object, a target has its entry bytes exactly if they agree |
| `TransactionAtomicity.WhenReuseRestores` | sky_claw/antigravity/db/locks.py:543-549 | A lock object used again rolls back all its targets if and only if, for each of them, the first snapshot of its earlier uses that is still stored, if any, has the bytes of this entry (no earlier file being named so that a target is its backup) |
| `TransactionAtomicity.RestoredTo` | sky_claw/antigravity/db/locks.py:543-549 | The rollback leaves a file with the bytes of its first snapshot that is still stored, or untouched if there is none, unless a later restore uses its path as temporary backup |
| `TransactionAtomicity.Transact` | sky_claw/antigravity/db/locks.py:485-562 | Entry, body and exit composed on the lock object: it is entered exactly if the lease was acquired and no snapshot of an existing target fails; after an exception the rollback as above, for a first use of all targets; the files of the body otherwise; and the row of the agent gone after every exit and every failing snapshot, unless the release statement fails |
| `TransactionAtomicity.WhenRollbackRestores` | sky_claw/antigravity/db/locks.py:543-562 | For different targets no body can defeat the rollback if and only if a target named like the temporary backup of another one precedes it |
| `TransactionAtomicity.BackupsFirstRestores` | sky_claw/antigravity/db/locks.py:543-562 | The order condition is enough also for repeated targets |
| `TransactionAtomicity.RepetitionCanReplaceOrder` | sky_claw/antigravity/db/locks.py:543-562 | For repeated targets it is not needed: a list that violates it and that no body can defeat |
| `TransactionLeases.WhenExitIsCovered` | sky_claw/antigravity/db/locks.py:485-562 | In every legal log nobody else is granted the resource between entry and exit if and only if the exit comes by the expiry of the lease |
| `TransactionLeases.LateExitOverwrites` | sky_claw/antigravity/db/locks.py:521-562 | A later exit can run while another agent holds the resource, and its rollback then replaces what that agent wrote to a target |
| `TransactionAtomicity.OthersUntouched` | sky_claw/antigravity/db/locks.py:543-562 | The rollback touches only the targets and the paths of their temporary backups |
| `TransactionAtomicity.TakeAllKeeps` | sky_claw/antigravity/db/locks.py:494-513 | Entering snapshots exactly the existing targets, in order, with their bytes |
| `TransactionLocks.WhenEntered` | sky_claw/antigravity/db/locks.py:494-513 | Taking the snapshots succeeds if and only if none of an existing target fails; missing targets are skipped |
| `TransactionAtomicity.RestoreAllPaths` | sky_claw/antigravity/db/locks.py:543-549 | With the snapshots in place, the reverse walk writes the entry bytes of each target in turn |
| `TransactionLocks.SnapshotTransactionLock.Enter` | sky_claw/antigravity/db/locks.py:485-519 | Lock, then snapshots: it succeeds exactly if the lease was acquired and no snapshot of an existing target fails; a failing snapshot gives the lock back and a refused lock takes no snapshot |
| `TransactionLocks.SnapshotTransactionLock.Exit` | sky_claw/antigravity/db/locks.py:521-562 | Files change only after an exception, and then by the rollback; on every path exactly the row of this agent for this resource goes, unless the release statement itself fails |
| `TransactionLocks.SnapshotTransactionLock.SafeRelease` | sky_claw/antigravity/db/locks.py:564-577 | Only the row of this agent for this resource is affected, and a failing statement is swallowed |
| `Retention.SnapshotDirectory.EnforceSizeLimit` | sky_claw/antigravity/db/snapshot_manager.py:447-500 | Nothing goes within the limit; otherwise each removed directory has a day no later than that of every dated one left, what is left is at most 90% of the limit or has no dated directory, and one removal less would have been too few; the running size always equals the bytes really left |
| `Retention.SnapshotDirectory.RemoveOldest` | sky_claw/antigravity/db/snapshot_manager.py:480-492 | The removal loop stops at the first point where enough room is made |
| `Retention.NewestSurvives` | sky_claw/antigravity/db/snapshot_manager.py:453-492 | A directory with a later day than all others, as the one with the snapshot just taken, survives if and only if the total was within the limit or its bytes, with all those without a date, are at most 90% of it |
| `Retention.OldestFirstLists` | sky_claw/antigravity/db/snapshot_manager.py:466-478 | The order of removal names each dated directory once, in the order of the days, and no other directory |
| `Retention.RemovedInDayOrder` | sky_claw/antigravity/db/snapshot_manager.py:466-478 | Of two directories in the order of removal the first has the earlier or the same day |
| `Retention.CutInDays` | sky_claw/antigravity/db/snapshot_manager.py:480-492 | The shortest sufficient cut, in days and bytes: no dated directory left is older than a removed one, and the last removal was needed |
| `Retention.RemoveNext` | sky_claw/antigravity/db/snapshot_manager.py:480-492 | Removing the next directory frees exactly its bytes |
| `DeadLetterAccounts.EventsAccounted` | sky_claw/antigravity/core/dlq_manager.py:265-366 | One worker, with any crashes and stale recoveries: each enqueued event is delivered or has one row, its attempts are its failed handler runs, it is dead exactly when they reach the maximum, and in undisturbed runs in progress exactly while the worker holds it |
| `DeadLetterAccounts.WhenCountsStayExact` | sky_claw/antigravity/core/dlq_manager.py:311-341 | Any number of workers, crashes and recoveries: at the end of a run the attempts of a row are all failed handler runs of its event if and only if none of them ran for a row fetched before an earlier failure |
| `DeadLetterAccounts.RunKeepsInv` | sky_claw/antigravity/core/dlq_manager.py:265-366 | The single-worker invariant holds after any run |
| `DeadLetterAccounts.RunExact` | sky_claw/antigravity/core/dlq_manager.py:311-341 | From any state, a count that lags once never catches up |
| `DeadLetterHistory.EventsToldByRun` | sky_claw/antigravity/core/dlq_manager.py:265-366 | One worker, in terms of the actions of the run alone: an event has no row exactly if some handler run of it succeeded; its attempts are the handler runs that raised, never more than the maximum, and it is dead exactly at the maximum |
| `DeadLetterHistory.DeadInTime` | sky_claw/antigravity/core/dlq_manager.py:286-341 | In terms of the clock readings of the run: when an event is dead, all its delays have passed since its enqueueing |
| `DeadLetterHistory.StampsOf` | sky_claw/antigravity/core/dlq_manager.py:143-341 | After any run each row carries the time of its own enqueueing, and no time stamp is later than the last action |
| `DeadLetterHistory.HistoriesAre` | sky_claw/antigravity/core/dlq_manager.py:286-341 | The failed and successful handler runs that the accounts speak of are those of the actions of the run |
| `DeadLetterHistory.EnqueueEffect` | sky_claw/antigravity/core/dlq_manager.py:143-171 | An event starts pending, without attempts, and due after the base delay |
| `DeadLetterHistory.FetchEffect` | sky_claw/antigravity/core/dlq_manager.py:368-398 | A free worker gets due rows only, the longest due first, and no due row is missed below the limit |
| `DeadLetterHistory.ClaimEffect` | sky_claw/antigravity/core/dlq_manager.py:272-284 | A row is claimed, and stamped, exactly if it is still pending; otherwise only the batch advances |
| `DeadLetterHistory.SettleEffect` | sky_claw/antigravity/core/dlq_manager.py:286-345 | A missing handler costs a minute, a failure an attempt and base^attempts seconds or the life, a success the row |
| `DeadLetterHistory.RecoverEffect` | sky_claw/antigravity/core/dlq_manager.py:204-219 | Exactly the rows in progress for more than 60 000 ms become pending, due as before |
| `DeadLetterDelays.DeadNotBefore` | sky_claw/antigravity/core/dlq_manager.py:286-341 | Whatever crashes, is recovered at a worker start or has no handler, no event dies earlier than base + base + base^2 + ... + base^(max-1) seconds after it was enqueued; with several workers provided no retry delay exceeds the minute of a missing handler |
| `DeadLetterShortcuts.WhenDelaysAreKept` | sky_claw/antigravity/core/dlq_manager.py:286-341 | For a non-negative base, that holds in all runs if and only if there is at most one worker or no retry delay exceeds a minute |
| `DeadLetterShortcuts.EarlyDeath` | sky_claw/antigravity/core/dlq_manager.py:286-301 | A second worker with a stale row and no handler shortens a longer delay to a minute, and the event dies too early |
| `DeadLetterDelays.DelayBaseTwo` | sky_claw/antigravity/core/dlq_manager.py:437-439 | For base 2 those delays add up to 2^max seconds |
| `DeadLetterDelays.DefaultDelay` | sky_claw/antigravity/core/dlq_manager.py:437-439 | The defaults of five attempts and base 2 wait 32 seconds, for any number of workers |
| `DeadLetterClaims.NoDoubleDispatch` | sky_claw/antigravity/core/dlq_manager.py:272-284 | For any number of workers, as long as stale recovery meets no handler that has been running for over a minute, no two are ever between claim and settling of one row |
| `DeadLetterClaims.WhenRecoveryIsUnsafe` | sky_claw/antigravity/core/dlq_manager.py:204-219 | With two or more workers, a stale recovery can lead to two of them on one row if and only if some handler has been running for over a minute |
| `DeadLetterClaims.RunsExclusive` | sky_claw/antigravity/core/dlq_manager.py:265-366 | The claim discipline holds after any run in which recovery comes in time |
| `DeadLetterExamples.RecoveryBreaksExclusion` | sky_claw/antigravity/core/dlq_manager.py:204-219 | Stale recovery can hand a row to a second worker while the first still runs its handler |
| `DeadLetterExamples.StaleFetchLosesFailure` | sky_claw/antigravity/core/dlq_manager.py:311-341 | Two workers that fetched the same row count two failed runs as one |
| `DlqManager.DLQManager.Run` | sky_claw/antigravity/core/dlq_manager.py:236-366 | Any interleaving of publishers, workers, recoveries and crashes on the table is a run of the protocol, so the results about runs hold of it |
| `DlqManager.DLQManager.EnqueueEvent` | sky_claw/antigravity/core/dlq_manager.py:143-171 | A fresh pending row with no attempts and its first delay |
| `DlqManager.DLQManager.ClaimNext` | sky_claw/antigravity/core/dlq_manager.py:272-284 | The next fetched row is claimed, and only then changed, exactly when it is still pending |
| `DlqManager.DLQManager.SettleCurrent` | sky_claw/antigravity/core/dlq_manager.py:286-345 | Missing handler, failure below and at the maximum, and success |
| `DlqManager.DLQManager.MarkDead` | sky_claw/antigravity/core/dlq_manager.py:353-366 | The row is dead with the given attempts, or those it was fetched with |
| `DlqManager.DLQManager.RecoverStaleRows` | sky_claw/antigravity/core/dlq_manager.py:204-219 | Exactly the rows in progress for over a minute become pending again |
| `BusProtocol.BusConserves` | sky_claw/antigravity/core/event_bus.py:163-252 | In every interleaving at most 50 subscriber tasks and 50 saving tasks exist, and every delivery owed is handled, persisted, lost or in flight, exactly once |
| `BusProtocol.OwedIsMatched` | sky_claw/antigravity/core/event_bus.py:165-190 | What is owed is, for each event dispatched, one delivery for each subscription that matches at that moment |
| `BusProtocol.DispatchDeals` | sky_claw/antigravity/core/event_bus.py:172-208 | One dispatch gives the first matching subscriptions a task, the next a saving task, and loses the rest |
| `BusProtocol.WhenStepLoses` | sky_claw/antigravity/core/event_bus.py:174-252 | A step loses a delivery if and only if both task sets are too full for the matches, or a handler raises without a dead letter queue, or a write to it fails |
| `BusProtocol.WhenNothingIsLost` | sky_claw/antigravity/core/event_bus.py:163-252 | A whole run loses nothing if and only if none of its steps does |
| `BusProtocol.StepBalances` | sky_claw/antigravity/core/event_bus.py:163-252 | Every action keeps the balance and both bounds |
| `BusOrder.FirstInFirstOut` | sky_claw/antigravity/core/event_bus.py:157-170 | In every run the events published are those dispatched followed by those still queued, in order |
| `BusOrder.SubscriptionsInForce` | sky_claw/antigravity/core/event_bus.py:141-155 | The subscriptions in force are those added, less the first equal one for each removal |
| `BusOrder.RemovesFirst` | sky_claw/antigravity/core/event_bus.py:151-155 | A removal takes out the first equal subscription, or nothing |
| `BusOrder.QueueIsBounded` | sky_claw/antigravity/core/event_bus.py:157-161 | A bounded queue never exceeds its size, and a publisher waits exactly while it is full |
| `BusOrder.MatchesInOrder` | sky_claw/antigravity/core/event_bus.py:170-173 | An event is owed one delivery for each matching subscription, in the order of the subscriptions |
| `BusOrder.DispatchInFull` | sky_claw/antigravity/core/event_bus.py:172-208 | One dispatch fills up 50 subscriber tasks, then 50 saving tasks, with the matches in order, and loses the rest |
| `BusOrder.HistoryIsWhatHappened` | sky_claw/antigravity/core/event_bus.py:210-252 | Handled are exactly the deliveries whose subscriber returned, persisted those whose write succeeded |
| `BusOrder.TasksEnd` | sky_claw/antigravity/core/event_bus.py:193-252 | Once nothing more is dispatched, the tasks need at most 300 steps, and when none of them can go on both task sets are empty |
| `EventBus.CoreEventBus.Run` | sky_claw/antigravity/core/event_bus.py:157-252 | Whatever the event loop schedules on a fresh bus: events leave the queue in the order of their publication, the subscriptions are those in force, both task sets stay within 50, every delivery owed to a matching subscription is handled, persisted, lost or in flight, handled and persisted as the run says, and nothing is lost if and only if no step was lossy |
| `EventBus.CoreEventBus.DropSubscription` | sky_claw/antigravity/core/event_bus.py:151-155 | The first equal subscription goes, if any |
| `EventBus.CoreEventBus.DispatchNext` | sky_claw/antigravity/core/event_bus.py:165-191 | The front of the queue is dealt out to all subscriptions in one turn |
| `EventBus.CoreEventBus.Deliver` | sky_claw/antigravity/core/event_bus.py:172-190 | One subscription gets a task, a saving task, or a logged loss |
| `EventBus.CoreEventBus.ScheduleBackpressureDrop` | sky_claw/antigravity/core/event_bus.py:193-208 | A saving task is added unless there are 50; then the delivery is lost |
| `EventBus.CoreEventBus.HandlerEnds` | sky_claw/antigravity/core/event_bus.py:230-245 | A subscriber that returns is done; one that raises goes on to the dead letter queue if there is one |
| `EventBus.CoreEventBus.EnqueueEnds` | sky_claw/antigravity/core/event_bus.py:210-252 | A write to the dead letter queue persists the delivery or loses it |
| `ResolverProtocol.SingleFlight` | sky_claw/antigravity/core/async_path_resolver.py:103-163 | Over all interleavings at most one coroutine resolves a key at a time, and then the key is not cached |
| `ResolverProtocol.OneSuccessPerKey` | sky_claw/antigravity/core/async_path_resolver.py:159-163 | A key is resolved successfully at most once, and that success is what is cached |
| `ResolverProtocol.CallersAgree` | sky_claw/antigravity/core/async_path_resolver.py:105-163 | A caller gets what the thread of one call of its own key yielded in this run, or was cancelled itself while waiting; all paths handed out for a key are the one cached, which a thread yielded for that key |
| `ResolverProtocol.FailuresNotCached` | sky_claw/antigravity/core/async_path_resolver.py:131-160 | Whatever is cached for a key was yielded as a success by the thread of a call of that key in this run |
| `ResolverProtocol.NobodyHangs` | sky_claw/antigravity/core/async_path_resolver.py:121-162 | A future is completed once, and each waiter can wake or has an owner still at work |
| `ResolverProtocol.RunKeepsInv` | sky_claw/antigravity/core/async_path_resolver.py:105-163 | Cache and in-flight map stay disjoint and agree with the futures after any run |
| `ResolverProtocol.CallsEnd` | sky_claw/antigravity/core/async_path_resolver.py:103-163 | While a call has not ended, it or the owner it waits for has a next step, and no run is longer than four steps for each call |
| `ResolverProtocol.RunsAreBounded` | sky_claw/antigravity/core/async_path_resolver.py:103-163 | No call takes more than four steps |
| `ResolverProtocol.RunOrigins` | sky_claw/antigravity/core/async_path_resolver.py:121-163 | Every result that a future holds was yielded in the run by the thread of a call of its key |
| `PathResolver.AsyncPathResolver.Run` | sky_claw/antigravity/core/async_path_resolver.py:103-163 | Whatever the event loop schedules on a fresh resolver, cache and in-flight map stay disjoint, every cached or answered path was yielded for its key by a thread in the schedule, and so was every answer to a caller not cancelled itself |
| `PathResolver.AsyncPathResolver.FirstSection` | sky_claw/antigravity/core/async_path_resolver.py:105-119 | Hit, join or own, decided and recorded in one section |
| `PathResolver.AsyncPathResolver.LastSection` | sky_claw/antigravity/core/async_path_resolver.py:141-163 | A success is cached, the key leaves the in-flight map, the future is completed |
| `PathResolver.AsyncPathResolver.Resume` | sky_claw/antigravity/core/async_path_resolver.py:121-122 | A waiter gets the outcome of the shielded future, or its own cancellation leaves the future alone |
| `StateGraph.RunBounds` | sky_claw/antigravity/orchestrator/state_graph.py:552-776 | From the initial state, under any updates by callbacks and events, no transition is ever blocked, ROLLING_BACK is entered at most once and ERROR at most four times |
| `StateGraph.BoundsAreReached` | sky_claw/antigravity/orchestrator/state_graph.py:740-776 | There is a run that reaches both bounds |
| `StateGraph.FatalIsAbsorbing` | sky_claw/antigravity/orchestrator/state_graph.py:468-479 | A visit of ERROR_FATAL is the last of its run |
| `StateGraph.RunRemembers` | sky_claw/antigravity/orchestrator/state_graph.py:446-479 | The error count and the rollback flag record the entries so far |
| `StateGraph.VisitRemembers` | sky_claw/antigravity/orchestrator/state_graph.py:446-479 | One more visit keeps that record right |
| `StateGraph.RoutesAreValid` | sky_claw/antigravity/orchestrator/state_graph.py:132-191 | Every route is the end, a self-loop of IDLE or HITL_WAIT, or a declared transition |
| `StateGraph.NodeEffect` | sky_claw/antigravity/orchestrator/state_graph.py:372-541 | Only ERROR raises the error count; only ROLLING_BACK sets and only ERROR_FATAL clears the rollback flag |
| `StateGraph.RouteEffect` | sky_claw/antigravity/orchestrator/state_graph.py:552-776 | After three errors ERROR leads only to ROLLING_BACK, which is never entered with the flag set; only ROLLING_BACK leads to ERROR_FATAL |
| `StateRoutes.OnlyApprovalDispatches` | sky_claw/antigravity/orchestrator/state_graph.py:664-715 | In every run a wait for a human is followed by a dispatch if and only if the answer was an approval, and by completion if and only if it was a refusal or an unknown answer; a timeout is an error |
| `StateRoutes.DispatchHasCause` | sky_claw/antigravity/orchestrator/state_graph.py:563-715 | In every run a dispatch follows a tool request, an approval, or an analysis that found a tool and asked neither for a patch nor for a human |
| `StateRoutes.RollbackHasCause` | sky_claw/antigravity/orchestrator/state_graph.py:617-759 | In every run a rollback is the first, and follows an error in patching or LOD generation, or an ERROR with a transaction to roll back |
| `StateRoutes.HitlRoutes` | sky_claw/antigravity/orchestrator/state_graph.py:664-715 | The route from HITL_WAIT for every answer, start and clock: approval, refusal, timeout, and 300 s without an answer |
| `StateRoutes.IdleRoutes` | sky_claw/antigravity/orchestrator/state_graph.py:563-578 | The route from IDLE for every event |
| `StateRoutes.WatchingRoutes` | sky_claw/antigravity/orchestrator/state_graph.py:581-590 | The route from WATCHING for every event |
| `StateRoutes.AnalyzingRoutes` | sky_claw/antigravity/orchestrator/state_graph.py:593-614 | The route from ANALYZING for every combination of error, tool, patch and human |
| `StateRoutes.DispatchingRoutes` | sky_claw/antigravity/orchestrator/state_graph.py:718-737 | The route from DISPATCHING: a loop goes to the human also after an error |
| `StateRoutes.WorkRoutes` | sky_claw/antigravity/orchestrator/state_graph.py:617-661 | The routes from PATCHING and GENERATING_LODS |
| `StateRoutes.ErrorRoutes` | sky_claw/antigravity/orchestrator/state_graph.py:740-759 | The route from ERROR: a rollback if there is one to do, the end after three errors, IDLE otherwise |
| `StateRoutes.RollingBackRoutes` | sky_claw/antigravity/orchestrator/state_graph.py:762-776 | A rollback ends in IDLE exactly if it succeeded |
| `StateRoutes.DeclaredEdges` | sky_claw/antigravity/orchestrator/state_graph.py:132-191 | The table of transitions, read by target |
| `StateRoutes.NodesWrite` | sky_claw/antigravity/orchestrator/state_graph.py:372-541 | What each node writes: a completed event is consumed and a wait is timed from its start |
| `LikeSearch.EscapingIsPerCharacter` | sky_claw/antigravity/db/async_registry.py:367 | The three replacements in their order equal the escaping of each character by itself |
| `LikeSearch.SearchIsExact` | sky_claw/antigravity/db/async_registry.py:367-371 | The query pattern matches a name if and only if the raw term occurs in it, up to ASCII case |
| `LikeSearch.SearchFinds` | sky_claw/antigravity/db/async_registry.py:365-383 | A mod is found exactly when its name contains the term, as often as it is listed |
| `LikeSearch.EmptyTermFindsAll` | sky_claw/antigravity/db/async_registry.py:367-383 | The empty term finds every mod, in order |
| `LikeSearch.EscapedPrefix` | sky_claw/antigravity/db/async_registry.py:367-371 | An escaped term before a final wildcard matches exactly the names that start with the term |
| `LikeSearch.FloatingMatch` | sky_claw/antigravity/db/async_registry.py:370 | A leading wildcard looks for the rest at every position |
| `LikeSearch.PlainPattern` | sky_claw/antigravity/db/async_registry.py:367-371 | Without wildcards of variable length a pattern fixes every letter up to case, except at its `_` |
| `LikeSearch.SameLetterMeans` | sky_claw/antigravity/db/async_registry.py:369-370 | Letters agree if they are equal or the two cases of one ASCII letter |
| `LikeSearch.UnescapedIsNotExact` | sky_claw/antigravity/db/async_registry.py:367-371 | Without the escaping, `_` and `%` find a name that contains neither |
| `TelegramSender.SplitMessage` | sky_claw/antigravity/comms/telegram_sender.py:134-157 | The loop ends on every text and yields its chunks |
| `TelegramSender.SplitReassembles` | sky_claw/antigravity/comms/telegram_sender.py:134-157 | The text is the chunks in order with nothing but runs of newlines between them, each chunk but the last is full or ends at a newline, and each fits |
| `TelegramSender.ChunksFit` | sky_claw/antigravity/comms/telegram_sender.py:139-157 | Every chunk fits the limit and only the first can be empty or start with a newline |
| `TelegramSender.SplitFits` | sky_claw/antigravity/comms/telegram_sender.py:134-157 | With the default limit each chunk has at most 4096 characters, and a text is one chunk exactly if it has at most 4096 |
| `TelegramSender.CutsAtNewline` | sky_claw/antigravity/comms/telegram_sender.py:149-152 | A cut is at the last newline within the limit, or at the limit if there is none |
| `TelegramSender.WhenFirstChunkEmpty` | sky_claw/antigravity/comms/telegram_sender.py:139-155 | The first chunk is empty if and only if the text is empty, or is longer than the limit, starts with a newline and has no other within the limit |
| `TelegramSender.TelegramSender.Send` | sky_claw/antigravity/comms/telegram_sender.py:75-82 | What was delivered is a prefix of the chunks, each of at most 4096 characters, all of them unless a post failed, and each delivery is recorded for the rate limit; a text of at most 4096 characters goes out whole |
| `TelegramSender.TelegramSender.SendChunk` | sky_claw/antigravity/comms/telegram_sender.py:98-107 | A post is recorded only when the API took it |
| `TelegramSender.TelegramSender.WaitForRateLimit` | sky_claw/antigravity/comms/telegram_sender.py:109-125 | The deque loses exactly its leading entries older than a minute; the wait is what the limiter sleeps for |
| `TelegramSender.TelegramSender.RecordSend` | sky_claw/antigravity/comms/telegram_sender.py:127-131 | The time is appended for that chat only |
| `RateProtocol.RateIsLimited` | sky_claw/antigravity/comms/telegram_sender.py:77-131 | Over a whole run of sequential sends with a strictly increasing clock, or with one that does not go back if every send is ready, every half-open 60 s hold at most the limit of sends of a chat that the API took; with a limit below one it takes none |
| `RateProtocol.WhenRateIsKept` | sky_claw/antigravity/comms/telegram_sender.py:109-131 | With a clock that does not go back, no time at which the API may take any send of the run puts too many in a window if and only if each send finds the oldest remembered time equal to that of the send `rate_limit` entries back, or fewer entries |
| `RateProtocol.WhenSendKeepsRate` | sky_claw/antigravity/comms/telegram_sender.py:109-125 | The same for one send, as a test on the pruned deque |
| `RateProtocol.StrictClockIsReady` | sky_claw/antigravity/comms/telegram_sender.py:115-131 | A clock that strictly increases between sends makes every send ready |
| `RateProtocol.PrunedFits` | sky_claw/antigravity/comms/telegram_sender.py:117-121 | Only a reading equal to the last recorded time can leave more than `rate_limit` entries after pruning |
| `RateProtocol.StepKeepsInv` | sky_claw/antigravity/comms/telegram_sender.py:109-131 | A ready send and the one `rate_limit` sends later stay a minute apart for every chat, and what is forgotten is over a minute old |
| `RateProtocol.WaitIsBounded` | sky_claw/antigravity/comms/telegram_sender.py:121-125 | With a limit of at least one the wait never raises and is at most a minute |
| `RateProtocol.WaitIsLeast` | sky_claw/antigravity/comms/telegram_sender.py:109-125 | No wait is longer than needed: a send taken any earlier would be one more than the limit within 60 s |
| `RateProtocol.HistoryIsPosts` | sky_claw/antigravity/comms/telegram_sender.py:98-131 | What is recorded for a chat is exactly what the API took, in order |
| `RateProtocol.NothingIsSent` | sky_claw/antigravity/comms/telegram_sender.py:121-122 | With a limit below one the first wait indexes an empty deque, so no send is recorded |
| `RateProtocol.EqualReadingsExceedRate` | sky_claw/antigravity/comms/telegram_sender.py:116-131 | A run whose last send is not ready: two sends in one instant with a limit of one |
| `Pruning.DecideSplits` | sky_claw/antigravity/reasoning/engine.py:95-166 | The live nodes, as a multiset, are the kept and the newly dead ones, and no rule keeps a node that scores below a dropped one |
| `Pruning.BestOfKeepsBest` | sky_claw/antigravity/reasoning/engine.py:131-144 | Top-k keeps min(k, n) nodes, none of them scoring below a pruned one |
| `Pruning.TiesKeepOrder` | sky_claw/antigravity/reasoning/engine.py:136-138 | Among nodes of equal score top-k keeps the earlier ones |
| `Pruning.TopShareKeepsTop` | sky_claw/antigravity/reasoning/engine.py:146-166 | For a percentile below one the index is in range and at least n - floor(p n) nodes stay, every maximum among them, all above every dropped node |
| `Pruning.BarIsFair` | sky_claw/antigravity/reasoning/engine.py:151-164 | The threshold is the score of a node and at most `index` nodes lie below it |
| `Pruning.WhenDecideFails` | sky_claw/antigravity/reasoning/engine.py:151-154 | Pruning raises IndexError if and only if the method is the percentile, the percentile is 1.0, and two or more nodes are alive |
| `Pruning.WhenNothingIsKept` | sky_claw/antigravity/reasoning/engine.py:120-166 | Pruning empties a non-empty list if and only if a fixed threshold is above every score |
| `Pruning.KeptIsNotDropped` | sky_claw/antigravity/reasoning/engine.py:140-144 | In a list without repeated references no kept node is marked as a dead end |
| `Pruning.WhenKeptAndDropped` | sky_claw/antigravity/reasoning/engine.py:131-144 | Top-k keeps a node and marks it dead if and only if the list names it on both sides of the cut among the nodes of equal score |
| `Pruning.CutAmongTies` | sky_claw/antigravity/reasoning/engine.py:136-138 | Of the nodes of equal score top-k keeps the first ones: as many as fit behind the better nodes |
| `Pruning.RepeatedNodeIsBoth` | sky_claw/antigravity/reasoning/engine.py:131-144 | A list of k + 1 references to one node is such a case |
| `Pruning.ScoreCutsAreClean` | sky_claw/antigravity/reasoning/engine.py:120-129 | The rules that cut by score never keep and mark the same node, even in a list with repeated references |
| `Pruning.ThresholdKeeps` | sky_claw/antigravity/reasoning/engine.py:120-129 | A fixed threshold keeps exactly the nodes that reach it, as often as listed and in list order |
| `Pruning.TopKKeeps` | sky_claw/antigravity/reasoning/engine.py:131-144 | Top-k keeps a list of at most k as it is, and otherwise k nodes, best first, none scoring below a dropped one |
| `Pruning.PercentileKeeps` | sky_claw/antigravity/reasoning/engine.py:146-166 | A node stays if and only if more than floor(p n) of the n nodes, itself included, score no higher; the kept nodes are in list order |
| `Pruning.WhenBarIsReached` | sky_claw/antigravity/reasoning/engine.py:151-164 | A score reaches the one at the cut index exactly when more scores than the index are no higher |
| `PruningPolicy.PruningPolicy.Apply` | sky_claw/antigravity/reasoning/engine.py:95-118 | The result is what the configured rule keeps of the live nodes; of all listed nodes exactly the dropped ones become dead ends, and an IndexError changes none |
| `PruningPolicy.PruningPolicy.DropBelow` | sky_claw/antigravity/reasoning/engine.py:120-129 | One pass over the list keeps and marks by score |
| `PruningPolicy.PruningPolicy.ApplyTopK` | sky_claw/antigravity/reasoning/engine.py:131-144 | A list of at most k nodes is kept as it is; otherwise the tail of the sorted list is marked |
| `PruningPolicy.PruningPolicy.ApplyPercentile` | sky_claw/antigravity/reasoning/engine.py:146-166 | The threshold is taken from the sorted scores, and the list is cut there |
| `PruningPolicy.PruningPolicy.AliveNodes` | sky_claw/antigravity/reasoning/engine.py:108-109 | The nodes not yet marked, in list order |
| `PruningPolicy.AliveInOrder` | sky_claw/antigravity/reasoning/engine.py:108-109 | The live nodes keep their order and repetitions |
| `TokenBudget.ConversationKeepsContext` | sky_claw/antigravity/agent/token_budget.py:194-299 | Over a whole conversation, however summarising and truncating are interleaved with new messages, no system message is lost or moved and the last N other messages of the full transcript are there unchanged (N at least 1) |
| `TokenBudget.SummarizeParts` | sky_claw/antigravity/agent/token_budget.py:220-268 | A summarised list is the system messages in order, the summary, then the preserved messages |
| `TokenBudget.TruncateParts` | sky_claw/antigravity/agent/token_budget.py:280-299 | A truncated list is the system messages in order, then the preserved messages |
| `TokenBudget.WhenTruncationKeepsWindow` | sky_claw/antigravity/agent/token_budget.py:288-299 | Truncation leaves exactly the system messages and the last N others if and only if N is at least 1 or a negative slice happens to be empty; for N = 0 it keeps everything |
| `TokenBudget.WhenTruncateIsIdempotent` | sky_claw/antigravity/agent/token_budget.py:280-299 | Truncating twice is truncating once if and only if N is not negative or no other message is left |
| `TokenBudget.WhenSummarizeIsIdempotent` | sky_claw/antigravity/agent/token_budget.py:213-268 | Summarising twice is summarising once if and only if N is at least 1 or the call returns the list unchanged |
| `TokenBudget.SummaryNamesEach` | sky_claw/antigravity/agent/token_budget.py:233-246 | As long as the summary is not capped, each message that leaves the window has its line in it, behind those of all earlier ones |
| `TokenBudget.TruncationNeverRaises` | sky_claw/antigravity/agent/token_budget.py:280-299 | Truncation never raises the token estimate |
| `TokenBudget.SummaryIsBounded` | sky_claw/antigravity/agent/token_budget.py:233-268 | Summarising leaves at most system + recent + (floor(0.6 max_context) + 24) / 4 tokens |
| `TokenBudget.EstimateTokens` | sky_claw/antigravity/agent/token_budget.py:106-114 | Only the empty text is free; a text of four characters or more costs a quarter of its length rounded down, a shorter one a single token |
| `TokenBudget.TokensOfOneMore` | sky_claw/antigravity/agent/token_budget.py:116-130 | One more message adds the estimate of its text or of its text parts; other content is free |
| `TokenBudget.SystemsAre` | sky_claw/antigravity/agent/token_budget.py:220-227 | The system messages are those with that role, the others all the rest, in order and with repetitions |
| `TokenBudget.WhenSummarizeChanges` | sky_claw/antigravity/agent/token_budget.py:213-231 | Summarising changes a list if and only if it is enabled, the list is longer than N + 1, and more than N messages are not system messages |
| `TokenBudget.LineShows` | sky_claw/antigravity/agent/token_budget.py:239-246 | A line names the role and shows the text up to 200 characters, with an ellipsis behind a longer one |
| `TokenBudget.EachHasItsLine` | sky_claw/antigravity/agent/token_budget.py:233-246 | There is one line for each message that leaves the window, and the two slices make up the conversation |
| `TokenBudget.CapIsRounded` | sky_claw/antigravity/agent/token_budget.py:250-251 | The cap is 0.6 characters for each token of the context, rounded toward zero |
| `TokenBudget.CappedShows` | sky_claw/antigravity/agent/token_budget.py:248-253 | A summary beyond the cap is cut there and says so |
| `TokenBudgetManager.TokenBudgetManager.EstimateMessagesTokens` | sky_claw/antigravity/agent/token_budget.py:116-130 | The sum of the estimates of all text contents and text parts |
| `TokenBudgetManager.TokenBudgetManager.Separate` | sky_claw/antigravity/agent/token_budget.py:220-227 | The system messages and the others, each in order |
| `TokenBudgetManager.TokenBudgetManager.SummarizeOlderMessages` | sky_claw/antigravity/agent/token_budget.py:213-268 | The summarised list, with the summarisation counted unless the list is returned unchanged |
| `TokenBudgetManager.TokenBudgetManager.TruncateOlderMessages` | sky_claw/antigravity/agent/token_budget.py:280-299 | The truncated list |

## Left out

- UndoHistory.UndoLogIsStack: one agent with distinct timestamps and clean operations; interleaved agents and operations on targets that do not exist are outside the refinement (`Journal.LastIsNewest` and `UndoHistory.UndoOfCreation` say what happens at the edges).
- UndoHistory.UndosRestore: same assumptions as `UndoLogIsStack`.
- DeadLetterAccounts.EventsAccounted: exact counts are for one worker, because the attempt count is taken from the fetched row; `WhenCountsStayExact` gives the condition for several. A handler run that a crash cuts off counts as no failure.
- DeadLetterShortcuts.WhenDelaysAreKept: a negative backoff base is left out of the equivalence; `DeadNotBefore` covers it.
- DeadLetters: a batch of due rows is any answer that the query may give; an error of a statement inside the retry loop is a crash of the worker, without the pause after it.
- Rollback.RollbackManager.ExecuteFileOperation: journal writes that fail around the operation are left out.
- Snapshots.FileSnapshotManager.CreateSnapshot: which snapshots the size limit evicts is a parameter; `Retention` models the policy on directories.
- TelegramSender.SplitMessage: the limit of 4096 is the default of a parameter; the results hold for every limit of at least one.
- RateProtocol.RateIsLimited: sends are sequential; several coroutines sending to one chat at once are not modelled.
- Pruning.TopShareKeepsTop: `int(n * p)` is exact arithmetic over reals; a product of floats that rounds up to the next integer is not modelled.
- TokenBudget.SummaryIsBounded: `max_context * 4.0 * 0.15` is exact arithmetic; float rounding of the cap is not modelled.
- Retention.SnapshotDirectory.EnforceSizeLimit: 90% of the limit is exact arithmetic; a directory that cannot be removed raises in the code and is not modelled.
- SQLite, WAL and connection handling: statements are atomic steps. A statement that fails is modelled for lock acquisition and release and for writes to the dead letter queue by the bus; elsewhere database errors are left out.
- SHA-256 is an arbitrary function of the bytes; I/O errors in the middle of a copy are left out, as are directories in place of files.
- Cancellation in the middle of `SnapshotTransactionLock.__aenter__` or of the last section of `resolve_safe`: the code makes no guarantee there.
- `CoreEventBus.stop` and publishing to a stopped bus; a subscriber task cancelled by shutdown; the handler index. The queue of the bus is modelled, shutdown is not.
- The branch of `_consume` that counts a whole batch as failed (lines 740-754): the registry calls after the lookups raise only database errors, which abort the run, and network errors of lookups are caught one by one.
- `SyncResult.errors`, metrics and log rows; update checks and downloads of the sync engine; the rows written by the registry.
- `_passive_pruning` appears as the set of snapshots it removes; `cleanup_old_snapshots` is not modelled on its own.
- Resolved paths are what a thread yields; `pathlib` is not modelled.
- `fnmatch` is an arbitrary predicate on topic and pattern.
- `_execute_fallback` of the state graph, the bounded transition history, `previous_state`, and the text that routing from HITL_WAIT writes to `last_error`. Termination is not claimed: IDLE loops on itself without an event.
- `check_budget` thresholds, session reports and the caller that chooses between summarising and truncating.
- Role values other than text, and message keys besides role and content: a message is its role and its content.
- The search strategies of the Tree-of-Thought engine, cycle detection and the circuit breakers: smaller state machines that would add easy members.
- HTTP, the Telegram API, LLM providers, keyring, configuration files, subprocesses and the user interface.
