# A verified model of the SimpleDB engine

This project models the transactional storage engine of a small SQL database server, its B-tree
index, its table scans and update statements, and the text form of its views, and proves properties
of them in Dafny. `dafny verify dfyconfig.toml` checks all of it.

The engine is a steal/force, undo-only write-ahead-logging protocol under block-level strict
two-phase locking. `Engine.dfy` is that protocol as a machine of atomic steps: log records, page
writes and evictions, locks, commit and rollback in several steps each, a crash at any point, and a
recovery that can crash itself. `CrashSafety.dfy` has the main results about every run of it.
`Transactions.dfy` and `TransactionCode.dfy` are the classes whose methods take those steps in the
order the code takes them, so that the results about runs are results about the code's loops:
`TransactionCode.RestartAndRecover` is the restart of a server after any crash.

| files | what they model |
|---|---|
| Storage, Locks, History | blocks, pages and typed fields; lock states; reads, writes and serial replay |
| Engine, EngineInvariant, EngineSteps, EngineRecovery, CrashSafety | the step machine, its invariant, and what follows for all runs |
| Transactions, TransactionCode | the server with its pool and log, and a transaction's methods, commit, rollback and recovery |
| LockManager | the lock table's counts and a transaction's lock map, changed in place |
| BufferPool, PoolRefinement | buffers, the pool with its search loops, and the lists of pinned buffers, as a cache that nobody can see; its runs as runs of the engine's pool steps |
| Bytes, LogBytes, LogRecords, RecoveryScans | integers and strings in bytes, the log file packed right to left, its iterator, the records' layouts, and the scans of rollback and recovery over those bytes |
| LeafTree, LeafIndex | B-tree leaves, splits and overflow chains as values, and the index as a bag of entries |
| DirectoryPages, DirectoryTree | directory pages with their stale slots, searches, splits, and a root that grows by a level |
| HandedUp | searches after a page below the root was split and its entry handed past the root |
| IndexDirectory | an index as its leaf file and its directory pages, and runs of insertions into it |
| BTreePages, BTreeLeaves, BTreeDirectories, BTreeIndex | the same as pages changed in place, up to an index over its two files |
| QueryText, ViewRoundTrip, LetterCase, QueryParser | queries as text and tokens, the round trip, upper and lower case, and the tokenizer, lexer, parser and printer |
| Tables, Statements, IndexUpdates | record slots in blocks, scans, update statements under their own scan, and index maintenance |
| Joins, ScanTrees | products in any order, selection and projection, the index join, and the nested product scans that a plan opens |

The pool and the log appear twice: `Transactions.dfy` has a map and a sequence, which is what the
protocol needs, and `BufferPool.dfy` and `LogBytes.dfy` have the buffers and the bytes.
`PoolRefinement.EngineOverBuffers` and `RecoveryScans.RecoverFromBytes` connect them.

## What is not as documented

* `FindChildBlock` reads the slot after the found one without looking at the record count
  (src/index/btree/btree_directory.cpp:58), so a search can go astray. As long as no page below the
  root has split, `DirectoryTree.SearchIff` says exactly when. There are two families: the default key
  0 of never-used slots, above separators that are all negative; and the key that is left over in the
  root's third slot by `MakeNewRoot`, which is the last separator if a page is full at five entries or
  fewer (`GrownSearchIff`). A lookup that goes astray finds nothing (`IndexDirectory.AstrayFinds`).
  `ZeroLost` and `LastLost` are runs of three insertions after which an inserted entry is not found.
* `BTreeDirectory::Insert` hands the entry of a split child past its parent without inserting it
  (src/index/btree/btree_directory.cpp:34-38), although its comment says that it is inserted. The
  model does the same. `HandedUp.InsertSearchIff` says exactly which searches are right after any
  insertion into a root over two pages.
  * When the lower page splits, the whole upper page is lost to searches, but for the third slot's
    key if that slot happens to name the right page (`LowerSplitIff`); `UpperPageLost` is an input.
  * When the upper page splits, its keys are found, but for the default key 0 and the third slot's
    key (`UpperSplitIff`). Here the default key is a third family: between a negative first separator
    of the upper page and a positive split key, the root sends the key 0 to the former root, whose
    free slot sends it back, and `Search` never ends. `UpperEndlessIff` and `LowerEndlessIff` say
    exactly when a search does not end, and `ZeroGoesRound` is an input.
* `ProductScan` ignores the result of its first `Next` (src/query/product_scan.cpp:14). If its left
  side is empty, it goes on as if it were not, and the same query can have rows or none, depending on
  the order of the product (`ScanTrees.EmptyLeftMisread`). `ScanTrees.ReadsRowsIff` is the exact
  condition under which the scans opened from a plan give its rows.
* A view whose predicate has a string constant is not read back as it was stored, because strings
  are printed without quotes (src/query/constant.h:83-96). `ViewRoundTrip.RoundTripIff` is the exact
  condition, and `StringReadAsField` an example.
* An index keeps up with an INSERT only if its field is named exactly once in the statement
  (`IndexUpdates.InsertAgreesIff`, `NamedTwiceDisagrees`).

## Model

| member | source | states |
|---|---|---|
| `CrashSafety.StepKeeps` | src/txn/recovery/recovery_manager.cpp:27-88 | one engine step, whichever it is, keeps the whole invariant: log accounting, lock meaning, who may have dirty pages, what each location holds |
| `CrashSafety.RunKeeps` | src/txn/recovery/recovery_manager.cpp:27-88 | every run of steps, of any length and interleaving, keeps it |
| `CrashSafety.ReachableOk` | src/txn/recovery/recovery_manager.cpp:17-88 | it holds in every state reachable from a new database, with any crashes and restarts in between |
| `CrashSafety.CrashAnywhere` | src/txn/recovery/recovery_manager.cpp:40-88 | in every reachable state, a crash now and a recovery would leave every location with its value from the transactions whose COMMIT records are durable; the crash may be inside recovery |
| `CrashSafety.AnyMoment` | src/server/simpledb.cpp:20-41 | in every reachable state, during recovery too, a crash can come and then a restart; they leave the disk, the durable log and the commits as they are |
| `CrashSafety.InterruptedRecoveries` | src/txn/recovery/recovery_manager.cpp:40-45 | undo is idempotent: after any number of recoveries that were cut short, at any step, a recovery gives every location the value that the first would have given |
| `CrashSafety.RecoveryCommitsNothing` | src/txn/recovery/recovery_manager.cpp:73-88 | until the database opens, no step of recovery and no crash in it adds or takes back a commit |
| `CrashSafety.RecoveryCompletes` | src/txn/recovery/recovery_manager.cpp:40-45 | when recovery hands over to clients, disk and memory are that committed database everywhere |
| `CrashSafety.Serializable` | src/txn/concurrency/concurrency_manager.cpp:7-27 | in every reachable state the committed transactions, replayed alone in commit order, read exactly what they read in the run |
| `CrashSafety.ReadsAreClean` | src/txn/transaction.cpp:30-48 | a value read by an active transaction is its own last write or the committed value, never another transaction's unfinished change |
| `CrashSafety.PersistCommits` | src/txn/recovery/recovery_manager.cpp:27-31 | a transaction is committed at the moment its COMMIT record becomes durable, and by no other record |
| `CrashSafety.OthersCommitNothing` | src/txn/recovery/recovery_manager.cpp:27-45 | no other step adds or takes back a commit |
| `CrashSafety.WriteAhead` | src/buffer/buffer.cpp:18-24 | whenever a location on disk differs from the committed value, the value to put back is in a durable record after the last checkpoint |
| `CrashSafety.NoEarlyChange` | src/buffer/buffer.cpp:18-24 | a running transaction's change is not on disk while its first log record for the location is not |
| `CrashSafety.ForcedAtCommit` | src/txn/recovery/recovery_manager.cpp:27-31 | when a COMMIT record becomes durable, every change of its transaction is in the blocks on disk |
| `CrashSafety.UnlockedIsCommitted` | src/txn/concurrency/concurrency_manager.cpp:22-27 | a location whose block nobody has locked exclusively is the committed one, on disk and in memory |
| `CrashSafety.RollbackRestores` | src/txn/recovery/recovery_manager.cpp:33-38 | when the ROLLBACK record may be written, each location the transaction logged has its value from before the transaction's first write, on disk too |
| `CrashSafety.FirstIsEarliest` | src/txn/recovery/recovery_manager.cpp:59-71 | the record that rollback ends with for a location is the transaction's earliest one |
| `CrashSafety.UndoTouchesOwn` | src/txn/recovery/recovery_manager.cpp:59-71 | an undo step changes nothing outside the blocks its transaction has locked, however the records interleave |
| `CrashSafety.UndoNeverWaits` | src/txn/recovery/set_int_record.cpp:31-35 | the exclusive lock that an undo asks for is held already |
| `CrashSafety.OneProcessSinceCheckpoint` | src/txn/transaction.h:153-157 | although ids restart at 1 in each process, all change and end records after the last durable checkpoint come from one process |
| `CrashSafety.FirstId` | src/txn/transaction.h:153-157 | the first transaction of each process has the id 1; after a crash it is the one that recovers |
| `CrashSafety.FreshId` | src/txn/transaction.h:153-157 | a new id is above every id on a record since the checkpoint |
| `CrashSafety.LocksExclude` | src/txn/concurrency/lock_table.cpp:16-26 | in every reachable state an exclusive lock is the only lock on its block and its count is -1 |
| `EngineRecovery.AlwaysRecoverable` | src/txn/recovery/recovery_manager.cpp:73-88 | in every mode, running or recovering, a backward scan of the durable log would restore every location |
| `EngineRecovery.StepCrash` | src/server/simpledb.cpp:20-41 | losing the memory and the log tail at any moment leaves a recoverable disk |
| `EngineRecovery.StepRestart` | src/server/simpledb.cpp:20-41 | a new process over that disk starts in a sound state with its own ids |
| `EngineRecovery.StepScanOne` | src/txn/recovery/recovery_manager.cpp:73-88 | one turn of the recovery loop keeps the promise that the rest of the scan will restore everything |
| `EngineRecovery.StepLogCheckpoint` | src/txn/recovery/recovery_manager.cpp:40-45 | the CHECKPOINT record is written only when all that recovery changed is on disk |
| `EngineSteps.StepLogOld` | src/txn/recovery/recovery_manager.cpp:47-57 | logging an old value keeps the invariant for every transaction and location |
| `EngineSteps.StepChangePage` | src/txn/transaction.cpp:50-64 | changing the page after its record keeps it |
| `EngineSteps.StepWritePage` | src/buffer/buffer.cpp:18-24 | writing a dirty page early, under its LSN rule, keeps it |
| `EngineSteps.StepEvict` | src/buffer/buffer.cpp:11-16 | giving up a clean page keeps it |
| `EngineSteps.StepUndoOne` | src/txn/recovery/recovery_manager.cpp:59-71 | one turn of the rollback loop keeps it |
| `EngineSteps.StepPersistRunning` | src/log/log_manager.cpp:63-66 | one more durable record, a COMMIT included, keeps it |
| `EngineSteps.StepRelease` | src/txn/concurrency/concurrency_manager.cpp:22-27 | releasing a lock after the end record is durable keeps it |
| `Transactions.Database.WriteFrame` | src/buffer/buffer.cpp:18-24 | the log goes out before the page, and no view or commit changes |
| `Transactions.Database.FlushAll` | src/buffer/buffer_manager.cpp:25-32 | exactly the transaction's dirty pages become clean |
| `Transactions.Database.Pin` | src/buffer/buffer_manager.cpp:62-78 | succeeds exactly when the block is in the pool, a buffer is free or some block is unpinned; then the block is in the pool, which never has more blocks than buffers, and nothing that clients can see changes |
| `Transactions.Database.FlushLog` | src/log/log_manager.cpp:21-25 | the records up to the LSN are durable and the pending commits are done |
| `Transactions.PersistWill` | src/log/log_manager.cpp:63-66 | writing a log record out moves a pending commit to the done ones and changes their order in no way |
| `Transactions.UnpinUndoesPin` | src/txn/buffer_list.cpp:15-34 | an unpin right after a pin gives back the same pin lists, so an undo leaves every block as pinned as it was |
| `TransactionCode.Transaction.constructor` | src/txn/transaction.h:153-157 | a new transaction has an id that no running one has, and has done nothing; no page, lock or pin changes |
| `TransactionCode.Transaction.SharedLock` | src/txn/concurrency/concurrency_manager.cpp:7-12 | granted exactly when no other transaction has the block exclusively; then it is held at least shared, and a refusal changes nothing |
| `TransactionCode.Transaction.ExclusiveLock` | src/txn/concurrency/concurrency_manager.cpp:14-20 | granted exactly when no other transaction has any lock on the block; a refusal leaves the shared lock that came first, if that was granted |
| `TransactionCode.Transaction.GetVal` | src/txn/transaction.cpp:30-48 | refused exactly when another transaction has the block exclusively, otherwise an error exactly when it is not pinned; the value is memory's, the committed one overlaid with the own writes; just this block is locked, at least shared, and no exclusive lock changes |
| `TransactionCode.Transaction.SetVal` | src/txn/transaction.cpp:50-80 | refused exactly when another transaction has any lock on the block, otherwise an error exactly when it is not pinned; one record with the old value is logged and one location changes, under the exclusive lock; a failure changes no value, and a refusal leaves at most the shared lock |
| `TransactionCode.Transaction.Commit` | src/txn/transaction.cpp:11-16 | the transaction is the last of the committed ones, its changes are on disk, and its locks and pins are gone, and no others |
| `TransactionCode.Transaction.Rollback` | src/txn/transaction.cpp:18-23 | nothing of the transaction is left: its locations are the committed ones on disk and in memory, no commit is added, one ROLLBACK record is logged, and the other transactions keep their pins and locks; it fails exactly when a block to put a value back in is not in the pool and the pool has no room |
| `TransactionCode.Transaction.DoRollback` | src/txn/recovery/recovery_manager.cpp:59-71 | the loop ends with every one of the transaction's records undone, or fails exactly when one of their blocks is not in the pool and the pool has no room |
| `TransactionCode.Transaction.Undo` | src/txn/recovery/set_int_record.cpp:31-35 | pin, put the old value back and unpin; the undone location has the old value |
| `TransactionCode.Transaction.DoRecover` | src/txn/recovery/recovery_manager.cpp:73-88 | the loop ends at the last checkpoint or the start of the log with every unfinished change undone, or fails exactly for want of a buffer |
| `TransactionCode.Transaction.Recover` | src/txn/transaction.cpp:25-28 | afterwards disk and memory are the committed database and clients may start, with one CHECKPOINT record more; it fails exactly for want of a buffer |
| `TransactionCode.RestartAndRecover` | src/server/simpledb.cpp:22-30 | a server over the disk and the durable log of any crash: with a buffer in its pool its recovery succeeds, and disk and memory are the database committed at the crash |
| `TransactionCode.ReadInTurn` | src/txn/transaction.cpp:30-48 | a pinned block that nobody has exclusively is read by two transactions in turn, and both get the committed value |
| `TransactionCode.ReadThenWrite` | test/transaction_test.cpp:24-34 | a transaction alone on a pinned block reads and then writes it: the shared lock is upgraded |
| `TransactionCode.NeitherWrites` | src/txn/concurrency/concurrency_manager.cpp:14-20 | two readers of a block refuse each other the write, whoever asks first, and no lock, value or record changes |
| `Locks.ShareKeepsMeaning` | src/txn/concurrency/lock_table.cpp:4-14 | after a shared lock every count still says who holds what |
| `Locks.UpgradeKeepsMeaning` | src/txn/concurrency/lock_table.cpp:16-26 | the test on a count of at most one is enough for an upgrade, because the caller holds a lock |
| `Locks.UnlockKeepsMeaning` | src/txn/concurrency/lock_table.cpp:28-37 | after an unlock every count still says who holds what |
| `Locks.ExclusiveAlone` | src/txn/concurrency/lock_table.cpp:45-51 | the holder of an exclusive lock is the only holder |
| `LockManager.LockTable.SharedLock` | src/txn/concurrency/lock_table.cpp:4-14 | granted exactly when the count is not negative, with the meaning of all counts kept |
| `LockManager.LockTable.ExclusiveLock` | src/txn/concurrency/lock_table.cpp:16-26 | granted exactly when the caller is the block's only holder |
| `LockManager.LockTable.Unlock` | src/txn/concurrency/lock_table.cpp:28-37 | one holder less, and an entry disappears with its last holder |
| `LockManager.AloneIffCount` | src/txn/concurrency/lock_table.cpp:49-51 | a count of at most one means, for a holder, that it is alone |
| `LockManager.FreeIffCount` | src/txn/concurrency/lock_table.cpp:45-47 | a count is not negative exactly when nobody holds the block exclusively |
| `LockManager.ConcurrencyManager.SharedLock` | src/txn/concurrency/concurrency_manager.cpp:7-12 | granted exactly when the transaction has a lock or nobody holds the block exclusively; the others keep theirs |
| `LockManager.ConcurrencyManager.ExclusiveLock` | src/txn/concurrency/concurrency_manager.cpp:14-20 | granted exactly when no other transaction holds any lock on the block; a refusal may leave a shared lock |
| `LockManager.ConcurrencyManager.Release` | src/txn/concurrency/concurrency_manager.cpp:22-27 | the transaction holds nothing and the others keep all of theirs |
| `BufferPool.FlushKeepsView` | src/buffer/buffer.cpp:18-24 | writing a buffer out changes no block as seen through the pool, and a clean buffer equals its block |
| `BufferPool.AssignKeepsView` | src/buffer/buffer.cpp:11-16 | giving a clean buffer to another block changes no view and puts no block in two buffers |
| `BufferPool.PinsMove` | src/txn/buffer_list.cpp:15-34 | a buffer's pin count stays the sum of the lists' counts when both move |
| `BufferPool.PinsAssigned` | src/buffer/buffer_manager.cpp:62-78 | a reassigned buffer keeps that sum right because nobody had it pinned |
| `BufferPool.UnpinnedUpdate` | src/buffer/buffer_manager.cpp:34-41 | the number of unpinned buffers moves exactly with a buffer's count reaching or leaving zero |
| `BufferPool.ChangeSound` | src/txn/transaction.cpp:50-64 | a change in a pinned page shows in the view of that block alone |
| `BufferPool.ReassignSound` | src/buffer/buffer.cpp:11-16 | write out, read in: the pool stays sound and every view as it was |
| `BufferPool.ReleaseKeepsView` | src/txn/buffer_list.cpp:36-43 | releasing pins changes no view |
| `BufferPool.Buffer.SetModified` | src/buffer/buffer.cpp:4-9 | owner and LSN are noted; a negative LSN keeps the old one |
| `BufferPool.Buffer.Flush` | src/buffer/buffer.cpp:18-24 | a dirty page goes to its block after the log has reached its LSN; a clean one goes nowhere |
| `BufferPool.Buffer.AssignToBlock` | src/buffer/buffer.cpp:11-16 | the old page is saved, the new one equals its block, and the LSN of the former page stays |
| `BufferPool.BufferManager.constructor` | src/buffer/buffer_manager.cpp:11-18 | an empty pool shows the disk and all buffers are available |
| `BufferPool.BufferManager.Available` | src/buffer/buffer_manager.cpp:20-23 | the stored number is the number of unpinned buffers |
| `BufferPool.BufferManager.FindExistingBuffer` | src/buffer/buffer_manager.cpp:80-89 | the first buffer with the block, if any |
| `BufferPool.BufferManager.ChooseUnpinnedBuffer` | src/buffer/buffer_manager.cpp:91-99 | an unpinned buffer, or none exists |
| `BufferPool.BufferManager.Change` | src/txn/transaction.cpp:50-64 | one field of one block changes in the view, nothing else |
| `BufferPool.BufferList.Pin` | src/txn/buffer_list.cpp:15-25 | the list's entry names the one buffer of the block with the right count; a failure changes nothing |
| `BufferPool.BufferList.Unpin` | src/txn/buffer_list.cpp:27-34 | the entry goes with its last pin; a block that is not there is an error |
| `BufferPool.BufferList.UnpinAll` | src/txn/buffer_list.cpp:36-43 | no pin of the list is left, those of the others are, and nothing but pin counts changes |
| `BufferPool.BufferList.OthersLeaveIt` | src/txn/buffer_list.cpp:7-13 | whatever the pool does for others, a pinned block stays in the buffer the list knows |
| `BufferPool.BufferList.GetVal` | src/txn/transaction.cpp:30-38 | a read through a pinned buffer is a read of the flat store |
| `BufferPool.BufferList.SetVal` | src/txn/transaction.cpp:50-64 | a write through a pinned buffer is a write to the flat store at that place only |
| `BufferPool.BufferManager.FlushAll` | src/buffer/buffer_manager.cpp:25-32 | exactly the transaction's buffers become clean, by a run of write-outs of just these in order, which fixes the final disk; no view changes |
| `BufferPool.BufferManager.Unpin` | src/buffer/buffer_manager.cpp:34-41 | one pin less for one list, which is a run of one pin count; no view changes; the invariant is kept |
| `BufferPool.BufferManager.TryToPin` | src/buffer/buffer_manager.cpp:62-78 | null exactly when no buffer has the block and none is unpinned; otherwise a run of at most a reassignment and a pin count, after which the buffer shows the block as seen before; no view changes |
| `PoolRefinement.FlushIsWork` | src/buffer/buffer.cpp:18-24 | writing a buffer out is a run of the engine: the log page if the LSN is not saved, then the page |
| `PoolRefinement.AssignIsWork` | src/buffer/buffer.cpp:11-16 | giving a buffer to another block is a run of the engine: the old page goes out and is given up, and the block is fetched under the old LSN |
| `PoolRefinement.ChangeIsModify` | src/buffer/buffer.cpp:4-9 | a change of a pinned page with its SetModified is the engine's change of the page |
| `PoolRefinement.RunIsWork` | src/buffer/buffer_manager.cpp:25-99 | every run of write-outs, reassignments and pin counts is a run of the engine's pool steps, with the same cache and disk, no value in memory changed and nothing newly committed |
| `PoolRefinement.JoinedRun` | src/buffer/buffer_manager.cpp:25-99 | every run of engine steps and pool operations over one set of buffers keeps buffers and engine coupled: page changes go to both, and a run of the engine has led to its state |
| `PoolRefinement.EngineOverBuffers` | src/buffer/buffer_manager.cpp:25-99 | every run of transactions, recoveries and crashes over the buffers, with any pool work in between, is a run of the engine from a new database, and a read through the buffers is the engine's memory |
| `Bytes.IntRoundTrip` | src/file/page.cpp:12-21 | a 32-bit integer is read back from its four bytes, negative ones too |
| `LogBytes.PutAdds` | src/log/log_manager.cpp:33-53 | putting a record before the boundary adds it to the records that the block's bytes hold, and harms none |
| `LogBytes.ClearedEmpty` | src/log/log_manager.cpp:55-61 | setting the boundary alone empties a block, whatever its other bytes are |
| `LogBytes.FileSnoc` | src/log/log_manager.cpp:55-61 | the records of a file are those of its blocks in order |
| `LogBytes.LogManager.constructor` | src/log/log_manager.cpp:8-19 | a new or existing file gives exactly its records as the log |
| `LogBytes.LogManager.Append` | src/log/log_manager.cpp:33-53 | the log grows by this record and the LSN by one; the page is written out and a new block begun exactly when the record does not fit in the page |
| `LogBytes.LogManager.Flush` | src/log/log_manager.cpp:21-25 | records up to the LSN are on disk; the log itself is unchanged |
| `LogBytes.LogManager.WritePage` | src/log/log_manager.cpp:63-66 | the disk has the whole log |
| `LogBytes.LogManager.AppendNewBlock` | src/log/log_manager.cpp:55-61 | the file has one more block, empty |
| `LogBytes.LogManager.DiskIsPrefix` | src/log/log_manager.cpp:63-66 | the disk always has a prefix of the log, short by the records above the saved LSN |
| `LogBytes.LogManager.Iterator` | src/log/log_manager.cpp:27-31 | an iterator starts with the whole log ahead, all of it on disk |
| `LogBytes.LogIterator.Next` | src/log/log_iterator.cpp:11-20 | the newest record not yet returned, across blocks |
| `LogBytes.LogIterator.HasNext` | src/log/log_iterator.h:29-31 | true exactly when records are left |
| `LogBytes.LogIterator.Undisturbed` | src/log/log_iterator.cpp:4-9 | later appends and flushes do not change what an iterator has still to return |
| `LogBytes.ReadBackwards` | src/log/log_iterator.cpp:11-25 | draining an iterator gives the appended records in exactly reverse order, then no more |
| `LogRecords.RecordRoundTrip` | src/txn/recovery/log_record.cpp:15-33 | each kind of record is read back from its bytes as itself |
| `LogRecords.SetValRoundTrip` | src/txn/recovery/set_int_record.cpp:10-21 | transaction, file, block, offset and old value are read back from where they were written, for integers and strings |
| `LogRecords.WriteSetVal` | src/txn/recovery/set_int_record.cpp:37-56 | the writer fills exactly the bytes of the record, field after field |
| `LogRecords.WriteToLog` | src/txn/recovery/set_string_record.cpp:38-58 | appending the bytes of a record, of whichever kind, appends the record to the sequence that the log file stands for |
| `LogRecords.NeverWritten` | src/file/file_manager.cpp:33-44 | a field that was never written reads as zeroed bytes do: the integer 0 or the empty string |
| `LogRecords.RecordLayout` | src/txn/recovery/set_string_record.cpp:38-58 | the words of each kind of record, its type number first, lie one behind the other |
| `RecoveryScans.ScanForRollback` | src/txn/recovery/recovery_manager.cpp:59-71 | the loop over the log's bytes, newest first, collects exactly what rollback puts back, in order |
| `RecoveryScans.ScanForRecovery` | src/txn/recovery/recovery_manager.cpp:73-88 | the same for recovery, with the growing set of finished transactions and the stop at a checkpoint |
| `RecoveryScans.UndosCommit` | src/txn/recovery/recovery_manager.cpp:59-71 | putting these values back gives each location that the transaction logged its committed value and changes no other, on any store |
| `RecoveryScans.RepairsCommit` | src/txn/recovery/recovery_manager.cpp:73-88 | for every reachable state, putting back what recovery finds in the durable records gives the committed database |
| `RecoveryScans.RecoverFromBytes` | src/txn/recovery/recovery_manager.cpp:73-88 | from the bytes of the log file and the disk that any crash leaves, the recovery scan repairs the disk to the committed database |
| `BTreePages.FullIff` | src/index/btree/btree_page.h:42-44 | the test on byte positions is a test on record counts, and a full page is within its block |
| `BTreePages.BTreePage.FindSlotBefore` | src/index/btree/btree_page.cpp:4-10 | the last slot before all keys that are not smaller |
| `BTreePages.BTreePage.IsFull` | src/index/btree/btree_page.h:42-44 | true exactly from the full count on |
| `BTreePages.BTreePage.Insert` | src/index/btree/btree_page.cpp:119-124 | the later records move up by one slot, the others stay |
| `BTreePages.BTreePage.InsertRecord` | src/index/btree/btree_page.cpp:57-69 | one record more at the slot; the slots behind the records are untouched |
| `BTreePages.BTreePage.Delete` | src/index/btree/btree_page.cpp:71-76 | exactly one record goes; the last one stays behind as a stale slot |
| `BTreePages.BTreePage.TransferRecords` | src/index/btree/btree_page.cpp:132-142 | the records from a slot on stand before those of the other page in the same order; the freed slots hold copies of the last record |
| `BTreePages.SlotFits` | src/index/btree/btree_page.h:42-44 | the slots of a page are those that end within its block |
| `LeafTree.SlotIs` | src/index/btree/btree_page.cpp:4-10 | that slot is determined by the order of keys around it |
| `LeafTree.AddedSorted` | src/index/btree/btree_leaf.cpp:36-38 | a new record at the found slot keeps the page sorted |
| `LeafTree.SplitBetweenKeys` | src/index/btree/btree_leaf.cpp:51-65 | the split position is inside the page and no key is on both sides |
| `LeafTree.LeafInsertOk` | src/index/btree/btree_leaf.cpp:26-67 | whichever case an insertion takes, the leaf or the two leaves hold the old records and the new one, in bounds, with chains of one key only |
| `LeafTree.MovedOut` | src/index/btree/btree_leaf.cpp:27-34 | a key before a chain's key moves the page and its chain to a new leaf |
| `LeafTree.Hangs` | src/index/btree/btree_leaf.cpp:41-49 | a full page of one key keeps one record and hangs the rest before its chain |
| `LeafTree.Splits` | src/index/btree/btree_leaf.cpp:51-66 | a full page with two keys becomes two leaves around the split key |
| `LeafTree.FoundCounts` | src/index/btree/btree_leaf.cpp:6-13 | what the iterator finds in a leaf is each record of the key as often as leaf and chain have it |
| `LeafTree.ChainStep` | src/index/btree/btree_leaf.cpp:69-80 | at the start of an overflow block, the rest of the chain is ahead |
| `LeafTree.RestIsFound` | src/index/btree/btree_leaf.cpp:6-13 | from the slot before the key, the iterator has everything under the key ahead |
| `LeafTree.LeafDeleteOk` | src/index/btree/btree_leaf.cpp:17-24 | deleting a record of a key without a chain removes just that record and keeps the leaf right |
| `LeafIndex.InsertKeeps` | src/index/btree/btree_index.cpp:56-69 | an insertion keeps the whole index right and adds exactly its entry |
| `LeafIndex.LookupExact` | src/index/btree/btree_index.cpp:42-54 | a lookup yields each entry with the key as often as it is in the index, and no other |
| `LeafIndex.RunExact` | src/index/btree/btree_leaf.cpp:6-67 | over a sorted list of separators, a lookup after any sequence of insertions yields exactly the entries inserted under the key |
| `LeafIndex.OtherLeaf` | src/index/btree/btree_leaf.cpp:51-66 | all entries of a key are under one leaf: equal keys never straddle a split |
| `LeafIndex.DeleteKeeps` | src/index/btree/btree_index.cpp:71-75 | a deletion of a key without a chain keeps the index right and removes one copy of its entry |
| `BTreeLeaves.IndexFile.Split` | src/index/btree/btree_page.cpp:19-26 | the records from the position on are in a new last block, the others stay |
| `BTreeLeaves.MoveRight` | src/index/btree/btree_leaf.cpp:53-58 | the loop stays in the page and ends past the last record of the key |
| `BTreeLeaves.MoveLeft` | src/index/btree/btree_leaf.cpp:59-64 | the loop stays in the page and ends at the first record of the key |
| `BTreeLeaves.BTreeLeaf.FindSplitPos` | src/index/btree/btree_leaf.cpp:51-64 | the position between two keys nearest the middle record's key |
| `BTreeLeaves.BTreeLeaf.Insert` | src/index/btree/btree_leaf.cpp:26-67 | file and returned directory entry are exactly those of the leaf insertion on values |
| `BTreeLeaves.BTreeLeaf.Next` | src/index/btree/btree_leaf.cpp:6-13 | true exactly when a record is ahead; it is then the current one and the others remain ahead |
| `BTreeLeaves.BTreeLeaf.TryOverflow` | src/index/btree/btree_leaf.cpp:69-80 | moves to the chain exactly when it belongs to the key and has a record |
| `BTreeLeaves.BTreeLeaf.Delete` | src/index/btree/btree_leaf.cpp:17-24 | the first record with the key and identifier goes, or nothing changes |
| `BTreeIndex.Index.Insert` | src/index/btree/btree_index.cpp:56-69 | through both files, the bag of entries grows by exactly the new one, for a key that is not astray |
| `BTreeIndex.Index.Delete` | src/index/btree/btree_index.cpp:71-75 | the bag of entries loses one copy of the entry, or none if it is not there |
| `BTreeIndex.Index.FindAll` | src/index/btree/btree_index.cpp:42-54 | the search and the loop over Next return each entry of the key with its multiplicity, or nothing if the key is astray |
| `BTreeIndex.Index.constructor` | src/index/btree/btree_index.cpp:15-40 | one empty leaf and one directory page that has it under the least key: an empty index |
| `DirectoryPages.RoutedIff` | src/index/btree/btree_directory.cpp:56-63 | the child found is the one with the greatest separator not above the key, except when the slot past the last record holds just this key with another child |
| `DirectoryPages.GrownRoot` | src/index/btree/btree_directory.cpp:17-26 | the two entries of a new root, both halves, and the stale third slot |
| `BTreeDirectories.BTreeDirectory.FindChildBlock` | src/index/btree/btree_directory.cpp:56-63 | reads exactly what the analysis on values says, the slot past the count included |
| `BTreeDirectories.BTreeDirectory.Search` | src/index/btree/btree_directory.cpp:6-15 | descends to level 0 and returns that page's child |
| `BTreeDirectories.BTreeDirectory.InsertEntry` | src/index/btree/btree_directory.cpp:41-54 | file and returned entry are those of the insertion on values, in the middle of a page that gets full |
| `BTreeDirectories.BTreeDirectory.MakeNewRoot` | src/index/btree/btree_directory.cpp:17-26 | neither of the two entries fills the new root, whose level is one higher |
| `BTreeDirectories.BTreeDirectory.Insert` | src/index/btree/btree_directory.cpp:28-39 | down to the level-0 page that a search for the key finds; a split page's entry is handed up as it is, past every level |
| `BTreeDirectories.BTreeDirectory.InsertFromRoot` | src/index/btree/btree_index.cpp:63-68 | the directory after a leaf's entry, with a new root exactly when an entry was handed up |
| `DirectoryTree.SearchIff` | src/index/btree/btree_directory.cpp:6-15 | a whole search ends at the leaf with the greatest separator not above its key if and only if the key is not astray: not 0 above the separators of its page, and not the key of the root's third slot |
| `DirectoryTree.GrownSearchIff` | src/index/btree/btree_directory.cpp:6-26 | on a root that has just grown, a search is right if and only if its key is not the last separator of at most five, with a leaf other than 1, and not 0 above the separators of its half |
| `DirectoryTree.EntryHeld` | src/index/btree/btree_directory.cpp:41-54 | a new entry, whichever page takes it and whether the root grows or not, leaves a directory with exactly one entry more |
| `DirectoryTree.StepSearchIff` | src/index/btree/btree_directory.cpp:6-54 | after a new entry a search sends the keys from its separator up to the next one to the new leaf and all others where they belonged, if and only if the key is not astray in the new directory |
| `DirectoryTree.OnlyThoseMove` | src/index/btree/btree_directory.cpp:6-54 | a search before and after the insertion ends at the same leaf, but for the keys from the new separator up to the next one |
| `DirectoryTree.LastSeparatorAstray` | src/index/btree/btree_directory.cpp:56-63 | a full page of four entries after whose split the search for the last separator leaves the directory file |
| `DirectoryTree.LastSeparatorMisread` | src/index/btree/btree_directory.cpp:56-63 | a full page of three entries after whose split the search for the last separator ends at leaf 0 instead of leaf 2 |
| `HandedUp.InsertSearchIff` | src/index/btree/btree_index.cpp:56-69 | after any insertion of an entry into one page or a root over two, whatever splits, new root or handed-up entry it brings, a search ends at the leaf where its key belongs if and only if the condition for its case holds, which can be read off the entries and the third slot |
| `HandedUp.LowerSplitIff` | src/index/btree/btree_directory.cpp:28-39 | when the lower page below a root splits and its entry is handed past the root, the keys of the lower page are found, but for 0 above separators that are all negative, and no key of the upper page is; the third slot's key is right exactly if its leaf has the number of a page from which the search goes right |
| `HandedUp.UpperSplitIff` | src/index/btree/btree_directory.cpp:28-39 | when the upper page splits, every key is found but for 0: above separators of its page that are all negative, or in the kept half above a negative separator; and but for the third slot's key, with its exact cases |
| `HandedUp.LowerEndlessIff` | src/index/btree/btree_directory.cpp:6-15 | after a split of the lower page, a search never ends exactly for the key of the third slot, above the split key, if the slot has leaf 0, or leaf 4 and the key is 0 above a negative first separator of the upper page |
| `HandedUp.UpperEndlessIff` | src/index/btree/btree_directory.cpp:6-15 | after a split of the upper page, a search never ends exactly for the key 0 between a negative first separator of the upper page and a positive split key, and for the third slot's key above the split key as after a lower split |
| `HandedUp.PathEnds` | src/index/btree/btree_directory.cpp:6-15 | a search that stays on a falling path takes no more turns than its page's level |
| `HandedUp.ZeroGoesRound` | src/index/btree/btree_directory.cpp:6-39 | four separators after which the search for 0 never ends |
| `HandedUp.UpperPageLost` | src/index/btree/btree_directory.cpp:28-39 | five separators after which the search for 10 ends at leaf 4 instead of leaf 1 |
| `IndexDirectory.FindsLeafIff` | src/index/btree/btree_index.cpp:42-50 | the search of the directory pages ends at the leaf that the sorted list names if and only if the key is not astray |
| `IndexDirectory.AstrayFinds` | src/index/btree/btree_index.cpp:42-54 | a lookup of an astray key finds nothing, whatever was inserted under it |
| `IndexDirectory.SameEntry` | src/index/btree/btree_directory.cpp:41-46 | a leaf's new entry goes where the sorted list takes it |
| `IndexDirectory.InsertAgrees` | src/index/btree/btree_index.cpp:56-69 | an insertion in the two files is the insertion in the leaves under the list, unless the key is astray or a page below the root is filled |
| `IndexDirectory.RunAgrees` | src/index/btree/btree_index.cpp:56-69 | a run of such insertions in the files is the same run in the leaves under the list, through leaf splits and the growth of the root |
| `IndexDirectory.RunExactIff` | src/index/btree/btree_index.cpp:42-69 | after such a run a lookup yields exactly the entries inserted under its key if the key is not astray, and fails to if the key is astray and has entries |
| `IndexDirectory.ZeroLost` | src/index/btree/btree_index.cpp:42-69 | a run of three insertions, -5, -3 and 0, after which the lookup of 0 finds nothing |
| `IndexDirectory.LastLost` | src/index/btree/btree_index.cpp:42-69 | a run of three insertions, 10, 20 and 30, that makes the root grow and after which the lookup of 30 does not find its entry |
| `IndexDirectory.InsertFindsIff` | src/index/btree/btree_index.cpp:56-69 | an insertion through both files, with the splits of leaf, page and root that it brings: the leaves are those under the sorted list, and exactly which searches of the new directory find the leaf that the list names |
| `IndexDirectory.FoundExactly` | src/index/btree/btree_index.cpp:42-54 | in any such directory, a search that ends at the leaf that the list names finds exactly the records under its key, as often as the index has them |
| `ViewRoundTrip.ViewRoundTrip` | src/parse/query_data.h:56-78 | parsing the printed text of a query with good names and without strings returns the same fields, tables and terms in order, with nothing left over |
| `ViewRoundTrip.RoundTripIff` | src/parse/query_data.h:56-78 | for quote-free texts the round trip holds exactly for queries with lower-case non-keyword names and no string constant |
| `ViewRoundTrip.StringReadAsField` | src/query/constant.h:83-96 | the stored text of a query with a string constant is read back with a field of that name |
| `ViewRoundTrip.ParsedViewRoundTrip` | src/parse/parser.cpp:38-49 | every query that the parser accepts from a quote-free text is stored and read back unchanged |
| `ViewRoundTrip.TermsRound` | src/query/predicate.cpp:91-103 | the terms joined with "and" are read back in order |
| `ViewRoundTrip.ListRound` | src/parse/parser.cpp:51-71 | the comma-separated names are read back in order |
| `ViewRoundTrip.TokenWords` | src/parse/stream_tokenizer.cpp:179-193 | every word the tokenizer returns is a lower-case word that it would read again as itself |
| `LetterCase.CaseIgnored` | src/parse/stream_tokenizer.cpp:186-192 | texts that differ only in upper and lower case of A to Z have the same tokens and the same query |
| `LetterCase.CapitalsRead` | src/parse/lexer.h:36 | a good query, printed with any of its letters capital, is parsed as that query |
| `LetterCase.Classes` | src/parse/stream_tokenizer.h:61-70 | which characters are white space, letters, digits, parts of numbers, quotes and line ends |
| `QueryText.WordToken` | src/parse/stream_tokenizer.cpp:179-193 | a lower-case word before a separator is one token, and the rest is untouched |
| `QueryText.NumberToken` | src/parse/stream_tokenizer.cpp:140-177 | the printed form of any integer, negative ones too, is one token with its value |
| `QueryText.ScanDigits` | src/parse/stream_tokenizer.cpp:140-177 | the number loop reads exactly the digits and their value |
| `QueryText.DecimalToken` | src/parse/stream_tokenizer.cpp:140-177 | a number with decimals is one token, and as an integer it loses the decimals, on both sides of 0 |
| `QueryParser.StreamTokenizer.NextToken` | src/parse/stream_tokenizer.cpp:77-315 | with one character of lookahead, the token and the remaining text are those of the text's first token |
| `QueryParser.StreamTokenizer.ReadNumber` | src/parse/stream_tokenizer.cpp:140-177 | a minus sign without a number is an ordinary character; otherwise digits and one point are consumed |
| `QueryParser.StreamTokenizer.ReadWord` | src/parse/stream_tokenizer.cpp:179-193 | the longest word, in lower case |
| `QueryParser.Lexer.EatDelim` | src/parse/lexer.cpp:27-32 | the delimiter is consumed exactly when it is the current token; otherwise nothing moves |
| `QueryParser.Lexer.EatIntConstant` | src/parse/lexer.cpp:34-41 | an integer with the decimals dropped, or an error |
| `QueryParser.Lexer.EatKeyword` | src/parse/lexer.cpp:52-57 | the keyword is consumed exactly when it is the current token |
| `QueryParser.Lexer.EatId` | src/parse/lexer.cpp:59-66 | a word that is not a keyword, or an error |
| `QueryParser.Parser.ParseExpression` | src/parse/parser.cpp:15-20 | a field or an integer, as the tokens say |
| `QueryParser.Parser.ParseTerm` | src/parse/parser.cpp:22-27 | two expressions around an equals sign, or an error |
| `QueryParser.Parser.ParsePredicate` | src/parse/parser.cpp:29-36 | all terms joined by "and", in order |
| `QueryParser.Parser.ParseList` | src/parse/parser.cpp:51-71 | all names separated by commas, in order |
| `QueryParser.Parser.ParseQuery` | src/parse/parser.cpp:38-49 | result, error and remaining tokens are those of the token grammar |
| `QueryParser.PrintQuery` | src/parse/query_data.h:56-78 | the loops print every field, table and term once, in order |
| `QueryParser.PrintPredicate` | src/query/predicate.cpp:91-103 | the empty predicate prints nothing, another one all its terms |
| `Tables.TableScan.SearchAfter` | src/record/record_page.cpp:59-68 | the next slot of the block with the flag, or none is left in the block |
| `Tables.TableScan.Next` | src/record/table_scan.cpp:16-26 | the next used slot in the order of blocks and slots, with none skipped; false exactly when none is ahead |
| `Tables.TableScan.Insert` | src/record/table_scan.cpp:70-80 | takes the next empty slot and keeps all others; a block is added exactly when no empty slot is ahead |
| `Tables.TableScan.MoveToNewBlock` | src/record/table_scan.cpp:98-104 | one more block, all slots empty |
| `Tables.TableScan.Delete` | src/record/table_scan.cpp:82 | exactly one slot becomes empty and keeps its values |
| `Tables.TableScan.SetVal` | src/record/table_scan.cpp:62-68 | exactly one field of one record changes |
| `Statements.IsSatisfied` | src/query/predicate.cpp:12-20 | true exactly when every term holds |
| `Statements.SelectScan.Next` | src/query/select_scan.cpp:12-19 | the next used record that satisfies the predicate, with none skipped; false exactly when none is ahead |
| `Statements.ExecuteDelete` | src/plan/basic_update_planner.cpp:34-55 | as if at once: exactly the records that satisfied the predicate at the start are gone, and the result is their number |
| `Statements.ExecuteModify` | src/plan/basic_update_planner.cpp:57-79 | as if at once: exactly those records get the new value computed from their old rows, and the result is their number |
| `Statements.ChangeStep` | src/plan/basic_update_planner.cpp:48-51 | one turn of such a loop extends the changed part and the count by one |
| `Statements.FieldIsConstant` | src/query/term.h:34-36 | a field against an integer or a string, on either side, holds exactly if the row's field is that constant |
| `Statements.OtherTerms` | src/query/term.h:34-36 | two fields compare by their values in the row, two constants by their own; a number is never a string |
| `Statements.Conjoined` | src/query/predicate.cpp:6-20 | a joined predicate holds exactly if both parts do, and the empty one always |
| `Statements.Deleted` | src/plan/basic_update_planner.cpp:34-55 | after a deletion the used records are exactly the former ones that do not satisfy the predicate, and no value changes |
| `Statements.DeletedEqual` | src/plan/basic_update_planner.cpp:34-55 | after DELETE with field = constant exactly the records with another value of the field are left |
| `Statements.Modified` | src/plan/basic_update_planner.cpp:57-79 | a record that satisfied the predicate has the new value in the target and its other fields as before; every other record is as it was |
| `Statements.ModifiedToConstant` | src/plan/basic_update_planner.cpp:57-79 | after UPDATE with a constant each record that satisfied the predicate has that constant |
| `IndexUpdates.InsertAgreesIff` | src/index/planner/index_update_planner.cpp:31-42 | after an insertion an index agrees with the table exactly when its field was named once in the statement |
| `IndexUpdates.NamedTwiceDisagrees` | src/index/planner/index_update_planner.cpp:31-42 | an INSERT that names the indexed field twice leaves two entries for one record |
| `IndexUpdates.DeleteAgrees` | src/index/planner/index_update_planner.cpp:64-75 | taking out a record's entry and then the record keeps an index in agreement |
| `IndexUpdates.ModifyAgrees` | src/index/planner/index_update_planner.cpp:104-117 | the old entry out and the new one in keeps agreement; indexes on other fields need nothing |
| `IndexUpdates.IndexedTable.ExecuteInsert` | src/index/planner/index_update_planner.cpp:11-45 | one new record in an empty slot; an index holds exactly the keys and places of the live records afterwards if and only if the statement named its field once |
| `IndexUpdates.IndexedTable.ExecuteDelete` | src/index/planner/index_update_planner.cpp:47-79 | the simultaneous deletion, with every index still exact |
| `IndexUpdates.IndexedTable.ExecuteModify` | src/index/planner/index_update_planner.cpp:81-123 | the simultaneous change, with every index still exact |
| `IndexUpdates.LastValues` | src/index/planner/index_update_planner.cpp:26-41 | a named field of a new record has the last value given for it, and every other field what was in the slot |
| `Joins.CrossSwap` | src/plan/better_query_planner.cpp:33-39 | with different fields the sides of a product can change places without changing the bag of rows |
| `Joins.CrossLeftOrder` | src/query/product_scan.cpp:18-24 | the bag of a product's rows does not depend on the order of the left rows |
| `Joins.BasicPlan` | src/plan/basic_query_planner.cpp:30-34 | the loop builds the left-to-right product |
| `Joins.LookupIsWithKey` | src/index/index.h:10-52 | an index that agrees with its table finds the same places as a look at every record |
| `Joins.IndexJoinIsSelect` | src/index/query/index_join_scan.cpp:4-21 | the index join has the same bag of rows as the selection of equal join fields from the product |
| `Joins.IndexJoinScan.Next` | src/index/query/index_join_scan.cpp:10-21 | true exactly when a joined row is ahead, over left rows without matches as well |
| `Joins.IndexJoinScan.ResetIndex` | src/index/query/index_join_scan.cpp:57-60 | all matches of the left row are ahead |
| `Joins.BetterPlan` | src/plan/better_query_planner.cpp:29-40 | each operand goes on the side that the estimates prefer, on the right if they prefer none; the plan stands for the same bag of rows as the left-to-right product; that its scans give these rows needs operands with rows, as ScanTrees says |
| `Joins.SameAnswer` | src/plan/better_query_planner.cpp:42-46 | the rows of the two plans give the same bag after selection and projection too; what the scans give is in ScanTrees |
| `Joins.Merged` | src/query/product_scan.cpp:26-45 | a product row has the fields of both sides, and the left side's value where both have the field |
| `Joins.CrossAt` | src/query/product_scan.cpp:18-24 | each left row meets each right row once, and the right one changes fastest |
| `Joins.SelectedRows` | src/query/select_scan.cpp:12-19 | a row is selected exactly if it is there and satisfies the predicate |
| `Joins.ProjectedRows` | src/query/project_scan.cpp:31-41 | one answer for each row, with exactly those of the asked fields that the row has, and its values |
| `ScanTrees.ReadsRowsIff` | src/query/product_scan.cpp:12-24 | a client of the nested scans opened from a plan reads exactly the plan's rows, in nested-loop order, if and only if every operand has a row or the last one has none |
| `ScanTrees.StepLeft` | src/query/product_scan.cpp:18-24 | for any plan, with empty operands too, Next is true exactly as often as the number of rows left says |
| `ScanTrees.EmptyLeftMisread` | src/query/product_scan.cpp:12-16 | an empty operand on the left of a product gives a row that is none; on the right it does not |
| `ScanTrees.Open` | src/plan/product_plan.h:33-35 | the scans for a plan of nested products, all before their first rows |
| `ScanTrees.ScanTree.BeforeFirst` | src/query/product_scan.cpp:12-16 | every scan of the tree is where the plan's start position says, after the ignored first Next of each left side |
| `ScanTrees.ScanTree.Next` | src/query/product_scan.cpp:18-24 | every scan of the tree moves as the step on positions says, and the result is its result, for any plan and position |
| `ScanTrees.ReadRows` | src/query/product_scan.cpp:12-24 | under that exact condition a client's loop over the scans returns the plan's rows |
| `ScanTrees.NextSelected` | src/query/select_scan.cpp:12-19 | the next of the rows ahead that satisfies the predicate, with none skipped |
| `ScanTrees.ReadAnswer` | src/query/project_scan.cpp:13-41 | a client's loop over projection, selection and products returns one answer for each row of the plan that satisfies the predicate, in order, with exactly the asked fields of that row |
| `ScanTrees.AnswerQuery` | src/plan/better_query_planner.cpp:29-46 | for operands with rows, the better plan, opened and read through its scans, gives the bag of answers of the basic plan, whatever the estimates; each is the asked fields of a row that satisfies the predicate |

## Left out

Assumptions about what lies below:

- Reading, writing and appending a block are atomic; the file manager is a map from blocks to pages. Appending a log block and writing its boundary is one disk step (src/log/log_manager.cpp:55-61), so a crash between the two is not modelled.
- A page of the engine is a map from typed fields to values: clients keep their fields apart, and an undone string restores what a typed read sees, not the bytes behind it.
- Clients log every write. Unlogged writes are only those of undo; the unlogged formatting of new pages, the growth of files and the lock on the end of a file (src/txn/transaction.cpp:82-92) are not part of the engine's runs.
- Threads, condition variables and the ten-second timeouts: a request is one atomic step that is granted or refused, and nothing is said about waiting or progress.
- Integers are unbounded except in the byte formats, where they are 32 bits wide; a number token is exact where the code uses a double.
- A log record becomes durable one at a time in the step machine; the code writes a page of them, which is several such steps.

Weaker than the code or its promise:

- TransactionCode.Transaction.Rollback: returns false where the code throws for want of a buffer, and leaves the transaction as the undo so far has left it.
- TransactionCode.Transaction.Recover: returns false where the code throws for want of a buffer; a new recovery may follow.
- BufferPool.BufferManager.TryToPin: one attempt; Pin's waiting loop is a refusal.
- LogBytes.LogManager.Append: for records with room for two words more in a block, as the code needs; a longer record is not handled there either.
- LeafTree.LeafDeleteOk: not for a key with an overflow chain, because TryOverflow relies on the main page's first record and on overflow pages that are not empty.
- BTreeIndex.Index.Insert: not for a key that is astray, which would be put into a wrong leaf, nor for a leaf's entry that fills a page below the root, whose own entry is then handed past it; and at least two records must fit before a leaf is full.
- BTreeIndex.Index.Delete: not for a key that is astray, nor for one with an overflow chain.
- BTreeIndex.Index.constructor: makes new files; an index over existing ones is not opened. The directory's root is block 0 of its file, as meant, although the code's local root_block_ hides the member (src/index/btree/btree_index.cpp:28).
- BTreeDirectories.BTreeDirectory.Search: not for a search that leaves the directory file, or meets an empty or full page.
- DirectoryTree.EntryHeld: for one page, or a root over two pages that do not split; a page that does is in HandedUp.
- DirectoryTree.StepSearchIff: as EntryHeld; HandedUp.InsertSearchIff has all cases.
- DirectoryTree.OnlyThoseMove: as EntryHeld.
- BTreeDirectories.BTreeDirectory.Insert: not for a key whose descent goes around or leaves the directory file.
- IndexDirectory.RunExactIff: for runs that insert no astray key and fill no page below the root; the first insertion that fills one is in InsertFindsIff.
- HandedUp.InsertSearchIff: for one insertion into a directory of one page or a root over two; what further insertions do to a directory that has lost entries is not followed.
- QueryParser.StreamTokenizer.NextToken: texts without quote characters; the quoted branch with its escapes is not modelled, nor are the comment styles that the lexer leaves switched off.
- QueryParser.Parser.ParseExpression: no string constants, for the same reason.
- Joins.BetterPlan: about the rows that a plan stands for; what its scans give is in ScanTrees, whose operands are lists of rows instead of table scans.
- Joins.IndexJoinScan.Next: for a left side with a row, as for the product; the index is a map from keys to places that agrees with the table.
- Tables.TableScan.Insert: blocks are sequences of slots, so pinning, field offsets and the page's bytes are not part of the scan.

Not modelled:

- B-tree keys are integers; strings as keys need only another total order.
- The hash index, the catalog, view and statistics managers, cost estimates (any estimate will do), index lookup in the catalog and the other statements of the parser: they would add only easy members.
- Calls of Next after it has returned false: a scan over rows stays at its end, where the code's table scan goes back into its last block (src/record/table_scan.cpp:16-26). Product scans make such calls only over a side whose last operand is empty, which has no row either way.
- Debug output and utilities.
