# A verified model of the acorn storage engine

acorn keeps pages of 32749 bytes in segment files, caches them in memory, and logs every change before it makes it.
This project models four parts of it and proves what they are for.

**The write-ahead log, rollback and recovery.** `Engine` is the page store as a state machine: begin, write, commit,
undo, rotate, checkpoint, flush, crash and recover, over a log of items ordered by generation and offset; a recovery may
itself crash in its redo and be started again. `Invariant`, `Steps`, `UndoSteps` and `RecoverSteps` prove what every step
keeps, and exactly when a recovery restores what is logged: the original recovers in any case, the state machine takes
the step only then. `Atomicity` proves that runs refine a reference machine with one committed and one working copy of
each page, as long as every undo reaches what it has to undo. `Ledger` is a second reference machine, which takes back
exactly what the original takes back; every run refines it, whatever its undos reach. `Durability` says what a caller can
do so that every recovery restores what is logged. `Rollback` says exactly when an undo rolls back, `CheckpointRoom` when
a checkpoint can be logged, and `Witnesses` has runs in which something is lost. `Tables` and `History` hold the theory of
the two tables and of redo and undo. `Wal` and `PageStorage` are the classes of the original, with its loops; each of
their methods is proved equal to a step of the state machine.

**The log file.** `ItemCodec` and `LogImage` describe the bytes of a log file. `WalFile` is the file with its buffer,
its cursor and its readers, and refines a sequence of items. `TornLog` is about files that were cut off, and
`BackwardReads` about reading from the end. `LogFiles` joins the files to the state machine: in every run whose numbers
fit the format, reading a generation's file forward or backward gives the entries that the state machine has for it.

**The page allocator.** `FreelistPages` is the byte layout of the meta page and of the blocks of the free list.
`PageAlloc` is the allocator over these pages. `AllocRuns` proves that whole runs of it and of its clients are runs of a
plain stack and a counter.

**Replacement and storage.** `Replacer` is the cache replacer, `PageCache` the map from cached pages to slots with its
list of dirty pages, `Segment` the bytes of a segment file, and `PhysicalStorage` the open files and the batches that go
to them.

`WalTypes` and `Bytes` hold what these parts share. Integers are unbounded unless a module says otherwise, and are
little-endian in files. The checksums are arbitrary functions of the bytes.

Some results say where the code does less than one would expect; the code is modelled as it is.

* The undo scan ends at the least of the *last* indices of the transactions it undoes
  (`crates/acorn/src/page_store/wal.rs`, lines 298-317), so an earlier write of a transaction can lie outside it: the undo
  of one transaction takes back exactly its last write. `Rollback.UndoIsExactIff` gives the exact condition,
  `Ledger.EveryRunIsBooked` what happens in all other cases, and `Witnesses.TwoWritesAreNotRolledBack` a run.
* A recovery replays the current generation only, and a rotation does not wait for the pages to be written to the disk
  (`crates/acorn/src/page_store/wal.rs`, lines 220-261 and 423-437), so committed writes can be lost:
  `Witnesses.CommittedWriteIsLost` is a run. `RecoverSteps.RecoverKeepsIff` says exactly when a recovery restores what is
  logged, byte by byte, and `Durability.CarefulRunsRecover` that it always does when each rotation follows a flush.
* A recovery from a generation without a checkpoint loses the transactions that began earlier and do not appear in it:
  `Durability.KnowsLosersIff`, `Tables.NoCheckpointIsExactIff`, and `Witnesses.TransactionIsLost` for a run.
* The checkpoint timer is started before the recovery (`crates/acorn/src/page_store/wal.rs`, lines 131-137). A checkpoint
  that comes first deletes all older generations and tells of no transaction: `Witnesses.EarlyCheckpointForgets`, and
  `Witnesses.CheckpointBeforeRecovery` for a run. The state machine rotates only while the store is up.
* An item that is pushed to a log file that was cut off within an item is never read back by a reader that starts at the
  beginning: `TornLog.PushedIsReadIff`. A reader that starts at the end reads it first and then goes where the last eight
  bytes of the torn file point: `BackwardReads.PushedReadsBackIff`. It may never come to an end:
  `BackwardReads.PushedCircle` and `BackwardReads.CircleExists`.
* A checkpoint is one item and panics when the two tables have grown beyond its 16-bit length; nothing in the repository
  tells the log of a flush, so no page leaves the dirty-page table. `CheckpointRoom.RoomIff` has the exact condition, and
  `CheckpointRoom.NoRoomLeft` runs that come to it.
* The allocator does not look whether a page that is freed is held, and freeing the meta page destroys it:
  `PageAlloc.FreeIsSafeIff`.
* The bound on the replacer's histories (`crates/acorn/src/utils/cache.rs`, lines 199-208) is lost when a stored value is
  found in a history that is full: `Replacer.HistoryBoundIsKeptIff`. `Replacer.HistoryIsUnbounded` has runs in which the
  history grows for ever. Both paths of an eviction add to the same history, so the other stays empty and the target size
  of `recent` stays 0; the replacer is then one clock.
* When the slot of the victim is in use, the page cache puts the victim back and takes the next one. That search always
  ends, but it can arrive at the page that is being stored, whose slot cannot be looked up. `PageCache.StorePanicsIff` says
  exactly when; it can happen while other slots are free, as in `PageCache.PanicsWithAFreeSlot`.
* When a page cannot be read, its slot is given up, but the replacer is not told. The next page that is stored gets the
  slot and is not cached then, and storing a page panics when the replacer comes to the page that was given up:
  `PageCache.LostVictimPanics` and `PageCache.ScrapThenPanic`.
* A page is put on the list of dirty pages when it is given a slot, not when it is written. A page that is written again
  after a flush is not flushed any more: `PageCache.FlushedIff` and `PageCache.WriteAfterFlush`. When the writes of a flush
  fail, the pages count as clean all the same: `PageCache.FlushAfterFailure`.

## Model

| member | source | states |
|---|---|---|
| Tables.TransactionsAreTheLiveOnes | crates/acorn/src/page_store/wal.rs:603-645 | handling the items of any history leaves exactly the unfinished transactions in the table, each with the index of its last write and the generation of its first |
| Tables.ReplayIsIdempotent | crates/acorn/src/page_store/wal.rs:211-218 | handling the items of a generation a second time changes neither table |
| Tables.FuzzyCheckpointIsExact | crates/acorn/src/page_store/wal.rs:149-218 | starting from the first checkpoint of a generation and handling the whole generation, items before the checkpoint included, rebuilds both tables exactly as they were |
| Tables.NoCheckpointIsExactIff | crates/acorn/src/page_store/wal.rs:191-218 | without a checkpoint the transaction table is rebuilt if and only if every transaction unfinished at the start of the generation completes in it |
| History.RedoIsExactIff | crates/acorn/src/page_store/wal.rs:220-261 | replaying a suffix of the log on a disk page gives the latest content if and only if every byte the suffix does not set is already right |
| History.RedoRepeatsHistory | crates/acorn/src/page_store/wal.rs:220-261 | if each byte of the page comes from some moment at or after the start of the replay, the replay gives the latest content, however many of its writes the disk already held |
| History.InterruptedRedo | crates/acorn/src/page_store/wal.rs:246-261 | a redo that stops anywhere leaves a page from which a new redo succeeds: no byte goes back further than it was, or than the place the redo had come to |
| History.UndoInvertsHistory | crates/acorn/src/page_store/wal.rs:291-345 | the before-images, newest first, leave each page as if the losers' writes at or above the stop bound had never happened, for any interleaving over the pages |
| WalModel.LowestIsLeast | crates/acorn/src/page_store/wal.rs:298-307 | the stop bound exists if and only if some transaction of the list is unfinished, and is then the least of their last indices |
| WalModel.StaleIsUnneeded | crates/acorn/src/page_store/wal.rs:167-189 | a cleanup deletes a prefix of the queue, never the current generation nor one that an unfinished transaction needs, and stops only at such a one |
| WalModel.RotateKeepsQueue | crates/acorn/src/page_store/wal.rs:423-437 | a rotation keeps the queue strictly ascending and ending at the current generation, which is new and empty |
| WalModel.RotateKeepsItems | crates/acorn/src/page_store/wal.rs:423-437 | what a rotation deletes and what it keeps are together the old log, in order |
| Steps.RetainedIsLive | crates/acorn/src/page_store/wal.rs:167-189 | no write of an unfinished transaction is in a generation that a rotation deletes |
| UndoSteps.UndoKeepsLog | crates/acorn/src/page_store/wal.rs:274-345 | the compensations and commits an undo logs keep the log ascending and truthful, and afterwards the live writes are exactly those of other transactions |
| RecoverSteps.RedoCompletes | crates/acorn/src/page_store/wal.rs:220-261 | redo over the current generation, from the rebuilt dirty-page table, brings a page to the latest content if what its bytes miss is covered by the table and by the current generation |
| RecoverSteps.RedoRestoresIff | crates/acorn/src/page_store/wal.rs:220-261 | for any store that is down: redo over the current generation gives the latest content of a page if and only if every byte that no replayed write sets is on the disk as logged |
| RecoverSteps.RecoveryIsExactIff | crates/acorn/src/page_store/wal.rs:514-538 | for any store that is down: a recovery leaves a page as its log says, its own items included, if and only if every byte that neither redo nor undo sets was on the disk as logged |
| RecoverSteps.CrashInRedoKeeps | crates/acorn/src/page_store/wal.rs:246-261 | a recovery that crashes in its redo, after any number of items, leaves a store that keeps the invariant, and that can be recovered exactly if the one before could |
| RecoverSteps.RecoverKeepsIff | crates/acorn/src/page_store/wal.rs:514-538 | for any store that is down: the whole invariant holds after the recovery if and only if the current generation tells of all unfinished transactions and every byte that neither redo nor undo sets is on the disk as logged |
| RecoverSteps.OlderOnDiskSuffices | crates/acorn/src/page_store/wal.rs:514-538 | a checkpoint in the current generation, and older generations whose writes are on the disk, are enough for that |
| Durability.KnowsLosersIff | crates/acorn/src/page_store/wal.rs:191-218 | the current generation tells of all unfinished transactions if and only if it has a checkpoint, or each that was unfinished before writes or completes in it |
| Durability.CarefulRunsRecover | crates/acorn/src/page_store/mod.rs:468-479 | in every run that rotates only when all pages are on the disk as in memory, and recovers only from generations with a checkpoint, every recovery restores what is logged, and the run refines the second reference machine |
| RecoverSteps.StepKeeps | crates/acorn/src/page_store/wal.rs:291-538 | every step of the page store keeps the invariant |
| Atomicity.CommitEffect | crates/acorn/src/page_store/mod.rs:298-305 | a commit makes the pages of its transaction, as readers see them, the committed ones, and changes no other |
| Atomicity.UndoLeaves | crates/acorn/src/page_store/mod.rs:209-220 | whatever its scan reaches, an undo leaves every page as if exactly the writes that it reaches had never been, and settles what is left |
| Atomicity.UndoTakesBackOneWrite | crates/acorn/src/page_store/wal.rs:291-345 | the undo of a transaction leaves every page as if exactly its last write had never been |
| Atomicity.UndoEffect | crates/acorn/src/page_store/mod.rs:209-220 | an undo whose scan reaches all its writes gives the transaction's pages their committed content, and changes no other page |
| Atomicity.RecoverLeavesIff | crates/acorn/src/page_store/mod.rs:468-479 | for any store that is down: a recovery leaves a page, in memory and on disk, as if exactly the writes that its scan reaches had never been, if and only if redo and undo reach every byte that is not on the disk as logged |
| Atomicity.RecoverLeaves | crates/acorn/src/page_store/mod.rs:468-479 | a recovery that can restore what is logged leaves every page so, whatever its scan reaches, and no transaction unfinished |
| Atomicity.RecoverEffect | crates/acorn/src/page_store/mod.rs:468-479 | after such a recovery, if its scan reaches all writes of the losers, every page in memory and on disk is exactly what the completed transactions made it |
| Atomicity.StepRefines | crates/acorn/src/page_store/mod.rs:136-149 | every step of the page store, if it is an undo or a recovery one that reaches all it has to undo, is a step of the atomic reference machine |
| Atomicity.EveryRunKeeps | crates/acorn/src/page_store/wal.rs:291-538 | the invariant holds in every state of every run, also where an undo leaves something behind |
| Atomicity.EveryRunRetains | crates/acorn/src/page_store/wal.rs:423-437 | in every run the queue is ascending and ends at the current generation, and every write of a transaction still unfinished is in a retained generation |
| Atomicity.EveryRunCanRebuild | crates/acorn/src/page_store/wal.rs:149-218 | in every run, up or down, the current generation rebuilds the table of unfinished transactions if it has a checkpoint, and without one if and only if all that began before have completed in it; while the store is up the rebuilt dirty-page table dominates the one in memory |
| Atomicity.EveryRunRefines | crates/acorn/src/page_store/mod.rs:468-479 | any sequence of steps whose undos and recoveries reach all they have to undo refines the atomic reference machine |
| Atomicity.PageStoreIsAtomic | crates/acorn/src/page_store/mod.rs:468-479 | in such runs, from the creation on and through any number of crashes, what was committed stays, what was undone or unfinished at a crash leaves no trace, and readers see the working pages |
| Ledger.WithoutIsKept | crates/acorn/src/page_store/wal.rs:291-345 | the content without the writes that a scan takes back is the settled content with the other pending writes, in order |
| Ledger.ScanIsDropped | crates/acorn/src/page_store/wal.rs:298-331 | ending the scan at the least last index is going back until a write of each transaction has been seen |
| Ledger.EveryRunIsBooked | crates/acorn/src/page_store/mod.rs:468-479 | every run from the creation on, whatever its undos and recoveries take back, refines the machine that takes back what the scan reaches and publishes the rest |
| Atomicity.SingleWriteIsReached | crates/acorn/src/page_store/wal.rs:298-317 | the scan always reaches the write of a transaction that has written once |
| Rollback.HistoryIsWellFormed | crates/acorn/src/page_store/wal.rs:291-345 | the history of every run is a log of the kind that the next row is about |
| Rollback.UndoIsExactIff | crates/acorn/src/page_store/wal.rs:298-331 | an undo rolls back, whatever bytes were written, if and only if every non-empty write of its transactions is at or above the least of their last indices |
| Witnesses.TwoWritesAreNotRolledBack | crates/acorn/src/page_store/wal.rs:298-317 | a run: a transaction writes two bytes of a page and is undone, and the first byte stays, unlike in the reference machine |
| Witnesses.TransactionIsLost | crates/acorn/src/page_store/wal.rs:191-218 | a run: a crash between a rotation and its checkpoint leaves an unfinished transaction that a recovery would not know of |
| Witnesses.CommittedWriteIsLost | crates/acorn/src/page_store/wal.rs:423-437 | a run: a transaction commits, the log is rotated and its checkpoint logged, the store crashes, and the recovery brings back the page as it was before |
| Witnesses.EarlyCheckpointForgets | crates/acorn/src/page_store/wal.rs:405-437 | a checkpoint with empty tables deletes all other generations, and the recovery after it restores nothing |
| Witnesses.CheckpointBeforeRecovery | crates/acorn/src/page_store/wal.rs:131-137 | a run: a recovery would take a write back, and does not when the checkpoint timer has run first |
| Wal.State.TrackTransaction | crates/acorn/src/page_store/wal.rs:603-615 | the new transaction table, for a transaction that is known and for one that is not |
| Wal.State.HandleItem | crates/acorn/src/page_store/wal.rs:638-644 | the state becomes the table function of the state and the item |
| Wal.State.FirstNeededGeneration | crates/acorn/src/page_store/wal.rs:630-636 | the least first generation of the unfinished transactions, or none |
| Wal.Wal.PushRawItem | crates/acorn/src/page_store/wal.rs:347-372 | the item is appended to the current generation, at the returned index, and handled by the tables; a checkpoint is asked for exactly if the file has reached its size |
| Wal.Wal.LogCheckpoint | crates/acorn/src/page_store/wal.rs:149-165 | the checkpoint holds the tables as they stand and changes neither |
| Wal.Wal.LowestLastIndex | crates/acorn/src/page_store/wal.rs:298-307 | the loop finds the stop bound |
| Wal.Wal.CollectCompensations | crates/acorn/src/page_store/wal.rs:309-331 | the two nested backward loops find exactly the compensations that the whole log has above the bound, newest first |
| Wal.Wal.UndoAll | crates/acorn/src/page_store/wal.rs:291-345 | the log and the requested page writes are those of the undo step |
| Wal.Wal.ReadInitialState | crates/acorn/src/page_store/wal.rs:191-209 | the tables become those of the first checkpoint in the current generation, or empty ones |
| Wal.Wal.Redo | crates/acorn/src/page_store/wal.rs:246-261 | the requested writes are exactly the logged ones at or after the first dirty index of their page, in order |
| Wal.Wal.Recover | crates/acorn/src/page_store/wal.rs:514-538 | the log and the requested writes, redo then undo, are those of the recovery step |
| Wal.Wal.CleanupGenerations | crates/acorn/src/page_store/wal.rs:167-189 | the queue loses exactly the generations no unfinished transaction needs, and their numbers are returned |
| Wal.Wal.Rotate | crates/acorn/src/page_store/wal.rs:423-437 | a new generation is current and the stale ones are gone |
| PageStorage.PageStorage.ReadPage | crates/acorn/src/page_store/mod.rs:102-107 | a reader sees the content that the whole history gives the page |
| PageStorage.PageStorage.Write | crates/acorn/src/page_store/mod.rs:136-149 | logging the old and the new bytes and changing the page is the write step, and keeps the invariant |
| PageStorage.PageStorage.Commit | crates/acorn/src/page_store/mod.rs:298-305 | a commit is the commit step: one log item, and the transaction's locks released |
| PageStorage.PageStorage.Undo | crates/acorn/src/page_store/mod.rs:209-220 | an undo is the undo step |
| PageStorage.PageStorage.Recover | crates/acorn/src/page_store/mod.rs:468-479 | for any store that is down: recovery, writing through to the disk, is the recovery step, and the store is valid after it if and only if the recovery could restore what is logged |
| PageStorage.UndoStaysInItsLocks | crates/acorn/src/page_store/mod.rs:209-216 | an undo never asks for a write to a page that its transaction has not locked, so the panic there is not reached |
| PageStorage.RecoveryIsCorrect | crates/acorn/src/page_store/mod.rs:468-479 | after a recovery no transaction is unfinished, and every page is what the completed transactions made it, in memory and on disk |
| ItemCodec.ItemRoundTrip | crates/acorn/src/files/wal.rs:424-473 | reading an encoded item gives the item back and consumes exactly its body, for any order of a checkpoint's maps and any bytes that follow |
| ItemCodec.CheckpointRoundTrip | crates/acorn/src/files/wal.rs:681-704 | a checkpoint's two maps are read back whatever the order they were written in |
| LogImage.IntactFileReadsAll | crates/acorn/src/files/wal.rs:706-744 | forward iteration of an intact file gives every item with its offset and no error |
| LogImage.TornFileReadsCompleteItems | crates/acorn/src/files/wal.rs:706-744 | a file cut off at any byte after its header reads as exactly the items whose header and body are complete, without an error |
| LogImage.ReadBack | crates/acorn/src/files/wal.rs:746-760 | the back pointer of an item leads to the item before it |
| LogImage.LastItemOf | crates/acorn/src/files/wal.rs:405-422 | the last footer of a file leads to its last item |
| WalFile.ItemReader.ReadItemExact | crates/acorn/src/files/wal.rs:706-736 | the reader's item, or its error, in the order in which it checks, and its new offset and back pointer |
| TornLog.PushedIsReadIff | crates/acorn/src/files/wal.rs:405-422 | an item pushed to a file that was cut off is read back if and only if the cut was between two items, for any checksum function and whatever the torn bytes are taken for |
| WalFile.WalFile.Open | crates/acorn/src/files/wal.rs:389-422 | opening any file, torn or not, takes its last eight bytes for the place of the last item; for an intact file that restores the state that pushing its items had left |
| WalFile.OpenFile | crates/acorn/src/files/wal.rs:168-179 | a file is refused exactly if its last eight bytes are read as a footer and are 0 |
| WalFile.PushAfterCut | crates/acorn/src/files/wal.rs:530-584 | the same as a run of the methods: after the push, iteration finds the item if and only if the cut was between two items |
| WalFile.WalFile.PushItem | crates/acorn/src/files/wal.rs:530-584 | the file, torn or not, gets exactly the bytes of this item at its end, wherever a reader has left the cursor; the buffer is empty after it, and the next offset is the length of the file |
| WalFile.WalFile.WriteCheckpointBlock | crates/acorn/src/files/wal.rs:454-473 | the loops over the two maps, in any order, write an encoding of the checkpoint |
| WalFile.WalFile.ReadItemAt | crates/acorn/src/files/wal.rs:593-605 | the item that was pushed at an offset is read there |
| WalFile.WalFile.IterItems | crates/acorn/src/files/wal.rs:607-611 | forward iteration gives what can be read from the start of the file: of an intact one the items that were pushed, with their offsets, and no error |
| WalFile.WalFile.IterItemsReverse | crates/acorn/src/files/wal.rs:613-617 | on any file on which reverse iteration ends, it gives what the back pointers lead to; on an intact file exactly the reverse of the items |
| BackwardReads.TornReadsBackIff | crates/acorn/src/files/wal.rs:746-760 | of a file that was cut off anywhere, reverse iteration gives the complete items in reverse if and only if the last eight bytes point at the last of them; if there is none, they may also point where nothing can be read |
| BackwardReads.BoundaryReadsBack | crates/acorn/src/files/wal.rs:746-760 | it does so if the cut was between two items |
| BackwardReads.PushedReadsBackIff | crates/acorn/src/files/wal.rs:530-584 | after an item was pushed behind a cut, reverse iteration gives it first, and then the others under the same condition |
| BackwardReads.PushedCircle | crates/acorn/src/files/wal.rs:746-760 | when the last eight bytes of a torn file are its own length, reverse iteration never ends after a push |
| WalFile.ItemsAreBelowTheLimit | crates/acorn/src/files/wal.rs:531-584 | no item the format can hold fills the write buffer |
| LogFiles.FileReadsAsGeneration | crates/acorn/src/page_store/wal.rs:246-261 | reading a generation's file from its start gives the entries of the generation, and its length is the offset of the next item |
| LogFiles.CheckpointFitsIff | crates/acorn/src/files/wal.rs:557-560 | a checkpoint can be logged if and only if 22 bytes for each dirty page and 32 for each transaction come to no more than 65519 |
| CheckpointRoom.RoomIff | crates/acorn/src/page_store/wal.rs:603-644 | in every run without a crash and without word of a flush, the dirty-page table has exactly the pages that were written, and a checkpoint can be logged if and only if these and the unfinished transactions are not too many |
| CheckpointRoom.NoRoomLeft | crates/acorn/src/page_store/wal.rs:149-165 | there are runs that write any number of pages; after 2979 no checkpoint can be logged |
| LogFiles.RunFits | crates/acorn/src/files/wal.rs:530-584 | in every run whose ids, page addresses, generation numbers and file lengths fit, every logged item fits the format |
| LogFiles.EveryScanIsFaithful | crates/acorn/src/page_store/wal.rs:309-331 | in every such run, for every retained generation and every choice of bytes for its checkpoints, the scan of its file finds exactly its entries, forward from the start and backward from the end |
| FreelistPages.PushSlotIs | crates/acorn/src/doc_store/pages.rs:340-345 | pushing on a block adds one slot after the others and leaves kind, link and all other slots alone |
| FreelistPages.PopSlotIs | crates/acorn/src/doc_store/pages.rs:347-359 | taking the last slot of a block leaves the others, the kind and the link |
| FreelistPages.InitBlockIs | crates/acorn/src/doc_store/pages.rs:297-309 | any page becomes an empty block without a link |
| PageAlloc.AfterIsNext | crates/acorn/src/doc_store/page_alloc.rs:87-102 | addresses are counted without a gap, across segments too |
| PageAlloc.PushOnHead | crates/acorn/src/doc_store/page_alloc.rs:34-37 | a slot pushed on the first block is a page pushed on the stack |
| PageAlloc.PopFromHead | crates/acorn/src/doc_store/page_alloc.rs:64-71 | a slot taken from the first block is the top of the stack |
| PageAlloc.TakesBlock | crates/acorn/src/doc_store/page_alloc.rs:73-77 | when the first block is empty, handing it out is taking the top of the stack |
| PageAlloc.FreesToBlock | crates/acorn/src/doc_store/page_alloc.rs:38-61 | making a freed page the first block, of a full list or an empty one, is pushing it on the stack |
| PageAlloc.PageAllocator.Init | crates/acorn/src/doc_store/page_alloc.rs:15-19 | the allocator starts with no free page, no page handed out, and the address after the meta page next |
| PageAlloc.PageAllocator.PopItem | crates/acorn/src/doc_store/pages.rs:347-359 | the newest slot in use, empty ones passed over, or none; an error if and only if the length is beyond the page |
| PageAlloc.PageAllocator.Alloc | crates/acorn/src/doc_store/page_alloc.rs:21-26 | the page freed last, or if none is free the next address in order; no client's page changes; it fails only when all addresses are used |
| PageAlloc.FreeIsSafeIff | crates/acorn/src/doc_store/page_alloc.rs:28-62 | freeing any page, the meta page included, keeps the list and the partition in order if and only if a client holds the page |
| PageAlloc.PageAllocator.Free | crates/acorn/src/doc_store/page_alloc.rs:28-62 | the exact new state for any page, held or not, and the error when the meta page would have to become a block; a page that a client holds goes to the top of the stack, and no other client's page changes |
| AllocRuns.EveryRunIsAStack | crates/acorn/src/doc_store/page_alloc.rs:15-85 | at every point of every run the meta page, the clients' pages and the free pages are exactly the addresses below the counter, without overlap; a page handed out is the one freed last, or the next address if none is free |
| AllocRuns.HeldUntilFreed | crates/acorn/src/doc_store/page_alloc.rs:21-85 | a page that was handed out is not handed out again before it is freed |
| AllocRuns.ClientPagesAreKept | crates/acorn/src/doc_store/page_alloc.rs:21-85 | a page that a client holds keeps its bytes through every operation but the client's own writes |
| Replacer.EvictedResidents | crates/acorn/src/utils/cache.rs:211-245 | an eviction takes the victim out of the two clocks and keeps every other value, without duplicates |
| Replacer.SecondChance | crates/acorn/src/utils/cache.rs:211-245 | the victim's bit was clear whenever any resident's was; items passed over lose their bit, all others keep it |
| Replacer.ReplacedResidents | crates/acorn/src/utils/cache.rs:155-174 | storing a value adds it and drops the victim, and there is a victim if and only if the cache was full |
| Replacer.EveryRunIsOk | crates/acorn/src/utils/cache.rs:147-245 | in every run the clocks are free of duplicates and within the size, and a value is resident if and only if it was stored once more than it was dropped |
| Replacer.HistoryBoundIsKeptIff | crates/acorn/src/utils/cache.rs:199-208 | the bound on clocks and histories survives a store if and only if the value is not found in the history while the bound is used up |
| Replacer.HistoryIsUnbounded | crates/acorn/src/utils/cache.rs:283-300 | there are runs of any length, with two values that take turns in a cache for one, after which clocks and histories hold as many entries as there were stores |
| Replacer.CacheReplacer.AccessClock | crates/acorn/src/utils/cache.rs:59-67 | the bit of the first item with the value is set, and no other; the result says whether there is one |
| Replacer.CacheReplacer.Access | crates/acorn/src/utils/cache.rs:147-151 | a resident, and nothing else, is found, and its bit is set |
| Replacer.CacheReplacer.Evict | crates/acorn/src/utils/cache.rs:211-245 | the loop ends within one more round than there are referenced items, whatever the target size, and arrives at the closed form of an eviction |
| Replacer.CacheReplacer.EvictReplace | crates/acorn/src/utils/cache.rs:155-174 | the new state and the victim are those of the closed form, also when a resident is stored again |
| Segment.DecodeEncode | crates/acorn/src/files/segment.rs:233-301 | a page that was written reads back with its body and its log index, for any checksum function |
| Segment.PagesAreDisjoint | crates/acorn/src/files/segment.rs:223-225 | pages lie after the file header, apart from each other and within the segment |
| Segment.NewFileIsEmpty | crates/acorn/src/files/segment.rs:105-123 | in a new file every page reads as never written |
| Segment.ReadPage | crates/acorn/src/files/segment.rs:378-385 | a read finds what the page was last written with, or zeros and no index |
| Segment.WritePage | crates/acorn/src/files/segment.rs:387-395 | a write changes the one page and leaves the header and all other pages as they are |
| Segment.Batch | crates/acorn/src/files/segment.rs:397-411 | on any file: all writes are done, in order, and the reads are answered up to the first of a damaged page, whose error is returned; on a well-formed file no read fails, and pages and answers are those of the list run in order |
| PhysicalStorage.GroupMeansTheSame | crates/acorn/src/page_store/physical.rs:138-167 | a segment gets the same pages from its own group as from the whole list |
| PhysicalStorage.SameAnswer | crates/acorn/src/page_store/physical.rs:138-167 | a read finds in its group what it would find in the list |
| PhysicalStorage.Grouped | crates/acorn/src/page_store/physical.rs:139-157 | the loop collects for each segment the places of its operations, in order, and knows no other segment |
| PhysicalStorage.PhysicalStorage.UseSegment | crates/acorn/src/page_store/physical.rs:55-70 | the segment's file is open afterwards, and no page of any segment has changed |
| PhysicalStorage.PhysicalStorage.Batch | crates/acorn/src/page_store/physical.rs:138-167 | with the groups run in any order, pages and answers are those of the list run in order |
| PhysicalStorage.DescriptorCache.GetDescriptor | crates/acorn/src/page_store/physical.rs:187-193 | an open file is found, and counts as used; the open files stay the replacer's residents |
| PhysicalStorage.DescriptorCache.StoreDescriptor | crates/acorn/src/page_store/physical.rs:199-212 | the file is open and the replacer's victim closed; the open files stay the replacer's residents |
| PhysicalStorage.OpenFilesAreBounded | crates/acorn/src/page_store/physical.rs:170-185 | no more files are open than configured |
| PageCache.StorePanicsIff | crates/acorn/src/page_store/cache.rs:347-374 | making room for a page panics if and only if the cache is full, and the first victim has no slot; or it is in use, and so are the pages with a clear bit that come next, up to the new page or to one without a slot |
| PageCache.WholePanicsIff | crates/acorn/src/page_store/cache.rs:347-374 | while no slot was given up, it panics if and only if the first victim is in use, and so is every page with a clear bit in front of the new page in the clock |
| PageCache.LostVictimPanics | crates/acorn/src/page_store/cache.rs:347-374 | when the victim is a page that has no slot any more, it panics although no page is in use |
| PageCache.AllReferencedPanics | crates/acorn/src/page_store/cache.rs:347-374 | when every cached page has been referenced and the new one is not in the history, it panics as soon as the first victim is in use, whatever other slots are free |
| PageCache.PanicsWithAFreeSlot | crates/acorn/src/page_store/cache.rs:347-374 | two pages stored and read in a cache of two slots, the first still in use: storing a third panics |
| PageCache.PageCache.EvictFor | crates/acorn/src/page_store/cache.rs:347-374 | the search ends, with the first victim whose slot is free among those in front of the new page, or in a panic; what is returned is replaced by the page in the clocks |
| PageCache.PageCache.GetStoreIndex | crates/acorn/src/page_store/cache.rs:376-406 | the page gets its old slot, the last one that was given up, that of the page the search finds, or the next never used; there is none if and only if the search panics |
| PageCache.PageCache.GetLoadIndex | crates/acorn/src/page_store/cache.rs:408-419 | a cached page, and no other, is found in its slot |
| PageCache.PageCache.Store | crates/acorn/src/page_store/cache.rs:602-618 | the page is put on the dirty list, and a flush asked for when that is long; it fails if and only if the search panics; the page is cached afterwards if and only if it was, or no slot was waiting; pages that stay cached look as they did |
| PageCache.PageCache.Scrap | crates/acorn/src/page_store/cache.rs:645-654 | the page is not cached any more, its slot waits for the next page, and the replacer stays as it is |
| PageCache.PageCache.Flush | crates/acorn/src/page_store/cache.rs:460-522 | what is written are the pages of the list that are cached and dirty, as they are; they are clean after it, whether or not the writes succeed, and the list is emptied if they do |
| PageCache.FlushedIff | crates/acorn/src/page_store/cache.rs:474-492 | a flush writes a page if and only if it is on the list, cached, and dirty |
| PageCache.WriteAfterFlush | crates/acorn/src/page_store/cache.rs:474-492 | a cached page that is written after a flush is dirty, and the next flush does not write it |
| PageCache.FlushAfterFailure | crates/acorn/src/page_store/cache.rs:509-519 | after a flush whose writes failed, the next flush writes nothing |
| PageCache.ScrapThenPanic | crates/acorn/src/page_store/cache.rs:376-406 | in a cache of two slots: after a page was given up, the next page stored is not cached, and a later one panics with no page in use |
| PageCache.PageCache.Write | crates/acorn/src/page_store/cache.rs:259-264 | the bytes, the index and the dirty mark of one page change, and no other cached page does |
| PageCache.WaitMoves | crates/acorn/src/page_store/cache.rs:352-372 | whenever a victim is put back, the page being stored is the next victim, or moves up past that victim and all in front of it, and what is between stays |

## Left out

- Atomicity.PageStoreIsAtomic: assumes of each undo and recovery in the run that its scan reaches every non-empty write it has to undo, because the original does not roll back otherwise; `Rollback.UndoIsExactIff` shows that this is exactly what is needed, and `Ledger.EveryRunIsBooked` says without it what every run does. Like all theorems over runs, it is about runs in which each recovery can restore what is logged (`Engine.CanRecover`); `RecoverSteps.RecoverKeepsIff` shows that this is exactly what is needed.
- Atomicity.EveryRunRefines: makes the same two assumptions.
- Atomicity.StepRefines: makes them of the one step; `Ledger.StepIs` makes the second only.
- Atomicity.RecoverEffect: makes them of the recovery; `Atomicity.RecoverLeavesIff` makes neither.
- Atomicity.RecoverLeaves: makes the second; `Atomicity.RecoverLeavesIff` does not.
- PageStorage.RecoveryIsCorrect: makes both.
- RecoverSteps.StepKeeps: is about recoveries that can restore what is logged, by the guard of the step.
- Atomicity.EveryRunKeeps: is about runs of such recoveries.
- Atomicity.EveryRunRetains: is about such runs, and runs that rotate only while the store is up.
- Atomicity.EveryRunCanRebuild: the same.
- Ledger.EveryRunIsBooked: the same; `Durability.CarefulRunsRecover` has a condition on the steps alone that is enough.
- Rollback.HistoryIsWellFormed: the same.
- LogFiles.RunFits: the same.
- LogFiles.EveryScanIsFaithful: the same.
- Durability.CarefulRunsRecover: asks for a flush of all pages before each rotation and for a checkpoint in the generation that is recovered from.
- What a store is like after a recovery that could not restore what is logged, beyond `RecoverSteps.RecoveryIsExactIff` and `Atomicity.RecoverLeavesIff`: the state machine has no such step.
- WalFile.WalFile.IterItemsReverse: says nothing of files on which it never ends.
- A crash in the middle of an undo.
- The checks of the generic file header of a log file.
- Eviction of pages from the cache of the page store: an evicted page that is dirty is not written back, so the state machine has no such step. Its cache only grows, and its flush may write any page at any time; `PageCache` has the evictions and the list of dirty pages.
- A page is flushed in one go: what happens to it between the write and the mark that it is clean is not modelled, nor are pages that are put on the list in the meantime.
- `cache_did_flush` is an optional step; nothing in the repository calls it.
- Threads, timers, locks as such, and waiting for them: a write guard is the fact that no other transaction writes the page until its holder ends. Checkpoints and flushes started in the background are separate steps.
- Transaction objects: their methods are methods of `PageStorage` with the transaction id as an argument. Ids and generation numbers never run out, and the limit on the number of transactions is not modelled.
- I/O errors, except where a file's content is at fault, and except for the writes of a flush.
- The readers of the log are not used any more after an error.
- `document.rs`, `document_repr.rs` and the pages that hold records.
