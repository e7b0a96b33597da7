/** The page store as a state machine: pages in memory and on disk, page locks, transactions, and the log. */
module Engine {
  import opened Bytes
  import opened WalTypes
  import opened Tables
  import opened History
  import opened WalModel

  // ----- pages -----

  datatype Pages = Pages(cache: map<PageAddress, seq<byte>>, disk: map<PageAddress, seq<byte>>)

  function OnDisk(pages: Pages, p: PageAddress): seq<byte> {
    if p in pages.disk then pages.disk[p] else ZeroPage()
  }

  /** What a reader sees: the cached page, or else the one on disk. */
  function View(pages: Pages, p: PageAddress): seq<byte> {
    if p in pages.cache then pages.cache[p] else OnDisk(pages, p)
  }

  function CacheWrite(pages: Pages, op: PartialWriteOp): Pages {
    pages.(cache := pages.cache[op.page := Overlay(View(pages, op.page), op.offset, op.buf)])
  }

  /** A write during recovery goes to the cache and on to the disk. */
  function WriteThrough(pages: Pages, op: PartialWriteOp): Pages {
    var written := CacheWrite(pages, op);
    written.(disk := written.disk[op.page := View(written, op.page)])
  }

  function CacheWriteAll(pages: Pages, ops: seq<PartialWriteOp>): Pages {
    if ops == [] then pages else CacheWrite(CacheWriteAll(pages, ops[..|ops| - 1]), ops[|ops| - 1])
  }

  function WriteThroughAll(pages: Pages, ops: seq<PartialWriteOp>): Pages {
    if ops == [] then pages else WriteThrough(WriteThroughAll(pages, ops[..|ops| - 1]), ops[|ops| - 1])
  }

  // ----- the machine -----

  datatype Engine = Engine(
    wal: Wal,
    pages: Pages,
    locks: map<PageAddress, nat>,  // the transaction holding each page's write guard
    active: set<nat>,              // the transactions in progress
    nextTid: nat,
    running: bool)                 // false between a crash and the recovery that follows it

  datatype Step =
    | Begin
    | WritePage(t: nat, p: PageAddress, offset: nat, buf: seq<byte>)
    | CommitTransaction(t: nat)
    | UndoTransaction(t: nat)
    | RotateLog
    | LogCheckpoint
    | FlushPage(p: PageAddress)
    | CacheDidFlush
    | Crash
    | CrashInRedo(scanned: nat)    // a recovery that ends in a crash after redo has looked at that many items
    | Recover(tids: seq<nat>)      // the unfinished transactions, in the order the table lists them

  function Unlock(locks: map<PageAddress, nat>, t: nat): map<PageAddress, nat> {
    map p | p in locks && locks[p] != t :: locks[p]
  }

  function EngineWrite(e: Engine, t: nat, p: PageAddress, offset: nat, buf: seq<byte>): Engine
    requires e.wal.gens != [] && offset + |buf| <= |View(e.pages, p)|
  {
    var item := WriteItem(e.wal, t, p, offset, View(e.pages, p)[offset..offset + |buf|], buf);
    e.(wal := Push(e.wal, item),
    pages := CacheWrite(e.pages, PartialWriteOp(NextIndex(e.wal), p, offset, buf)),
    locks := e.locks[p := t])
  }

  function EngineCommit(e: Engine, t: nat): Engine
    requires e.wal.gens != []
  {
    e.(wal := Push(e.wal, CommitItem(e.wal, t)), locks := Unlock(e.locks, t), active := e.active - {t})
  }

  function EngineUndo(e: Engine, t: nat): Engine
    requires e.wal.gens != []
  {
    e.(wal := UndoAll(e.wal, [t]),
    pages := CacheWriteAll(e.pages, UndoOps(e.wal, UndoPlan(e.wal, [t]))),
    locks := Unlock(e.locks, t), active := e.active - {t})
  }

  function EngineRecover(e: Engine, tids: seq<nat>): Engine
    requires e.wal.gens != []
  {
    e.(wal := UndoAll(Reload(e.wal), tids),
    pages := WriteThroughAll(e.pages, RecoverOps(e.wal, tids)),
    running := true)
  }

  function EngineCrashInRedo(e: Engine, scanned: nat): Engine
    requires e.wal.gens != [] && scanned <= |Current(e.wal)|
  {
    var ops := RedoOps(Current(e.wal)[..scanned], Reload(e.wal).tables.dirtyPages);
    e.(pages := Pages(map[], WriteThroughAll(e.pages, ops).disk))
  }

  function EngineStep(e: Engine, s: Step): Engine
    requires e.wal.gens != [] && (s.CrashInRedo? ==> s.scanned <= |Current(e.wal)|)
    requires s.WritePage? ==> s.offset + |s.buf| <= |View(e.pages, s.p)|
  {
    match s
    case Begin => e.(active := e.active + {e.nextTid}, nextTid := e.nextTid + 1)
    case WritePage(t, p, offset, buf) => EngineWrite(e, t, p, offset, buf)
    case CommitTransaction(t) => EngineCommit(e, t)
    case UndoTransaction(t) => EngineUndo(e, t)
    case RotateLog => e.(wal := Rotate(e.wal))
    case LogCheckpoint => e.(wal := Push(e.wal, CheckpointItem(e.wal)))
    case FlushPage(p) => e.(pages := e.pages.(disk := e.pages.disk[p := View(e.pages, p)]))
    case CacheDidFlush =>
      e.(pages := e.pages.(disk := e.pages.disk + e.pages.cache),
      wal := e.wal.(tables := e.wal.tables.(dirtyPages := map[])))
    case Crash => Engine(e.wal.(tables := EMPTY), e.pages.(cache := map[]), map[], {}, 0, false)
    case CrashInRedo(scanned) => EngineCrashInRedo(e, scanned)
    case Recover(tids) => EngineRecover(e, tids)
  }

  /** A run of the machine: its state, with everything that was ever logged. `archived` holds the items of deleted
      generations, `base` the pages as they were before the first item, and `sessionStart` the place in the log at
      which the transaction ids in use started to be given out. */
  datatype Run = Run(engine: Engine, archived: seq<Entry>, base: PageAddress -> seq<byte>, sessionStart: nat)

  function HistoryOf(r: Run): seq<Entry> {
    r.archived + Flatten(r.engine.wal.gens)
  }

  function Current(w: Wal): seq<Entry>
    requires w.gens != []
  {
    Entries(Last(w.gens))
  }

  /** The entries of all generations before the current one, the deleted ones included. */
  function Older(r: Run): seq<Entry>
    requires r.engine.wal.gens != []
  {
    r.archived + Flatten(r.engine.wal.gens[..|r.engine.wal.gens| - 1])
  }

  function Next(r: Run, s: Step): Run
    requires r.engine.wal.gens != [] && (s.CrashInRedo? ==> s.scanned <= |Current(r.engine.wal)|)
    requires s.WritePage? ==> s.offset + |s.buf| <= |View(r.engine.pages, s.p)|
  {
    var next := r.(engine := EngineStep(r.engine, s));
    match s
    case RotateLog =>
      RotateShape(r.engine.wal);
      next.(archived := r.archived + Flatten(r.engine.wal.gens[..Deleted(r.engine.wal)]))
    case Recover(_) => next.(sessionStart := |HistoryOf(next)|)
    case _ => next
  }

  ghost predicate Enumerates(tids: seq<nat>, transactions: map<nat, TransactionState>) {
    AsSet(tids) == transactions.Keys
  }

  /** Every write that generations before the current one hold has reached the disk. Different bytes of a page may come
      from different moments, as a redo that was interrupted leaves them. */
  ghost predicate OlderOnDisk(r: Run) {
    forall p :: OlderOnDiskAt(r, p)
  }

  ghost predicate OlderOnDiskAt(r: Run, p: PageAddress) {
    var log := HistoryOf(r);
    exists k ::
      && 0 <= k <= |log| && ReflectsFrom(r.base(p), OnDisk(r.engine.pages, p), log, k, p)
      && forall i :: k <= i < |log| && log[i].WritesTo(p) ==> log[i].index.generation == r.engine.wal.currentGenNum
  }

  /** A checkpoint is logged in one item; the original panics when the tables have grown beyond that. */
  predicate CheckpointHasRoom(tables: Tables) {
    22 * |tables.dirtyPages| + 32 * |tables.transactions| <= 65519
  }

  // ----- when a recovery restores the pages -----

  /** The store is down, and a recovery would take `tids` for the unfinished transactions. */
  ghost predicate IsDown(r: Run, tids: seq<nat>) {
    !r.engine.running && r.engine.wal.gens != [] && Enumerates(tids, Reload(r.engine.wal).tables.transactions)
  }

  /** Redo replays a write of byte `i` of page `p`. It reads the current generation only. */
  ghost predicate Replays(w: Wal, p: PageAddress, i: nat)
    requires w.gens != []
  {
    exists k :: 0 <= k < |Current(w)| && Replayed(Current(w)[k], Reload(w).tables.dirtyPages)
                && SetsByte(Current(w)[k], p, i)
  }

  /** Undo puts a before-image over byte `i` of page `p`. */
  ghost predicate TakesBack(w: Wal, tids: seq<nat>, p: PageAddress, i: nat) {
    exists k :: 0 <= k < |UndoPlan(w, tids)| && CoversByte(UndoPlan(w, tids)[k], p, i)
  }

  ghost predicate CoversByte(c: Compensation, p: PageAddress, i: nat) {
    c.page == p && c.offset <= i < c.offset + |c.to|
  }

  /** Byte `i` of page `p` is on the disk as the log has it. */
  ghost predicate OnDiskAsLogged(r: Run, p: PageAddress, i: nat) {
    var disk := OnDisk(r.engine.pages, p);
    i < |disk| == |r.base(p)| && disk[i] == Content(r.base(p), HistoryOf(r), p)[i]
  }

  ghost predicate RedoReaches(r: Run, p: PageAddress)
    requires r.engine.wal.gens != []
  {
    forall i: nat :: i < |r.base(p)| && !Replays(r.engine.wal, p, i) ==> OnDiskAsLogged(r, p, i)
  }

  ghost predicate RecoveryReaches(r: Run, tids: seq<nat>, p: PageAddress)
    requires r.engine.wal.gens != []
  {
    forall i: nat :: i < |r.base(p)| && !Replays(r.engine.wal, p, i) && !TakesBack(Reload(r.engine.wal), tids, p, i) ==>
                       OnDiskAsLogged(r, p, i)
  }

  /** The current generation tells which transactions are unfinished. */
  ghost predicate KnowsLosers(r: Run)
    requires r.engine.wal.gens != []
  {
    Reload(r.engine.wal).tables.transactions.Keys == Replay(EMPTY, HistoryOf(r)).transactions.Keys
  }

  ghost predicate CanRecover(r: Run, tids: seq<nat>) {
    IsDown(r, tids) && KnowsLosers(r) && forall p :: RecoveryReaches(r, tids, p)
  }

  /** When a step can be taken. A transaction writes only pages it can lock, and a recovery is one that can restore what
      the log says: the original recovers in any case. */
  ghost predicate Enabled(r: Run, s: Step) {
    var e := r.engine;
    match s
    case Begin => e.running
    case WritePage(t, p, offset, buf) =>
      && e.running && t in e.active && (p in e.locks ==> e.locks[p] == t)
      && offset + |buf| <= PAGE_BODY_SIZE
    case CommitTransaction(t) => e.running && t in e.active
    case UndoTransaction(t) => e.running && t in e.active
    case RotateLog => e.running
    case LogCheckpoint => e.running && CheckpointHasRoom(e.wal.tables)
    case FlushPage(p) => e.running
    case CacheDidFlush => e.running
    case Crash => true
    case CrashInRedo(scanned) => !e.running && e.wal.gens != [] && scanned <= |Current(e.wal)|
    case Recover(tids) => CanRecover(r, tids)
  }

  /** A new store: one empty generation, then its checkpoint. */
  function Created(disk: map<PageAddress, seq<byte>>): Engine {
    var wal := Wal([Generation(0, [], FILE_HEADER_SIZE)], 0, EMPTY);
    Engine(Push(wal, CheckpointItem(wal)), Pages(map[], disk), map[], {}, 0, true)
  }

  function Start(disk: map<PageAddress, seq<byte>>): Run {
    Run(Created(disk), [], p => OnDisk(Pages(map[], disk), p), 0)
  }
}
