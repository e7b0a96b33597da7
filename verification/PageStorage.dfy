/** The page store as an object. */
module PageStorage {
  // Transactions that write pages through the log, and recovery. Each method is a step of the state machine, so that
  // what is proved of the machine holds of the object.

  import opened Bytes
  import opened WalTypes
  import opened Tables
  import opened History
  import opened WalModel
  import opened Engine
  import opened Invariant
  import opened Steps
  import opened UndoSteps
  import opened RecoverSteps
  import opened Atomicity
  import WalObject = Wal

  /** The state a step leads to; the invariant comes with it. */
  ghost function Stepped(r: Run, s: Step): (r': Run)
    requires Inv(r) && Enabled(r, s)
    ensures Inv(r')
  {
    StepKeeps(r, s);
    Next(r, s)
  }

  predicate LockedBy(locks: map<PageAddress, nat>, p: PageAddress, t: nat) {
    p in locks && locks[p] == t
  }

  predicate AllLocked(locks: map<PageAddress, nat>, ops: seq<PartialWriteOp>, t: nat) {
    forall k :: 0 <= k < |ops| ==> LockedBy(locks, ops[k].page, t)
  }

  lemma UndoneIsLocked(r: Run, t: nat, ops: seq<PartialWriteOp>, undone: seq<Entry>)
    requires LockInv(r) && r.engine.running && OpsAre(ops, undone) && UndoneIsLive(HistoryOf(r), undone, [t])
    ensures AllLocked(r.engine.locks, ops, t)
  {
    forall k | 0 <= k < |ops| ensures LockedBy(r.engine.locks, ops[k].page, t) {
      assert OpIs(ops[k], undone[k]);
    }
  }

  /** Undoing a transaction asks only for writes to pages that the transaction has locked. */
  lemma UndoStaysInItsLocks(r: Run, t: nat)
    requires Inv(r) && Enabled(r, UndoTransaction(t))
    ensures AllLocked(r.engine.locks, UndoOps(r.engine.wal, UndoPlan(r.engine.wal, [t])), t)
  {
    var w := r.engine.wal;
    LowestIsLeast(w.tables.transactions, [t]);
    if t in w.tables.transactions {
      UndoIsUndoes(r, t);
      var undone, commits := UndoAppends(r, Next(r, UndoTransaction(t)), [t]);
      UndoOpsAre(w, UndoPlan(w, [t]), undone);
      UndoneIsLocked(r, t, UndoOps(w, UndoPlan(w, [t])), undone);
    }
  }

  lemma SteppedIs(r: Run, s: Step)
    requires Inv(r) && Enabled(r, s)
    ensures r.engine.wal.gens != [] && QueueOk(r.engine.wal)
    ensures s.WritePage? ==> s.offset + |s.buf| <= |View(r.engine.pages, s.p)|
    ensures Stepped(r, s) == Next(r, s)
  {
    StepKeeps(r, s);
  }

  class PageStorage {
    const wal: WalObject.Wal
    var cache: map<PageAddress, seq<byte>>
    var disk: map<PageAddress, seq<byte>>
    var locks: map<PageAddress, nat>
    var active: set<nat>
    var nextTid: nat
    var running: bool
    ghost var archived: seq<Entry>
    ghost var base: PageAddress -> seq<byte>
    ghost var sessionStart: nat

    ghost function Model(): Engine
      reads this, wal, wal.state, wal.gens
    {
      Engine(wal.Model(), Pages(cache, disk), locks, active, nextTid, running)
    }

    ghost function TheRun(): Run
      reads this, wal, wal.state, wal.gens
    {
      Run(Model(), archived, base, sessionStart)
    }

    ghost predicate Valid()
      reads this, wal, wal.state, wal.gens
    {
      wal.Valid() && wal.gens.generations != [] && Inv(TheRun())
    }

    constructor Create(disk: map<PageAddress, seq<byte>>, maxGenerationSize: nat)
      requires WellSized(disk)
      ensures Valid() && TheRun() == Start(disk)
    {
      wal := new WalObject.Wal.Create(maxGenerationSize);
      this.disk := disk;
      cache, locks, active, nextTid, running := map[], map[], {}, 0, true;
      archived, base, sessionStart := [], Start(disk).base, 0;
      new;
      assert TheRun() == Start(disk);
      assert Inv(TheRun()) by { StartKeeps(disk); }
    }

    /** The content of a page: cached, or loaded from disk. */
    method LoadPage(p: PageAddress) returns (page: seq<byte>)
      ensures page == View(Pages(cache, disk), p)
    {
      page := if p in cache then cache[p] else if p in disk then disk[p] else ZeroPage();
    }

    /** A reader of a running store sees the content the whole history gives the page. */
    method ReadPage(p: PageAddress, offset: nat, length: nat) returns (buf: seq<byte>)
      requires Valid() && running && offset + length <= PAGE_BODY_SIZE
      ensures |Content(base(p), HistoryOf(TheRun()), p)| == PAGE_BODY_SIZE
      ensures buf == Content(base(p), HistoryOf(TheRun()), p)[offset..offset + length]
    {
      WriteFits(TheRun(), p);
      var page := LoadPage(p);
      assert page == Content(base(p), HistoryOf(TheRun()), p);
      buf := page[offset..offset + length];
    }

    method Begin() returns (t: nat)
      requires Valid() && running
      modifies this
      ensures Valid() && TheRun() == Stepped(old(TheRun()), Step.Begin)
      ensures t == old(nextTid) && t in active
    {
      ghost var r' := Stepped(TheRun(), Step.Begin);
      t := nextTid;
      nextTid, active := nextTid + 1, active + {nextTid};
      assert TheRun() == r';
    }

    /** Logs the old and the new bytes, then changes the page. */
    method LogAndWrite(t: nat, p: PageAddress, offset: nat, buf: seq<byte>)
      requires wal.Valid() && wal.gens.generations != [] && offset + |buf| <= |View(Pages(cache, disk), p)|
      modifies this, wal.state, wal.gens
      ensures wal.Valid() && Model() == EngineWrite(old(Model()), t, p, offset, buf)
      ensures archived == old(archived) && base == old(base) && sessionStart == old(sessionStart)
    {
      var page := LoadPage(p);
      var _ := wal.LogWrite(t, p, offset, page[offset..offset + |buf|], buf);
      cache := cache[p := Overlay(page, offset, buf)];
      locks := locks[p := t];
    }

    method Write(t: nat, p: PageAddress, offset: nat, buf: seq<byte>)
      requires Valid() && Enabled(TheRun(), WritePage(t, p, offset, buf))
      modifies this, wal.state, wal.gens
      ensures Valid() && TheRun() == Stepped(old(TheRun()), WritePage(t, p, offset, buf))
    {
      SteppedIs(TheRun(), WritePage(t, p, offset, buf));
      LogAndWrite(t, p, offset, buf);
    }

    method ReleaseLocks(t: nat)
      modifies this`locks, this`active
      ensures locks == Unlock(old(locks), t) && active == old(active) - {t}
    {
      locks, active := Unlock(locks, t), active - {t};
    }

    method LogAndRelease(t: nat)
      requires wal.Valid() && wal.gens.generations != []
      modifies this, wal.state, wal.gens
      ensures wal.Valid() && Model() == EngineCommit(old(Model()), t)
      ensures archived == old(archived) && base == old(base) && sessionStart == old(sessionStart)
    {
      var _ := wal.LogCommit(t);
      ReleaseLocks(t);
    }

    method Commit(t: nat)
      requires Valid() && Enabled(TheRun(), CommitTransaction(t))
      modifies this, wal.state, wal.gens
      ensures Valid() && TheRun() == Stepped(old(TheRun()), CommitTransaction(t))
    {
      SteppedIs(TheRun(), CommitTransaction(t));
      LogAndRelease(t);
    }

    /** Applies the log's requests to the pages of `t`; each of them is locked by `t`. */
    method ApplyUndo(t: nat, ops: seq<PartialWriteOp>)
      requires AllLocked(locks, ops, t)
      modifies this`cache
      ensures Pages(cache, disk) == CacheWriteAll(old(Pages(cache, disk)), ops)
    {
      for i := 0 to |ops|
        invariant Pages(cache, disk) == CacheWriteAll(old(Pages(cache, disk)), ops[..i])
      {
        assert ops[..i + 1][..i] == ops[..i];
        var page := LoadPage(ops[i].page);
        cache := cache[ops[i].page := Overlay(page, ops[i].offset, ops[i].buf)];
      }
      assert ops[..|ops|] == ops;
    }

    /** Undoes through the locks `t` holds; a request for any other page would be a fault. */
    method UndoPages(t: nat, ghost w: Wal)
      requires wal.Valid() && wal.gens.generations != [] && w == wal.Model()
      requires AllLocked(locks, UndoOps(w, UndoPlan(w, [t])), t)
      modifies this`cache, wal.state, wal.gens
      ensures wal.Valid() && wal.Model() == UndoAll(w, [t])
      ensures Pages(cache, disk) == CacheWriteAll(old(Pages(cache, disk)), UndoOps(w, UndoPlan(w, [t])))
    {
      var _, ops := wal.UndoAll([t]);
      ApplyUndo(t, ops);
    }

    method UndoAndRelease(t: nat)
      requires wal.Valid() && wal.gens.generations != []
      requires AllLocked(locks, UndoOps(wal.Model(), UndoPlan(wal.Model(), [t])), t)
      modifies this, wal.state, wal.gens
      ensures wal.Valid() && Model() == EngineUndo(old(Model()), t)
      ensures archived == old(archived) && base == old(base) && sessionStart == old(sessionStart)
    {
      UndoPages(t, wal.Model());
      ReleaseLocks(t);
    }

    method Undo(t: nat)
      requires Valid() && Enabled(TheRun(), UndoTransaction(t))
      modifies this, wal.state, wal.gens
      ensures Valid() && TheRun() == Stepped(old(TheRun()), UndoTransaction(t))
    {
      SteppedIs(TheRun(), UndoTransaction(t));
      UndoStaysInItsLocks(TheRun(), t);
      UndoAndRelease(t);
    }

    method Rotate()
      requires Valid() && running
      modifies this, wal.gens
      ensures Valid() && TheRun() == Stepped(old(TheRun()), RotateLog)
    {
      ghost var r' := Stepped(TheRun(), RotateLog);
      ghost var archived' := r'.archived;
      var _ := wal.Rotate();
      archived := archived';
      assert TheRun() == r';
    }

    method LogTables()
      requires wal.Valid() && wal.gens.generations != []
      modifies wal.gens
      ensures wal.Valid() && Model() == old(Model()).(wal := Push(old(wal.Model()), CheckpointItem(old(wal.Model()))))
    {
      var _ := wal.LogCheckpoint();
    }

    method Checkpoint()
      requires Valid() && Enabled(TheRun(), Step.LogCheckpoint)
      modifies this, wal.gens
      ensures Valid() && TheRun() == Stepped(old(TheRun()), Step.LogCheckpoint)
    {
      SteppedIs(TheRun(), Step.LogCheckpoint);
      LogTables();
    }

    method Flush(p: PageAddress)
      requires Valid() && running
      modifies this
      ensures Valid() && TheRun() == Stepped(old(TheRun()), Step.FlushPage(p))
    {
      ghost var r' := Stepped(TheRun(), Step.FlushPage(p));
      var page := LoadPage(p);
      disk := disk[p := page];
      assert TheRun() == r';
    }

    /** Everything in the cache is on disk, and the log may forget which pages were dirty. */
    method FlushAll()
      requires Valid() && running
      modifies this, wal.state
      ensures Valid() && TheRun() == Stepped(old(TheRun()), Step.CacheDidFlush)
    {
      ghost var r' := Stepped(TheRun(), Step.CacheDidFlush);
      disk := disk + cache;
      wal.state.CacheDidFlush();
      assert TheRun() == r';
    }

    /** A process that opens the store after a crash: the files are as they were left, and memory is empty. */
    method Reopen()
      requires Valid()
      modifies this, wal.state
      ensures Valid() && TheRun() == Stepped(old(TheRun()), Step.Crash)
    {
      ghost var r' := Stepped(TheRun(), Step.Crash);
      wal.state.dirtyPages, wal.state.transactions := map[], map[];
      cache, locks, active, nextTid, running := map[], map[], {}, 0, false;
      assert TheRun() == r';
    }

    method ApplyRecovery(ops: seq<PartialWriteOp>)
      modifies this`cache, this`disk
      ensures Pages(cache, disk) == WriteThroughAll(old(Pages(cache, disk)), ops)
    {
      for i := 0 to |ops|
        invariant Pages(cache, disk) == WriteThroughAll(old(Pages(cache, disk)), ops[..i])
      {
        assert ops[..i + 1][..i] == ops[..i];
        var page := LoadPage(ops[i].page);
        cache := cache[ops[i].page := Overlay(page, ops[i].offset, ops[i].buf)];
        disk := disk[ops[i].page := cache[ops[i].page]];
      }
      assert ops[..|ops|] == ops;
    }

    method RedoAndUndo() returns (tids: seq<nat>)
      requires wal.Valid() && wal.gens.generations != []
      modifies this, wal.state, wal.gens
      ensures wal.Valid() && AsSet(tids) == Reload(old(wal.Model())).tables.transactions.Keys
      ensures Model() == EngineRecover(old(Model()), tids)
      ensures archived == old(archived) && base == old(base) && sessionStart == old(sessionStart)
    {
      var _, ops, tids' := wal.Recover();
      tids := tids';
      ApplyRecovery(ops);
      running := true;
    }

    /** Recovers a store that is down, whatever is on its disk, and returns the transactions that were taken for
        unfinished. The store is valid afterwards if and only if the recovery could restore what the log says. */
    method Recover() returns (tids: seq<nat>)
      requires Valid() && !running
      modifies this, wal.state, wal.gens
      ensures IsDown(old(TheRun()), tids) && wal.Valid()
      ensures TheRun() == Recovery(old(TheRun()), tids)
      ensures Valid() <==> CanRecover(old(TheRun()), tids)
    {
      ghost var r := TheRun();
      tids := RedoAndUndo();
      sessionStart := Recovery(r, tids).sessionStart;
      assert TheRun() == Recovery(r, tids);
      RecoverKeepsIff(r, tids);
    }
  }

  ghost function Recovery(r: Run, tids: seq<nat>): Run {
    if r.engine.wal.gens == [] then r else Next(r, Step.Recover(tids))
  }

  /** What a recovery achieves when the undo scan reaches every unfinished write: each page comes out exactly as the
      completed transactions left it, in memory and on disk, and no transaction is left unfinished. */
  lemma RecoveryIsCorrect(r: Run, tids: seq<nat>)
    requires Inv(r) && Enabled(r, Step.Recover(tids)) && ScanReaches(HistoryOf(r), tids)
    ensures Stepped(r, Step.Recover(tids)).engine.wal.tables.transactions == map[]
    ensures forall p :: RecoveredAt(r, Stepped(r, Step.Recover(tids)).engine.pages, p)
  {
    var r' := Stepped(r, Step.Recover(tids));
    forall p ensures r'.engine.wal.tables.transactions == map[] && RecoveredAt(r, r'.engine.pages, p) {
      RecoverEffect(r, tids, p);
    }
    RecoverEffect(r, tids, PageAddress(0, 1));
  }

  /** Page `p` holds exactly what the completed transactions of `r` had written. */
  ghost predicate RecoveredAt(r: Run, pages: Pages, p: PageAddress) {
    View(pages, p) == Settled(r.base(p), HistoryOf(r), p, {}) && OnDisk(pages, p) == View(pages, p)
  }
}
