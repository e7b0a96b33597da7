/** Every step but undo and recovery keeps the invariant: beginning, writing, committing, rotating the log, logging a
    checkpoint, writing pages to the disk, and crashing. The tables in memory and the ones a recovery would rebuild
    are followed side by side. */
module Steps {
  import opened Bytes
  import opened WalTypes
  import opened Tables
  import opened History
  import opened WalModel
  import opened Engine
  import opened Invariant

  // ----- steps that log one item -----

  /** Logging a write keeps the lock discipline when only its own transaction has an unfinished write on the page. */
  lemma LocksHeldAppend(log: seq<Entry>, e: Entry)
    requires LocksHeld(log)
    requires e.item.Write? ==> forall i :: LiveAt(log, i) && log[i].item.page == e.item.page ==>
                                             log[i].item.tid == e.item.tid
    ensures LocksHeld(log + [e])
  {
    var next := log + [e];
    forall i, j | 0 <= i < j < |next| && next[i].item.Write? && next[j].WritesTo(next[i].item.page)
                  && next[i].item.tid != next[j].item.tid
      ensures CommittedBetween(next, i, j)
    {
      if j < |log| {
        assert CommittedBetween(log, i, j);
        var k :| i < k < j && log[k].IsCommitOf(log[i].item.tid);
        assert next[k].IsCommitOf(next[i].item.tid);
      } else {
        assert !LiveAt(log, i);
        var k :| i < k < |log| && log[k].IsCommitOf(log[i].item.tid);
        assert next[k].IsCommitOf(next[i].item.tid);
      }
    }
  }

  lemma BeginKeeps(r: Run)
    requires Inv(r) && Enabled(r, Begin)
    ensures Inv(Next(r, Begin))
  {
    SameLogKeeps(r, Next(r, Begin));
  }

  /** The parts of the invariant that speak of the log and the tables, for a step that leaves both alone. */
  lemma SameLogKeeps(r: Run, r': Run)
    requires LogInv(r) && TableInv(r) && DirtyInv(r)
    requires r'.engine.wal == r.engine.wal && r'.engine.pages.disk == r.engine.pages.disk
    requires r'.archived == r.archived && r'.base == r.base && r'.engine.running == r.engine.running
    ensures HistoryOf(r') == HistoryOf(r) && LogInv(r') && TableInv(r') && DirtyInv(r')
  {
    forall p, dirtyPages | DiskCovers(r, p, dirtyPages) ensures DiskCovers(r', p, dirtyPages) {
      DiskCoversStill(r, r', p, dirtyPages);
    }
  }

  /** `r'` is `r` after logging `e` and changing nothing else of the log. */
  ghost predicate Logs(r: Run, r': Run, e: Entry) {
    && QueueOk(r.engine.wal) && r'.engine.wal == Push(r.engine.wal, e.item) && e.index == NextIndex(r.engine.wal)
    && r'.archived == r.archived && r'.base == r.base && r'.sessionStart == r.sessionStart
    && r'.engine.pages.disk == r.engine.pages.disk && r.engine.running && r'.engine.running
  }

  lemma LoggedHistory(r: Run, r': Run, e: Entry)
    requires Logs(r, r', e)
    ensures Extends(r.engine.wal, r'.engine.wal, [e])
    ensures HistoryOf(r') == HistoryOf(r) + [e] && HistoryOf(r')[..|HistoryOf(r)|] == HistoryOf(r)
  {
    PushExtends(r.engine.wal, e.item);
    HistoryExtends(r, r', [e]);
  }

  lemma LoggedLog(r: Run, r': Run, e: Entry)
    requires LogInv(r) && Logs(r, r', e)
    requires e.item.Write? ==>
               && e.item.from.Some?
               && (forall i :: LiveAt(HistoryOf(r), i) && HistoryOf(r)[i].item.page == e.item.page
                               ==> HistoryOf(r)[i].item.tid == e.item.tid)
               && TrueImage(r.base, HistoryOf(r) + [e], |HistoryOf(r)|)
    ensures LogInv(r')
  {
    LoggedHistory(r, r', e);
    LocksHeldAppend(HistoryOf(r), e);
    LogInvAppend(r, r', [e]);
  }

  lemma LoggedTables(r: Run, r': Run, e: Entry)
    requires TableInv(r) && DirtyInv(r) && Logs(r, r', e)
    requires !e.item.Checkpoint? || HasCheckpoint(Current(r.engine.wal))
    ensures TableInv(r') && DirtyInv(r')
  {
    LoggedHistory(r, r', e);
    TableInvAppend(r, r', [e]);
    DirtyInvAppend(r, r', [e]);
  }

  lemma LoggedPages(r: Run, r': Run, e: Entry)
    requires PageInv(r) && Logs(r, r', e)
    requires forall p :: View(r'.engine.pages, p) == Patch(View(r.engine.pages, p), e, p)
    ensures PageInv(r')
  {
    LoggedHistory(r, r', e);
    forall p ensures View(r'.engine.pages, p) == Content(r.base(p), HistoryOf(r'), p)
                     && |r.base(p)| == PAGE_BODY_SIZE && |OnDisk(r'.engine.pages, p)| == PAGE_BODY_SIZE
    {
      assert |r.base(p)| == PAGE_BODY_SIZE && |OnDisk(r.engine.pages, p)| == PAGE_BODY_SIZE;
      ContentAppend(r.base(p), HistoryOf(r), e, p);
    }
  }

  lemma LoggedLocks(r: Run, r': Run, e: Entry)
    requires LockInv(r) && Logs(r, r', e)
    requires forall i :: LiveAt(HistoryOf(r), i) && !e.IsCommitOf(HistoryOf(r)[i].item.tid) ==>
                           var item := HistoryOf(r)[i].item;
                           item.page in r'.engine.locks && r'.engine.locks[item.page] == r.engine.locks[item.page]
    requires e.item.Write? ==> e.item.page in r'.engine.locks && r'.engine.locks[e.item.page] == e.item.tid
    ensures LockInv(r')
  {
    LoggedHistory(r, r', e);
    forall i | LiveAt(HistoryOf(r'), i) ensures LiveAt(HistoryOf(r), i) || i == |HistoryOf(r)| {
      LiveAfterAppend(HistoryOf(r), e, i);
    }
    forall i | LiveAt(HistoryOf(r'), i)
      ensures HistoryOf(r')[i].item.page in r'.engine.locks
              && r'.engine.locks[HistoryOf(r')[i].item.page] == HistoryOf(r')[i].item.tid
    {
      LiveAfterAppend(HistoryOf(r), e, i);
    }
  }

  lemma LoggedSession(r: Run, r': Run, e: Entry)
    requires SessionInv(r) && Logs(r, r', e)
    requires r'.engine.nextTid == r.engine.nextTid && r'.engine.active <= r.engine.active
    requires e.item.Write? ==> e.item.tid in r.engine.active
    requires e.item.Commit? ==> e.item.tid in r.engine.active && e.item.tid !in r'.engine.active
    ensures SessionInv(r')
  {
    LoggedHistory(r, r', e);
    forall i | LiveAt(HistoryOf(r'), i) ensures r'.sessionStart <= i { LiveAfterAppend(HistoryOf(r), e, i); }
  }

  function WriteEntry(r: Run, t: nat, p: PageAddress, offset: nat, buf: seq<byte>): Entry
    requires r.engine.wal.gens != [] && offset + |buf| <= |View(r.engine.pages, p)|
  {
    var w := r.engine.wal;
    Entry(NextIndex(w), WriteItem(w, t, p, offset, View(r.engine.pages, p)[offset..offset + |buf|], buf))
  }

  lemma WriteLogs(r: Run, t: nat, p: PageAddress, offset: nat, buf: seq<byte>)
    requires LogInv(r) && PageInv(r) && LockInv(r) && Enabled(r, WritePage(t, p, offset, buf))
    ensures offset + |buf| <= |View(r.engine.pages, p)|
    ensures var e := WriteEntry(r, t, p, offset, buf);
            Logs(r, Next(r, WritePage(t, p, offset, buf)), e) && LogInv(Next(r, WritePage(t, p, offset, buf)))
  {
    WriteFits(r, p);
    var log, e := HistoryOf(r), WriteEntry(r, t, p, offset, buf);
    assert TrueImage(r.base, log + [e], |log|) by { assert (log + [e])[..|log|] == log; }
    LoggedLog(r, Next(r, WritePage(t, p, offset, buf)), e);
  }

  lemma WriteKeepsPages(r: Run, t: nat, p: PageAddress, offset: nat, buf: seq<byte>)
    requires PageInv(r) && LockInv(r) && SessionInv(r) && Enabled(r, WritePage(t, p, offset, buf))
             && QueueOk(r.engine.wal)
    requires offset + |buf| <= |View(r.engine.pages, p)|
    ensures PageInv(Next(r, WritePage(t, p, offset, buf)))
    ensures LockInv(Next(r, WritePage(t, p, offset, buf)))
    ensures SessionInv(Next(r, WritePage(t, p, offset, buf)))
  {
    var r', e := Next(r, WritePage(t, p, offset, buf)), WriteEntry(r, t, p, offset, buf);
    LoggedPages(r, r', e);
    LoggedLocks(r, r', e);
    LoggedSession(r, r', e);
  }

  lemma WriteKeeps(r: Run, t: nat, p: PageAddress, offset: nat, buf: seq<byte>)
    requires Inv(r) && Enabled(r, WritePage(t, p, offset, buf))
    ensures offset + |buf| <= |View(r.engine.pages, p)|
    ensures Inv(Next(r, WritePage(t, p, offset, buf)))
  {
    WriteLogs(r, t, p, offset, buf);
    LoggedTables(r, Next(r, WritePage(t, p, offset, buf)), WriteEntry(r, t, p, offset, buf));
    WriteKeepsPages(r, t, p, offset, buf);
  }

  lemma WriteFits(r: Run, p: PageAddress)
    requires PageInv(r) && r.engine.running
    ensures |View(r.engine.pages, p)| == PAGE_BODY_SIZE
  {
  }

  lemma CommitKeeps(r: Run, t: nat)
    requires Inv(r) && Enabled(r, CommitTransaction(t))
    ensures Inv(Next(r, CommitTransaction(t)))
  {
    var r' := Next(r, CommitTransaction(t));
    var e := Entry(NextIndex(r.engine.wal), CommitItem(r.engine.wal, t));
    assert Logs(r, r', e);
    LoggedLog(r, r', e);
    LoggedTables(r, r', e);
    LoggedPages(r, r', e);
    LoggedLocks(r, r', e);
    LoggedSession(r, r', e);
  }

  lemma {:induction false} DirtyValues(tables: Tables, log: seq<Entry>, next: WalIndex)
    requires AllBefore(tables.dirtyPages, next) && forall i :: 0 <= i < |log| ==> log[i].index.Before(next)
    ensures AllBefore(Replay(tables, log).dirtyPages, next)
  {
    if log != [] { DirtyValues(tables, log[..|log| - 1], next); }
  }

  /** The first checkpoint of a generation makes the generation sufficient to rebuild the tables: the transaction
      table exactly, and a dirty-page table that misses nothing. */
  lemma FirstCheckpoint(live: Tables, older: seq<Entry>, gen: nat, current: seq<Entry>, e: Entry)
    requires InGeneration(current, gen) && !HasCheckpoint(current)
    requires live.transactions == Unfinished(older + current)
    requires e.item.Checkpoint? && Tables(e.item.dirtyPages, e.item.transactions) == live
    requires AllBefore(live.dirtyPages, e.index) && forall i :: 0 <= i < |current| ==> current[i].index.Before(e.index)
    ensures Recovered(current + [e]).transactions == live.transactions
    ensures Dominates(Recovered(current + [e]).dirtyPages, live.dirtyPages)
    ensures AllBefore(Recovered(current + [e]).dirtyPages, e.index)
  {
    SnapshotOfFirst(current, e, []);
    assert current + [e] + [] == current + [e];
    ReplayAppend(live, current, e);
    var start := Replay(EMPTY, older);
    ReplayConcat(EMPTY, older, current);
    ReplayTransactionsOnly(live, Replay(start, current), current);
    ReplayIsIdempotent(start, gen, current);
    DirtyGrows(live, current);
    DirtyValues(live, current, e.index);
  }

  lemma SplitHistory(r: Run)
    requires r.engine.wal.gens != []
    ensures HistoryOf(r) == Older(r) + Current(r.engine.wal)
  {
  }

  lemma CheckpointKeeps(r: Run)
    requires Inv(r) && Enabled(r, LogCheckpoint)
    ensures Inv(Next(r, LogCheckpoint))
  {
    var r' := Next(r, LogCheckpoint);
    var e := Entry(NextIndex(r.engine.wal), CheckpointItem(r.engine.wal));
    assert Logs(r, r', e);
    LoggedLog(r, r', e);
    LoggedPages(r, r', e);
    LoggedLocks(r, r', e);
    LoggedSession(r, r', e);
    if HasCheckpoint(Current(r.engine.wal)) {
      LoggedTables(r, r', e);
    } else {
      FirstCheckpointTables(r, r', e);
    }
  }

  lemma FirstCheckpointTables(r: Run, r': Run, e: Entry)
    requires LogInv(r) && TableInv(r) && DirtyInv(r) && Logs(r, r', e)
    requires e.item == CheckpointItem(r.engine.wal) && !HasCheckpoint(Current(r.engine.wal))
    ensures TableInv(r') && DirtyInv(r')
  {
    var w := r.engine.wal;
    LoggedHistory(r, r', e);
    ReplayAppend(EMPTY, HistoryOf(r), e);
    SplitHistory(r);
    forall i | 0 <= i < |Current(w)| ensures Current(w)[i].index.Before(e.index) {
      assert GenerationOk(Last(w.gens));
    }
    FirstCheckpoint(w.tables, Older(r), w.currentGenNum, Current(w), e);
    assert Replay(w.tables, [e]) == w.tables by { ReplayAppend(w.tables, [], e); assert [] + [e] == [e]; }
    forall p ensures DiskCovers(r', p, w.tables.dirtyPages) { DiskCoversAppend(r, r', p, w.tables, [e]); }
    assert AllBefore(Recovered(Current(r'.engine.wal)).dirtyPages, NextIndex(r'.engine.wal));
  }

  // ----- steps that log nothing -----

  /** A rotation deletes only generations in which no unfinished transaction has written. */
  lemma RetainedIsLive(r: Run, i: nat)
    requires LogInv(r) && TableInv(r) && r.engine.running && LiveAt(HistoryOf(r), i)
    ensures Deleted(r.engine.wal) <= |r.engine.wal.gens|
    ensures |r.archived| + |Flatten(r.engine.wal.gens[..Deleted(r.engine.wal)])| <= i
  {
    var w, log, n := r.engine.wal, HistoryOf(r), Deleted(r.engine.wal);
    RotateKeepsItems(w);
    var deleted := Flatten(w.gens[..n]);
    if |r.archived| <= i < |r.archived| + |deleted| {
      var g := FlattenMember(w.gens[..n], i - |r.archived|);
      assert log[i].index.generation == w.gens[g].num;
      LiveIsNeeded(log, i);
      DeletedIsUnneeded(w, g);
      assert false;
    }
  }

  lemma DeletedIsUnneeded(w: Wal, g: nat)
    requires g < Deleted(w) <= |w.gens|
    ensures !Needed(w.tables.transactions, w.gens[g].num)
  {
    StaleIsUnneeded(AddGeneration(w).gens, w.currentGenNum + 1, w.tables.transactions);
    assert AddGeneration(w).gens[g] == w.gens[g];
  }

  /** Every generation from that of an unfinished transaction's first write on is needed. */
  lemma LiveIsNeeded(log: seq<Entry>, i: nat)
    requires Ascending(log) && LiveAt(log, i)
    ensures Needed(Unfinished(log), log[i].index.generation)
  {
    TransactionsAreTheLiveOnes(log);
    var t := log[i].item.tid;
    var ts := Unfinished(log)[t];
    assert Tracks(log, t, ts);
    var f :| FirstLive(log, f, t) && log[f].index.generation == ts.firstGen;
    assert LiveBy(log, i, t);
    assert f < i ==> log[f].index.Before(log[i].index);
  }

  lemma ArchivedIsOlder(r: Run, i: nat)
    requires LogInv(r) && Deleted(r.engine.wal) <= |r.engine.wal.gens|
    requires i < |r.archived| + |Flatten(r.engine.wal.gens[..Deleted(r.engine.wal)])|
    ensures Rotate(r.engine.wal).gens != []
    ensures (r.archived +
             Flatten(r.engine.wal.gens[..Deleted(r.engine.wal)]))[i].index.generation < Rotate(r.engine.wal).gens[0].num
  {
    var w, n := r.engine.wal, Deleted(r.engine.wal);
    RotateShape(w);
    FirstAfterRotate(w);
    if i >= |r.archived| { var g := FlattenMember(w.gens[..n], i - |r.archived|); }
  }

  /** Every deleted generation is older than the first that is kept. */
  lemma FirstAfterRotate(w: Wal)
    requires QueueOk(w)
    ensures Rotate(w).gens != [] && w.gens[0].num <= Rotate(w).gens[0].num
    ensures Deleted(w) <= |w.gens| && forall g :: 0 <= g < Deleted(w) ==> w.gens[g].num < Rotate(w).gens[0].num
  {
    RotateShape(w);
    assert forall k :: 0 <= k < |w.gens| ==> w.gens[k].num <= Last(w.gens).num;
  }

  lemma RotateHistory(r: Run)
    requires r.engine.wal.gens != []
    ensures HistoryOf(Next(r, RotateLog)) == HistoryOf(r)
  {
    var w := r.engine.wal;
    RotateKeepsItems(w);
    var a, b := Flatten(w.gens[..Deleted(w)]), Flatten(Rotate(w).gens);
    assert r.archived + a + b == r.archived + (a + b);
  }

  lemma RotateKeepsHistory(r: Run)
    requires QueueOk(r.engine.wal)
    ensures var w' := Rotate(r.engine.wal);
            && HistoryOf(Next(r, RotateLog)) == HistoryOf(r) && QueueOk(w') && Current(w') == []
            && NextIndex(w') == WalIndex(r.engine.wal.currentGenNum + 1, FILE_HEADER_SIZE)
  {
    RotateKeepsQueue(r.engine.wal);
    RotateHistory(r);
  }

  lemma RotateKeepsLog(r: Run)
    requires LogInv(r) && TableInv(r) && r.engine.running
    ensures LogInv(Next(r, RotateLog))
  {
    var r', log := Next(r, RotateLog), HistoryOf(r);
    RotateKeepsHistory(r);
    RotatedAreRetained(r);
    RotatedAreOlder(r);
  }

  lemma RotatedAreRetained(r: Run)
    requires LogInv(r) && TableInv(r) && r.engine.running
    ensures forall i :: LiveAt(HistoryOf(r), i) ==> |Next(r, RotateLog).archived| <= i
  {
    RotateShape(r.engine.wal);
    forall i | LiveAt(HistoryOf(r), i) ensures |Next(r, RotateLog).archived| <= i { RetainedIsLive(r, i); }
  }

  lemma RotatedAreOlder(r: Run)
    requires LogInv(r)
    ensures var r' := Next(r, RotateLog);
            r'.engine.wal.gens != [] &&
            forall i :: 0 <= i < |r'.archived| ==> r'.archived[i].index.generation < r'.engine.wal.gens[0].num
  {
    var r' := Next(r, RotateLog);
    RotateShape(r.engine.wal);
    forall i | 0 <= i < |r'.archived| ensures r'.archived[i].index.generation < r'.engine.wal.gens[0].num {
      ArchivedIsOlder(r, i);
    }
  }

  lemma RotateKeepsDirty(r: Run)
    requires LogInv(r) && TableInv(r) && DirtyInv(r) && r.engine.running
    ensures TableInv(Next(r, RotateLog)) && DirtyInv(Next(r, RotateLog))
  {
    var w, r' := r.engine.wal, Next(r, RotateLog);
    RotateKeepsHistory(r);
    forall p ensures DiskCovers(r', p, w.tables.dirtyPages) { assert DiskCovers(r, p, w.tables.dirtyPages); }
  }

  lemma RotateKeeps(r: Run)
    requires Inv(r) && Enabled(r, RotateLog)
    ensures Inv(Next(r, RotateLog))
  {
    RotateKeepsHistory(r);
    RotateKeepsLog(r);
    RotateKeepsDirty(r);
  }

  lemma FlushKeepsPages(r: Run, s: Step)
    requires PageInv(r) && Enabled(r, s) && (s.FlushPage? || s.CacheDidFlush?) && r.engine.wal.gens != []
    ensures PageInv(Next(r, s))
    ensures forall p :: var d := OnDisk(Next(r, s).engine.pages, p);
                        d == View(r.engine.pages, p) || (s.FlushPage? && d == OnDisk(r.engine.pages, p))
  {
    var r' := Next(r, s);
    assert HistoryOf(r') == HistoryOf(r);
    forall p ensures View(r'.engine.pages, p) == View(r.engine.pages, p) && |r.base(p)| == PAGE_BODY_SIZE
                     && |OnDisk(r'.engine.pages, p)| == PAGE_BODY_SIZE
    {
      assert |OnDisk(r.engine.pages, p)| == PAGE_BODY_SIZE;
      WriteFits(r, p);
    }
  }

  lemma FlushKeepsDisk(r: Run, s: Step, p: PageAddress)
    requires Inv(r) && Enabled(r, s) && (s.FlushPage? || s.CacheDidFlush?)
    ensures DiskCovers(Next(r, s), p, Next(r, s).engine.wal.tables.dirtyPages)
  {
    var r' := Next(r, s);
    FlushKeepsPages(r, s);
    if OnDisk(r'.engine.pages, p) == View(r.engine.pages, p) {
      DiskCurrent(r', p, r'.engine.wal.tables.dirtyPages);
    } else {
      assert DiskCovers(r, p, r'.engine.wal.tables.dirtyPages);
    }
  }

  lemma FlushKeepsDirty(r: Run, s: Step)
    requires Inv(r) && Enabled(r, s) && (s.FlushPage? || s.CacheDidFlush?)
    ensures DirtyInv(Next(r, s))
  {
    var r' := Next(r, s);
    forall p ensures DiskCovers(r', p, r'.engine.wal.tables.dirtyPages) { FlushKeepsDisk(r, s, p); }
  }

  lemma FlushKeeps(r: Run, s: Step)
    requires Inv(r) && Enabled(r, s) && (s.FlushPage? || s.CacheDidFlush?)
    ensures Inv(Next(r, s))
  {
    assert HistoryOf(Next(r, s)) == HistoryOf(r);
    FlushKeepsPages(r, s);
    FlushKeepsDirty(r, s);
  }

  lemma CrashKeepsDisk(r: Run)
    requires DirtyInv(r) && PageInv(r)
    ensures DirtyInv(Next(r, Crash)) && PageInv(Next(r, Crash))
  {
    var r', w := Next(r, Crash), r.engine.wal;
    assert HistoryOf(r') == HistoryOf(r);
    forall p ensures |r'.base(p)| == PAGE_BODY_SIZE && |OnDisk(r'.engine.pages, p)| == PAGE_BODY_SIZE {
      assert |r.base(p)| == PAGE_BODY_SIZE && |OnDisk(r.engine.pages, p)| == PAGE_BODY_SIZE;
    }
    if HasCheckpoint(Current(w)) {
      var rebuilt := Recovered(Current(w)).dirtyPages;
      forall p ensures DiskCovers(r', p, rebuilt) {
        if r.engine.running { DiskCoversMore(r, p, w.tables.dirtyPages, rebuilt); }
        assert DiskCovers(r, p, rebuilt);
      }
    }
  }

  lemma CrashKeeps(r: Run)
    requires Inv(r)
    ensures Inv(Next(r, Crash))
  {
    assert HistoryOf(Next(r, Crash)) == HistoryOf(r);
    CrashKeepsDisk(r);
  }
}
