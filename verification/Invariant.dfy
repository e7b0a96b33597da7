/** What every step of the page store keeps. */
module Invariant {
  import opened Bytes
  import opened WalTypes
  import opened Tables
  import opened History
  import opened WalModel
  import opened Engine

  // ----- the invariant -----

  ghost predicate LiveHaveImages(log: seq<Entry>) {
    forall i :: LiveAt(log, i) ==> log[i].item.from.Some?
  }

  /** The retained generations, after what has been deleted, form one ascending and truthful log, and nothing of an
      unfinished transaction has been deleted. */
  ghost predicate LogInv(r: Run) {
    var w, log := r.engine.wal, HistoryOf(r);
    && QueueOk(w)
    && Ascending(log)
    && (forall i :: 0 <= i < |log| ==> log[i].index.Before(NextIndex(w)))
    && Consistent(r.base, log)
    && LocksHeld(log)
    && LiveHaveImages(log)
    && (forall i :: LiveAt(log, i) ==> |r.archived| <= i)
    && (forall i :: 0 <= i < |r.archived| ==> r.archived[i].index.generation < w.gens[0].num)
  }

  function Unfinished(log: seq<Entry>): map<nat, TransactionState> {
    Replay(EMPTY, log).transactions
  }

  /** The transaction table is what the whole log says it is, and so is the one a recovery would rebuild. */
  ghost predicate TableInv(r: Run) {
    var w := r.engine.wal;
    && (r.engine.running ==> w.tables.transactions == Unfinished(HistoryOf(r)))
    && (w.gens != [] && HasCheckpoint(Current(w)) ==> Recovered(Current(w)).transactions == Unfinished(HistoryOf(r)))
  }

  /** The disk holds a state of page `p` that misses only writes the dirty-page table points at; each byte may miss
      others of them. */
  ghost predicate DiskCovers(r: Run, p: PageAddress, dirtyPages: map<PageAddress, WalIndex>) {
    var log := HistoryOf(r);
    exists k ::
      && 0 <= k <= |log| && ReflectsFrom(r.base(p), OnDisk(r.engine.pages, p), log, k, p)
      && forall i :: k <= i < |log| && log[i].WritesTo(p) ==> p in dirtyPages && dirtyPages[p].AtMost(log[i].index)
  }

  /** `upper` knows every dirty page `lower` knows, from no later an index. */
  ghost predicate Dominates(upper: map<PageAddress, WalIndex>, lower: map<PageAddress, WalIndex>) {
    forall p :: p in lower ==> p in upper && upper[p].AtMost(lower[p])
  }

  ghost predicate AllBefore(dirtyPages: map<PageAddress, WalIndex>, index: WalIndex) {
    forall p :: p in dirtyPages ==> dirtyPages[p].Before(index)
  }

  ghost predicate DirtyInv(r: Run) {
    var w := r.engine.wal;
    && w.gens != []
    && (r.engine.running ==> AllBefore(w.tables.dirtyPages, NextIndex(w)))
    && (r.engine.running ==> forall p :: DiskCovers(r, p, w.tables.dirtyPages))
    && (HasCheckpoint(Current(w)) ==>
          var rebuilt := Recovered(Current(w)).dirtyPages;
          && AllBefore(rebuilt, NextIndex(w))
          && (r.engine.running ==> Dominates(rebuilt, w.tables.dirtyPages))
          && (!r.engine.running ==> forall p :: DiskCovers(r, p, rebuilt)))
  }

  /** Every page a reader sees reflects the whole log. */
  ghost predicate PageInv(r: Run) {
    var pages := r.engine.pages;
    && (forall p :: |r.base(p)| == PAGE_BODY_SIZE && |OnDisk(pages, p)| == PAGE_BODY_SIZE)
    && (r.engine.running ==> forall p :: View(pages, p) == Content(r.base(p), HistoryOf(r), p))
    && (!r.engine.running ==> pages.cache == map[])
  }

  /** An unfinished transaction holds the lock of every page it has written. */
  ghost predicate LockInv(r: Run) {
    var log := HistoryOf(r);
    r.engine.running ==>
      forall i :: LiveAt(log, i) ==> log[i].item.page in r.engine.locks
                                     && r.engine.locks[log[i].item.page] == log[i].item.tid
  }

  /** Since the session started, no transaction id has been used again after its commit. */
  ghost predicate NoReuse(log: seq<Entry>, start: nat) {
    forall i, j :: start <= i < j < |log| && log[i].item.Commit? && log[j].item.Write? ==>
                     log[i].item.tid != log[j].item.tid
  }

  ghost predicate SessionInv(r: Run) {
    var e, log := r.engine, HistoryOf(r);
    && r.sessionStart <= |log|
    && (forall i :: LiveAt(log, i) ==> r.sessionStart <= i)
    && NoReuse(log, r.sessionStart)
    && (!e.running ==> e.active == {})
    && (e.running ==>
          && (forall t :: t in e.active ==> t < e.nextTid)
          && (forall i :: r.sessionStart <= i < |log| && log[i].item.Commit? ==>
                            log[i].item.tid !in e.active && log[i].item.tid < e.nextTid))
  }

  ghost predicate Inv(r: Run) {
    LogInv(r) && TableInv(r) && DirtyInv(r) && PageInv(r) && LockInv(r) && SessionInv(r)
  }

  // ----- appending to the log -----

  lemma LiveInPrefix(log: seq<Entry>, tail: seq<Entry>, i: int)
    requires LiveAt(log + tail, i) && i < |log|
    ensures LiveAt(log, i)
  {
    assert forall j :: 0 <= j < |log| ==> (log + tail)[j] == log[j];
  }

  lemma LiveAfterAppend(log: seq<Entry>, e: Entry, i: int)
    ensures LiveAt(log + [e], i) <==>
            (LiveAt(log, i) && !e.IsCommitOf(log[i].item.tid)) || (i == |log| && e.item.Write?)
  {
    var next := log + [e];
    assert next[|log|] == e && forall j :: 0 <= j < |log| ==> next[j] == log[j];
    if LiveAt(next, i) && i < |log| { LiveInPrefix(log, [e], i); }
    if LiveAt(log, i) && !e.IsCommitOf(log[i].item.tid) {
      forall j | i < j < |next| ensures !next[j].IsCommitOf(log[i].item.tid) {
        if j < |log| { assert next[j] == log[j]; }
      }
    }
  }

  lemma HistoryExtends(r: Run, r': Run, tail: seq<Entry>)
    requires Extends(r.engine.wal, r'.engine.wal, tail) && r'.archived == r.archived
    ensures HistoryOf(r') == HistoryOf(r) + tail
  {
    assert r.archived + (Flatten(r.engine.wal.gens) + tail) == HistoryOf(r) + tail;
  }

  lemma LogInvAppend(r: Run, r': Run, tail: seq<Entry>)
    requires LogInv(r) && Extends(r.engine.wal, r'.engine.wal, tail) && r'.archived == r.archived && r'.base == r.base
    requires var log := HistoryOf(r) + tail;
             && (forall i :: |HistoryOf(r)| <= i < |log| ==> TrueImage(r.base, log, i))
             && LocksHeld(log)
             && (forall i :: |HistoryOf(r)| <= i < |log| && LiveAt(log, i) ==> log[i].item.from.Some?)
    ensures LogInv(r')
  {
    HistoryExtends(r, r', tail);
    var before, log := HistoryOf(r), HistoryOf(r');
    forall i | 0 <= i < |log| ensures TrueImage(r.base, log, i) {
      if i < |before| {
        assert TrueImage(r.base, before, i);
        assert log[..i] == before[..i];
      }
    }
    forall i | LiveAt(log, i) ensures log[i].item.from.Some? && |r.archived| <= i {
      if i < |before| { LiveInPrefix(before, tail, i); }
    }
  }

  lemma RecoveredAppend(current: seq<Entry>, tail: seq<Entry>)
    requires HasCheckpoint(current)
    ensures HasCheckpoint(current + tail) && Recovered(current + tail) == Replay(Recovered(current), tail)
  {
    SnapshotIsStable(current, tail);
    ReplayConcat(Snapshot(current), current, tail);
  }

  lemma NoCheckpointAppend(current: seq<Entry>, tail: seq<Entry>)
    requires !HasCheckpoint(current) && forall i :: 0 <= i < |tail| ==> !tail[i].item.Checkpoint?
    ensures !HasCheckpoint(current + tail)
  {
  }

  lemma TableInvAppend(r: Run, r': Run, tail: seq<Entry>)
    requires TableInv(r) && Extends(r.engine.wal, r'.engine.wal, tail) && r'.archived == r.archived
    requires r.engine.running && r'.engine.running
    requires HasCheckpoint(Current(r.engine.wal)) || forall i :: 0 <= i < |tail| ==> !tail[i].item.Checkpoint?
    ensures TableInv(r')
  {
    HistoryExtends(r, r', tail);
    ReplayConcat(EMPTY, HistoryOf(r), tail);
    ReplayTransactionsOnly(r.engine.wal.tables, Replay(EMPTY, HistoryOf(r)), tail);
    RecoveredTableAppend(r, tail);
  }

  lemma RecoveredTableAppend(r: Run, tail: seq<Entry>)
    requires TableInv(r) && r.engine.wal.gens != []
    requires HasCheckpoint(Current(r.engine.wal)) || forall i :: 0 <= i < |tail| ==> !tail[i].item.Checkpoint?
    ensures HasCheckpoint(Current(r.engine.wal) + tail) ==>
              Recovered(Current(r.engine.wal) + tail).transactions == Unfinished(HistoryOf(r) + tail)
  {
    var current := Current(r.engine.wal);
    if HasCheckpoint(current) {
      RecoveredAppend(current, tail);
      ReplayConcat(EMPTY, HistoryOf(r), tail);
      ReplayTransactionsOnly(Recovered(current), Replay(EMPTY, HistoryOf(r)), tail);
    } else {
      NoCheckpointAppend(current, tail);
    }
  }

  // ----- the dirty-page table under appending -----

  lemma {:induction false} DirtyAppend(tables: Tables, tail: seq<Entry>, from: WalIndex, next: WalIndex, gen: nat)
    requires AllBefore(tables.dirtyPages, from) && TailOf(tail, from, next, gen)
    ensures AllBefore(Replay(tables, tail).dirtyPages, next)
    ensures forall i :: 0 <= i < |tail| && tail[i].item.Write? ==>
                          && tail[i].item.page in Replay(tables, tail).dirtyPages
                          && Replay(tables, tail).dirtyPages[tail[i].item.page].AtMost(tail[i].index)
    ensures forall p :: p in tables.dirtyPages ==>
                          p in Replay(tables, tail).dirtyPages
                          && Replay(tables, tail).dirtyPages[p] == tables.dirtyPages[p]
  {
    if tail != [] {
      var n := |tail| - 1;
      DirtyAppend(tables, tail[..n], from, tail[n].index, gen);
    }
  }

  lemma {:induction false} DominatesAppend(upper: Tables, lower: Tables, tail: seq<Entry>, from: WalIndex,
                                           next: WalIndex, gen: nat)
    requires AllBefore(upper.dirtyPages, from) && TailOf(tail, from, next, gen)
    requires Dominates(upper.dirtyPages, lower.dirtyPages)
    ensures Dominates(Replay(upper, tail).dirtyPages, Replay(lower, tail).dirtyPages)
  {
    if tail != [] {
      var n := |tail| - 1;
      DominatesAppend(upper, lower, tail[..n], from, tail[n].index, gen);
      DirtyAppend(upper, tail[..n], from, tail[n].index, gen);
    }
  }

  /** A disk that covers a history covers a longer one, with the table that tracked the difference. */
  lemma DiskCoversAppend(r: Run, r': Run, p: PageAddress, tables: Tables, tail: seq<Entry>)
    requires DiskCovers(r, p, tables.dirtyPages)
    requires Extends(r.engine.wal, r'.engine.wal, tail) && r'.archived == r.archived && r'.base == r.base
    requires OnDisk(r'.engine.pages, p) == OnDisk(r.engine.pages, p)
    requires AllBefore(tables.dirtyPages, NextIndex(r.engine.wal))
    ensures DiskCovers(r', p, Replay(tables, tail).dirtyPages)
  {
    HistoryExtends(r, r', tail);
    DirtyAppend(tables, tail, NextIndex(r.engine.wal), NextIndex(r'.engine.wal), r.engine.wal.currentGenNum);
    var log, log' := HistoryOf(r), HistoryOf(r');
    var k :| 0 <= k <= |log| && ReflectsFrom(r.base(p), OnDisk(r.engine.pages, p), log, k, p)
             && forall i :: k <= i < |log| && log[i].WritesTo(p) ==>
                              p in tables.dirtyPages && tables.dirtyPages[p].AtMost(log[i].index);
    ReflectsMore(r.base(p), OnDisk(r.engine.pages, p), log, tail, k, p);
    assert forall i :: |log| <= i < |log'| ==> log'[i] == tail[i - |log|];
  }

  lemma DiskCoversMore(r: Run, p: PageAddress, lower: map<PageAddress, WalIndex>, upper: map<PageAddress, WalIndex>)
    requires DiskCovers(r, p, lower) && Dominates(upper, lower)
    ensures DiskCovers(r, p, upper)
  {
    var log := HistoryOf(r);
    var k :| 0 <= k <= |log| && ReflectsFrom(r.base(p), OnDisk(r.engine.pages, p), log, k, p)
             && forall i :: k <= i < |log| && log[i].WritesTo(p) ==> p in lower && lower[p].AtMost(log[i].index);
  }

  lemma DiskCoversStill(r: Run, r': Run, p: PageAddress, dirtyPages: map<PageAddress, WalIndex>)
    requires DiskCovers(r, p, dirtyPages) && HistoryOf(r') == HistoryOf(r) && r'.base == r.base
    requires OnDisk(r'.engine.pages, p) == OnDisk(r.engine.pages, p)
    ensures DiskCovers(r', p, dirtyPages)
  {
    DiskCoversMore(r, p, dirtyPages, dirtyPages);
  }

  lemma DiskCurrent(r: Run, p: PageAddress, dirtyPages: map<PageAddress, WalIndex>)
    requires OnDisk(r.engine.pages, p) == Content(r.base(p), HistoryOf(r), p)
    ensures DiskCovers(r, p, dirtyPages)
  {
    ReflectsNow(r.base(p), HistoryOf(r), p);
  }

  lemma DirtyInvAppend(r: Run, r': Run, tail: seq<Entry>)
    requires DirtyInv(r) && Extends(r.engine.wal, r'.engine.wal, tail) && r'.archived == r.archived && r'.base == r.base
    requires r.engine.running && r'.engine.running && r'.engine.pages.disk == r.engine.pages.disk
    requires HasCheckpoint(Current(r.engine.wal)) || forall i :: 0 <= i < |tail| ==> !tail[i].item.Checkpoint?
    ensures DirtyInv(r')
  {
    var w, w' := r.engine.wal, r'.engine.wal;
    DirtyAppend(w.tables, tail, NextIndex(w), NextIndex(w'), w.currentGenNum);
    forall p ensures DiskCovers(r', p, w'.tables.dirtyPages) {
      DiskCoversAppend(r, r', p, w.tables, tail);
    }
    if HasCheckpoint(Current(w)) {
      RecoveredAppend(Current(w), tail);
      DirtyAppend(Recovered(Current(w)), tail, NextIndex(w), NextIndex(w'), w.currentGenNum);
      DominatesAppend(Recovered(Current(w)), w.tables, tail, NextIndex(w), NextIndex(w'), w.currentGenNum);
    } else {
      NoCheckpointAppend(Current(w), tail);
    }
  }
}
