/** Recovery. */
module RecoverSteps {
  // What a recovery makes of pages and tables: redo brings the pages up to date with the log, and the tables rebuilt
  // from the current generation are the ones that were lost, exactly under the conditions given here.

  import opened Bytes
  import opened WalTypes
  import opened Tables
  import opened History
  import opened WalModel
  import opened Engine
  import opened Invariant
  import opened Steps
  import opened UndoSteps

  // ----- redo -----

  /** The replayed writes to page `p` are those from position `start` on. */
  ghost predicate ReplayedFrom(log: seq<Entry>, dirtyPages: map<PageAddress, WalIndex>, p: PageAddress, start: nat) {
    forall i :: 0 <= i < |log| && log[i].WritesTo(p) ==> (Replayed(log[i], dirtyPages) <==> start <= i)
  }

  lemma {:induction false} RedoOpsAreASuffix(pages: Pages, log: seq<Entry>, dirtyPages: map<PageAddress, WalIndex>,
                                             p: PageAddress, start: nat)
    requires start <= |log| && ReplayedFrom(log, dirtyPages, p, start)
    ensures View(WriteThroughAll(pages, RedoOps(log, dirtyPages)), p) == Content(View(pages, p), log[start..], p)
  {
    if start == |log| {
      RedoElsewhere(pages, log, dirtyPages, p);
    } else {
      var n := |log| - 1;
      RedoOpsAreASuffix(pages, log[..n], dirtyPages, p, start);
      RedoStep(pages, log, dirtyPages, p);
      ContentOfTail(View(pages, p), log, start, p);
      assert log[n].WritesTo(p) ==> Replayed(log[n], dirtyPages);
    }
  }

  lemma ContentOfTail(page: seq<byte>, log: seq<Entry>, start: nat, p: PageAddress)
    requires start < |log|
    ensures Content(page, log[start..], p) == Patch(Content(page, log[..|log| - 1][start..], p), log[|log| - 1], p)
  {
    var n := |log| - 1;
    assert log[start..] == log[..n][start..] + [log[n]];
    ContentAppend(page, log[..n][start..], log[n], p);
  }

  lemma RedoStep(pages: Pages, log: seq<Entry>, dirtyPages: map<PageAddress, WalIndex>, p: PageAddress)
    requires log != []
    ensures var before := View(WriteThroughAll(pages, RedoOps(log[..|log| - 1], dirtyPages)), p);
            var e := log[|log| - 1];
            View(WriteThroughAll(pages, RedoOps(log, dirtyPages)), p) ==
            if Replayed(e, dirtyPages) then Patch(before, e, p) else before
  {
    var e, init := log[|log| - 1], RedoOps(log[..|log| - 1], dirtyPages);
    if Replayed(e, dirtyPages) {
      var op := PartialWriteOp(e.index, e.item.page, e.item.offset, e.item.to);
      assert RedoOps(log, dirtyPages) == init + [op];
      OneMoreOp(pages, init, op);
    } else {
      assert RedoOps(log, dirtyPages) == init;
    }
  }

  lemma OneMoreOp(pages: Pages, ops: seq<PartialWriteOp>, op: PartialWriteOp)
    ensures WriteThroughAll(pages, ops + [op]) == WriteThrough(WriteThroughAll(pages, ops), op)
  {
    assert (ops + [op])[..|ops|] == ops;
  }

  lemma {:induction false} RedoElsewhere(pages: Pages, log: seq<Entry>, dirtyPages: map<PageAddress, WalIndex>,
                                         p: PageAddress)
    requires forall i :: 0 <= i < |log| && log[i].WritesTo(p) ==> !Replayed(log[i], dirtyPages)
    ensures View(WriteThroughAll(pages, RedoOps(log, dirtyPages)), p) == View(pages, p)
  {
    if log != [] {
      RedoElsewhere(pages, log[..|log| - 1], dirtyPages, p);
      RedoStep(pages, log, dirtyPages, p);
    }
  }

  lemma {:induction false} WriteThroughAgrees(pages: Pages, ops: seq<PartialWriteOp>, p: PageAddress)
    requires View(pages, p) == OnDisk(pages, p)
    ensures View(WriteThroughAll(pages, ops), p) == OnDisk(WriteThroughAll(pages, ops), p)
  {
    if ops != [] { WriteThroughAgrees(pages, ops[..|ops| - 1], p); }
  }

  /** Where the replay of page `p` begins in an ascending log. */
  lemma {:induction false} ReplayStart(log: seq<Entry>, dirtyPages: map<PageAddress, WalIndex>, p: PageAddress)
    returns (start: nat)
    requires Ascending(log)
    ensures start <= |log| && ReplayedFrom(log, dirtyPages, p, start)
  {
    start := |log|;
    while start > 0 && p in dirtyPages && !log[start - 1].index.Before(dirtyPages[p])
      invariant start <= |log|
      invariant forall i :: start <= i < |log| && log[i].WritesTo(p) ==> Replayed(log[i], dirtyPages)
    {
      start := start - 1;
    }
    forall i | 0 <= i < start && log[i].WritesTo(p) ensures !Replayed(log[i], dirtyPages) {
      if p in dirtyPages { EarlierIsBefore(log, i, start - 1, dirtyPages[p]); }
    }
  }

  lemma EarlierIsBefore(log: seq<Entry>, i: nat, j: nat, bound: WalIndex)
    requires Ascending(log) && i <= j < |log| && log[j].index.Before(bound)
    ensures log[i].index.Before(bound)
  {
  }

  /** What page `p` may miss is in generation `gen` and covered by the dirty-page table. */
  ghost predicate Covered(log: seq<Entry>, gen: nat, dirtyPages: map<PageAddress, WalIndex>, p: PageAddress, k: nat) {
    forall i :: k <= i < |log| && log[i].WritesTo(p) ==>
                  log[i].index.generation == gen && p in dirtyPages && dirtyPages[p].AtMost(log[i].index)
  }

  /** Redo brings a page up to date with the whole log, of every generation. */
  lemma RedoCompletes(base: seq<byte>, older: seq<Entry>, current: seq<Entry>, gen: nat,
                      dirtyPages: map<PageAddress, WalIndex>, pages: Pages, p: PageAddress, k: nat)
    requires Ascending(older + current) && k <= |older + current|
    requires forall i :: 0 <= i < |older| ==> older[i].index.generation != gen
    requires ReflectsFrom(base, OnDisk(pages, p), older + current, k, p) && View(pages, p) == OnDisk(pages, p)
    requires Covered(older + current, gen, dirtyPages, p, k)
    ensures View(WriteThroughAll(pages, RedoOps(current, dirtyPages)), p) == Content(base, older + current, p)
  {
    var log := older + current;
    CurrentAscends(older, current);
    var start := ReplayStart(current, dirtyPages, p);
    RedoOpsAreASuffix(pages, current, dirtyPages, p, start);
    assert log[|older| + start..] == current[start..];
    CoveredFrom(base, OnDisk(pages, p), older, current, gen, dirtyPages, p, k, start);
    RedoRepeatsHistory(base, OnDisk(pages, p), log, |older| + start, p);
  }

  lemma CoveredFrom(base: seq<byte>, disk: seq<byte>, older: seq<Entry>, current: seq<Entry>, gen: nat,
                    dirtyPages: map<PageAddress, WalIndex>, p: PageAddress, k: nat, start: nat)
    requires k <= |older + current| && start <= |current| && ReplayedFrom(current, dirtyPages, p, start)
    requires forall i :: 0 <= i < |older| ==> older[i].index.generation != gen
    requires Covered(older + current, gen, dirtyPages, p, k) && ReflectsFrom(base, disk, older + current, k, p)
    ensures ReflectsFrom(base, disk, older + current, |older| + start, p)
  {
    var log, s := older + current, |older| + start;
    forall i | k <= i < s ensures !log[i].WritesTo(p) {
      if i < |older| { assert log[i] == older[i]; } else { assert log[i] == current[i - |older|]; }
    }
    forall i: nat | i < |base| ensures ByteReflects(base, disk, log, s, p, i) {
      assert ByteReflects(base, disk, log, k, p, i);
      var j :| k <= j <= |log| && disk[i] == Content(base, log[..j], p)[i];
      if j < s {
        ContentConcat(base, log[..j], log[j..s], p);
        ContentUntouched(Content(base, log[..j], p), log[j..s], p);
        assert log[..s] == log[..j] + log[j..s];
      }
    }
  }

  /** The two things that are known of the disk before a recovery, together. */
  lemma CoveredAt(r: Run, p: PageAddress) returns (k: nat)
    requires LogInv(r)
    requires DiskCovers(r, p, Recovered(Current(r.engine.wal)).dirtyPages) && OlderOnDiskAt(r, p)
    ensures k <= |HistoryOf(r)| && ReflectsFrom(r.base(p), OnDisk(r.engine.pages, p), HistoryOf(r), k, p)
    ensures Covered(HistoryOf(r), r.engine.wal.currentGenNum, Recovered(Current(r.engine.wal)).dirtyPages, p, k)
  {
    var log, dirtyPages := HistoryOf(r), Recovered(Current(r.engine.wal)).dirtyPages;
    var disk := OnDisk(r.engine.pages, p);
    var a :| 0 <= a <= |log| && ReflectsFrom(r.base(p), disk, log, a, p)
             && forall i :: a <= i < |log| && log[i].WritesTo(p) ==>
                              p in dirtyPages && dirtyPages[p].AtMost(log[i].index);
    var b :| 0 <= b <= |log| && ReflectsFrom(r.base(p), disk, log, b, p)
             && forall i :: b <= i < |log| && log[i].WritesTo(p) ==>
                              log[i].index.generation == r.engine.wal.currentGenNum;
    k := if a < b then b else a;
  }

  lemma RedoAtPage(r: Run, p: PageAddress)
    requires LogInv(r) && PageInv(r) && !r.engine.running
    requires DiskCovers(r, p, Recovered(Current(r.engine.wal)).dirtyPages) && OlderOnDiskAt(r, p)
    ensures var redone :=
              WriteThroughAll(r.engine.pages,
                              RedoOps(Current(r.engine.wal), Recovered(Current(r.engine.wal)).dirtyPages));
            View(redone, p) == Content(r.base(p), HistoryOf(r), p) && OnDisk(redone, p) == View(redone, p)
  {
    var w, dirtyPages := r.engine.wal, Recovered(Current(r.engine.wal)).dirtyPages;
    var k := CoveredAt(r, p);
    SplitHistory(r);
    OlderGenerations(r);
    RedoCompletes(r.base(p), Older(r), Current(w), w.currentGenNum, dirtyPages, r.engine.pages, p, k);
    WriteThroughAgrees(r.engine.pages, RedoOps(Current(w), dirtyPages), p);
  }

  lemma OlderGenerations(r: Run)
    requires LogInv(r)
    ensures forall i :: 0 <= i < |Older(r)| ==> Older(r)[i].index.generation != r.engine.wal.currentGenNum
  {
    var w := r.engine.wal;
    var rest := w.gens[..|w.gens| - 1];
    var older := r.archived + Flatten(rest);
    forall i | 0 <= i < |older| ensures older[i].index.generation != w.currentGenNum {
      if i >= |r.archived| {
        var g := FlattenMember(rest, i - |r.archived|);
        assert w.gens[g].num < w.gens[|w.gens| - 1].num;
      } else {
        assert w.gens[0].num <= w.gens[|w.gens| - 1].num;
      }
    }
  }

  // ----- a redo that does not come to its end -----

  /** A redo of the first items only leaves a page that misses nothing but what the dirty-page table knows of, and
      nothing but what is in the current generation, if so it was before. */
  lemma PartialRedoReflects(base: seq<byte>, older: seq<Entry>, current: seq<Entry>,
                            dirtyPages: map<PageAddress, WalIndex>,
                            pages: Pages, p: PageAddress, k: nat, scanned: nat)
    returns (k': nat)
    requires Ascending(older + current) && k <= |older + current| && scanned <= |current|
    requires ReflectsFrom(base, OnDisk(pages, p), older + current, k, p) && View(pages, p) == OnDisk(pages, p)
    ensures k' <= |older + current| && (k' == k || k' >= |older|)
    ensures KnownFrom(older + current, dirtyPages, p, k) ==> KnownFrom(older + current, dirtyPages, p, k')
    ensures ReflectsFrom(base, View(WriteThroughAll(pages, RedoOps(current[..scanned], dirtyPages)), p),
                         older + current, k', p)
  {
    CurrentAscends(older, current);
    var start := ReplayStart(current, dirtyPages, p);
    if scanned <= start {
      RedoElsewhere(pages, current[..scanned], dirtyPages, p);
      k' := k;
    } else {
      k' := RedoneUpTo(base, older, current, dirtyPages, pages, p, k, start, scanned);
      ReplayedIsKnown(older, current, dirtyPages, p, start);
    }
  }

  lemma RedoneUpTo(base: seq<byte>, older: seq<Entry>, current: seq<Entry>, dirtyPages: map<PageAddress, WalIndex>,
                   pages: Pages, p: PageAddress, k: nat, start: nat, scanned: nat)
    returns (k': nat)
    requires start <= scanned <= |current| && ReplayedFrom(current, dirtyPages, p, start)
    requires ReflectsFrom(base, OnDisk(pages, p), older + current, k, p) && View(pages, p) == OnDisk(pages, p)
    ensures k' == if k < |older| + scanned then k else |older| + scanned
    ensures ReflectsFrom(base, View(WriteThroughAll(pages, RedoOps(current[..scanned], dirtyPages)), p),
                         older + current, k', p)
  {
    k' := if k < |older| + scanned then k else |older| + scanned;
    RedoOpsAreASuffix(pages, current[..scanned], dirtyPages, p, start);
    MiddleOfCurrent(older, current, start, scanned);
    InterruptedRedo(base, OnDisk(pages, p), older + current, k, |older| + start, |older| + scanned, p);
  }

  lemma CurrentAscends(older: seq<Entry>, current: seq<Entry>)
    requires Ascending(older + current)
    ensures Ascending(current)
  {
    assert forall i :: 0 <= i < |current| ==> current[i] == (older + current)[|older| + i];
  }

  /** The dirty-page table knows of every write to page `p` from place `k` on. */
  ghost predicate KnownFrom(log: seq<Entry>, dirtyPages: map<PageAddress, WalIndex>, p: PageAddress, k: nat) {
    forall i :: k <= i < |log| && log[i].WritesTo(p) ==> p in dirtyPages && dirtyPages[p].AtMost(log[i].index)
  }

  lemma MiddleOfCurrent(older: seq<Entry>, current: seq<Entry>, start: nat, scanned: nat)
    requires start <= scanned <= |current|
    ensures (older + current)[|older| + start..|older| + scanned] == current[..scanned][start..] ==
            current[start..scanned]
  {
  }

  lemma ReplayedIsKnown(older: seq<Entry>, current: seq<Entry>, dirtyPages: map<PageAddress, WalIndex>, p: PageAddress,
                        start: nat)
    requires start <= |current| && ReplayedFrom(current, dirtyPages, p, start)
    ensures KnownFrom(older + current, dirtyPages, p, |older| + start)
  {
    assert forall i :: |older| <= i < |older + current| ==> (older + current)[i] == current[i - |older|];
  }

  lemma CrashInRedoCovers(r: Run, scanned: nat, p: PageAddress)
    requires LogInv(r) && PageInv(r) && !r.engine.running && scanned <= |Current(r.engine.wal)|
    requires DiskCovers(r, p, Reload(r.engine.wal).tables.dirtyPages)
    ensures DiskCovers(Next(r, CrashInRedo(scanned)), p, Reload(r.engine.wal).tables.dirtyPages)
  {
    var w, r', dirtyPages := r.engine.wal, Next(r, CrashInRedo(scanned)), Reload(r.engine.wal).tables.dirtyPages;
    var log, disk := HistoryOf(r), OnDisk(r.engine.pages, p);
    var k :| 0 <= k <= |log| && ReflectsFrom(r.base(p), disk, log, k, p)
             && forall i :: k <= i < |log| && log[i].WritesTo(p) ==>
                              p in dirtyPages && dirtyPages[p].AtMost(log[i].index);
    SplitHistory(r);
    k := PartialRedoReflects(r.base(p), Older(r), Current(w), dirtyPages, r.engine.pages, p, k, scanned);
    WriteThroughAgrees(r.engine.pages, RedoOps(Current(w)[..scanned], dirtyPages), p);
    assert HistoryOf(r') == log;
    assert ReflectsFrom(r'.base(p), OnDisk(r'.engine.pages, p), HistoryOf(r'), k, p);
  }

  /** A redo of the first items sets no byte that the whole redo would not set. */
  lemma CrashInRedoAt(r: Run, scanned: nat, p: PageAddress)
    requires LogInv(r) && PageInv(r) && !r.engine.running && scanned <= |Current(r.engine.wal)|
    ensures var before, after := OnDisk(r.engine.pages, p), OnDisk(Next(r, CrashInRedo(scanned)).engine.pages, p);
            |after| == |before| && forall i: nat :: i < |before| && !Replays(r.engine.wal, p, i) ==>
                                                      after[i] == before[i]
  {
    var w, dirtyPages := r.engine.wal, Reload(r.engine.wal).tables.dirtyPages;
    var disk, current := OnDisk(r.engine.pages, p), Current(w);
    SplitHistory(r);
    CurrentAscends(Older(r), current);
    var start := ReplayStart(current, dirtyPages, p);
    WriteThroughAgrees(r.engine.pages, RedoOps(current[..scanned], dirtyPages), p);
    if scanned <= start {
      RedoElsewhere(r.engine.pages, current[..scanned], dirtyPages, p);
    } else {
      RedoOpsAreASuffix(r.engine.pages, current[..scanned], dirtyPages, p, start);
      forall i: nat | i < |disk| && !Replays(w, p, i)
        ensures Content(disk, current[..scanned][start..], p)[i] == disk[i] {
        ByteOfContent(disk, disk, current[..scanned][start..], p, i);
        PartReplays(w, p, i, start, scanned);
      }
    }
  }

  lemma PartReplays(w: Wal, p: PageAddress, i: nat, start: nat, scanned: nat)
    requires w.gens != [] && start <= scanned <= |Current(w)|
    requires ReplayedFrom(Current(w), Reload(w).tables.dirtyPages, p, start)
    ensures Sets(Current(w)[..scanned][start..], p, i) ==> Replays(w, p, i)
  {
    var part := Current(w)[..scanned][start..];
    if Sets(part, p, i) {
      var k :| 0 <= k < |part| && SetsByte(part[k], p, i);
      assert SetsByte(Current(w)[start + k], p, i);
    }
  }

  /** A recovery that crashes in its redo, wherever that may be, keeps the invariant, and leaves a store that can be
      recovered exactly if the one before could. */
  lemma CrashInRedoKeeps(r: Run, scanned: nat)
    requires Inv(r) && Enabled(r, CrashInRedo(scanned))
    ensures Inv(Next(r, CrashInRedo(scanned)))
    ensures forall tids :: CanRecover(Next(r, CrashInRedo(scanned)), tids) <==> CanRecover(r, tids)
  {
    var r' := Next(r, CrashInRedo(scanned));
    assert HistoryOf(r') == HistoryOf(r);
    forall p ensures |OnDisk(r'.engine.pages, p)| == PAGE_BODY_SIZE { CrashInRedoAt(r, scanned, p); }
    if HasCheckpoint(Current(r.engine.wal)) {
      forall p ensures DiskCovers(r', p, Recovered(Current(r'.engine.wal)).dirtyPages) {
        assert DiskCovers(r, p, Recovered(Current(r.engine.wal)).dirtyPages);
        CrashInRedoCovers(r, scanned, p);
      }
    }
    assert LogInv(r') && TableInv(r') && LockInv(r') && SessionInv(r') && DirtyInv(r') && PageInv(r');
    forall tids ensures CanRecover(r', tids) <==> CanRecover(r, tids) { SameReach(r, r', scanned, tids); }
  }

  lemma SameReach(r: Run, r': Run, scanned: nat, tids: seq<nat>)
    requires LogInv(r) && PageInv(r) && Enabled(r, CrashInRedo(scanned)) && r' == Next(r, CrashInRedo(scanned))
    ensures CanRecover(r', tids) <==> CanRecover(r, tids)
  {
    assert HistoryOf(r') == HistoryOf(r);
    forall p ensures RecoveryReaches(r', tids, p) <==> RecoveryReaches(r, tids, p) {
      CrashInRedoAt(r, scanned, p);
      assert forall i: nat :: i < |r.base(p)| && !Replays(r.engine.wal, p, i) ==>
                                (OnDiskAsLogged(r', p, i) <==> OnDiskAsLogged(r, p, i));
    }
    assert IsDown(r', tids) <==> IsDown(r, tids);
    assert r.engine.wal.gens != [] ==> (KnowsLosers(r') <==> KnowsLosers(r));
  }

  // ----- the state between redo and undo -----

  function Redone(r: Run): Run
    requires r.engine.wal.gens != []
  {
    var w := r.engine.wal;
    r.(engine := r.engine.(wal := Reload(w), running := true,
    pages := WriteThroughAll(r.engine.pages, RedoOps(Current(w), Reload(w).tables.dirtyPages))))
  }

  /** What redo makes of a page. */
  lemma RedoneFrom(r: Run, p: PageAddress) returns (start: nat)
    requires LogInv(r) && PageInv(r) && !r.engine.running
    ensures start <= |Current(r.engine.wal)|
    ensures forall i: nat :: Sets(Current(r.engine.wal)[start..], p, i) <==> Replays(r.engine.wal, p, i)
    ensures var m := Redone(r);
            && View(m.engine.pages, p) == Content(OnDisk(r.engine.pages, p), Current(r.engine.wal)[start..], p)
            && OnDisk(m.engine.pages, p) == View(m.engine.pages, p)
  {
    var w, dirtyPages := r.engine.wal, Reload(r.engine.wal).tables.dirtyPages;
    SplitHistory(r);
    CurrentAscends(Older(r), Current(w));
    start := ReplayStart(Current(w), dirtyPages, p);
    RedoOpsAreASuffix(r.engine.pages, Current(w), dirtyPages, p, start);
    WriteThroughAgrees(r.engine.pages, RedoOps(Current(w), dirtyPages), p);
    forall i: nat ensures Sets(Current(w)[start..], p, i) <==> Replays(w, p, i) {
      PartReplays(w, p, i, start, |Current(w)|);
      assert Current(w)[..|Current(w)|] == Current(w);
      if Replays(w, p, i) { ReplaysPart(w, p, i, start); }
    }
  }

  lemma ReplaysPart(w: Wal, p: PageAddress, i: nat, start: nat)
    requires w.gens != [] && start <= |Current(w)| && ReplayedFrom(Current(w), Reload(w).tables.dirtyPages, p, start)
    requires Replays(w, p, i)
    ensures Sets(Current(w)[start..], p, i)
  {
    var k :| 0 <= k < |Current(w)| && Replayed(Current(w)[k], Reload(w).tables.dirtyPages)
             && SetsByte(Current(w)[k], p, i);
    assert SetsByte(Current(w)[start..][k - start], p, i);
  }

  /** A byte comes out of a redo as logged if and only if the redo sets it, or it was so on the disk before. */
  lemma RedoneByte(r: Run, p: PageAddress, i: nat)
    requires LogInv(r) && PageInv(r) && !r.engine.running && i < |r.base(p)|
    ensures var page := View(Redone(r).engine.pages, p);
            && |page| == |r.base(p)|
            && (page[i] == Content(r.base(p), HistoryOf(r), p)[i] <==>
                Replays(r.engine.wal, p, i) || OnDiskAsLogged(r, p, i))
  {
    var start := RedoneFrom(r, p);
    SplitHistory(r);
    ReplayedByte(r.base(p), OnDisk(r.engine.pages, p), Older(r), Current(r.engine.wal), start, p, i);
  }

  /** A byte after the replay of the end of a log is as in the whole if the replay sets it, or if it was so before. */
  lemma ReplayedByte(base: seq<byte>, disk: seq<byte>, older: seq<Entry>, current: seq<Entry>, start: nat,
                     p: PageAddress, i: nat)
    requires start <= |current| && i < |base| == |disk|
    ensures var page, content := Content(disk, current[start..], p), Content(base, older + current, p);
            page[i] == content[i] <==> Sets(current[start..], p, i) || disk[i] == content[i]
  {
    var before, replayed := older + current[..start], current[start..];
    assert older + current == before + replayed by {
      assert current == current[..start] + replayed;
    }
    ContentConcat(base, before, replayed, p);
    ByteOfContent(disk, Content(base, before, p), replayed, p, i);
    ByteOfContent(Content(base, before, p), disk, replayed, p, i);
  }

  /** Redo gives the latest content of a page if and only if every byte that it does not set is already on the disk. */
  lemma RedoRestoresIff(r: Run, p: PageAddress)
    requires LogInv(r) && PageInv(r) && !r.engine.running
    ensures View(Redone(r).engine.pages, p) == Content(r.base(p), HistoryOf(r), p) <==> RedoReaches(r, p)
  {
    var page, content := View(Redone(r).engine.pages, p), Content(r.base(p), HistoryOf(r), p);
    assert |r.base(p)| == PAGE_BODY_SIZE;
    forall i: nat | i < |r.base(p)|
      ensures |page| == |content| && (page[i] == content[i] <==> Replays(r.engine.wal, p, i) || OnDiskAsLogged(r, p, i))
    {
      RedoneByte(r, p, i);
    }
    RedoneByte(r, p, 0);
  }

  /** The unfinished transactions that the current generation tells of are unfinished, with the right last write. */
  lemma RebuiltIsKnown(r: Run)
    requires LogInv(r) && TableInv(r)
    ensures var rebuilt := Reload(r.engine.wal).tables.transactions;
            forall t :: t in rebuilt ==> t in Unfinished(HistoryOf(r))
                                         && Unfinished(HistoryOf(r))[t].lastIndex == rebuilt[t].lastIndex
  {
    var w := r.engine.wal;
    if !HasCheckpoint(Current(w)) {
      NoSnapshot(Current(w));
      SplitHistory(r);
      ReplayConcat(EMPTY, Older(r), Current(w));
      forall t | t in Replay(EMPTY, Current(w)).transactions
        ensures t in Unfinished(HistoryOf(r))
                && Unfinished(HistoryOf(r))[t].lastIndex == Replay(EMPTY, Current(w)).transactions[t].lastIndex
      {
        assert InGeneration(Current(w), w.currentGenNum) by { assert GenerationOk(Last(w.gens)); }
        StretchEffect(t, w.currentGenNum, Current(w), EMPTY, Replay(EMPTY, Older(r)));
        StretchEffect(t, w.currentGenNum, Current(w), Replay(EMPTY, Older(r)), EMPTY);
      }
    }
  }

  lemma {:induction false} SameLowest(x: map<nat, TransactionState>, y: map<nat, TransactionState>, tids: seq<nat>)
    requires forall t :: t in tids ==> t in x && t in y && x[t].lastIndex == y[t].lastIndex
    ensures LowestIndex(x, tids) == LowestIndex(y, tids)
  {
    if tids != [] { SameLowest(x, y, tids[..|tids| - 1]); }
  }

  /** Redo changes the pages and the tables only. */
  lemma RedoneKeeps(r: Run, tids: seq<nat>)
    requires Inv(r) && IsDown(r, tids)
    ensures var m := Redone(r);
            && HistoryOf(m) == HistoryOf(r) && LogInv(m)
            && AllBefore(m.engine.wal.tables.dirtyPages, NextIndex(m.engine.wal))
            && LowestIndex(m.engine.wal.tables.transactions, tids) == LowestIndex(Unfinished(HistoryOf(r)), tids)
    ensures forall t :: t in tids ==> t in Unfinished(HistoryOf(r)) && t in Redone(r).engine.wal.tables.transactions
  {
    var w := r.engine.wal;
    assert HistoryOf(Redone(r)) == HistoryOf(r);
    RebuiltIsKnown(r);
    forall t | t in tids ensures t in Reload(w).tables.transactions { assert t in AsSet(tids); }
    SameLowest(Reload(w).tables.transactions, Unfinished(HistoryOf(r)), tids);
    RebuiltIsBefore(r);
  }

  lemma RebuiltIsBefore(r: Run)
    requires LogInv(r) && DirtyInv(r)
    ensures AllBefore(Reload(r.engine.wal).tables.dirtyPages, NextIndex(r.engine.wal))
  {
    var w := r.engine.wal;
    if !HasCheckpoint(Current(w)) {
      NoSnapshot(Current(w));
      SplitHistory(r);
      assert forall i :: 0 <= i < |Current(w)| ==> Current(w)[i] == HistoryOf(r)[|Older(r)| + i];
      DirtyValues(EMPTY, Current(w), NextIndex(w));
    }
  }

  // ----- recovery -----

  lemma RecoverIsUndoes(r: Run, tids: seq<nat>)
    requires Inv(r) && IsDown(r, tids)
    requires LowestIndex(Redone(r).engine.wal.tables.transactions, tids).Some?
    ensures Undoes(Redone(r), Next(r, Recover(tids)), tids)
  {
    RedoneKeeps(r, tids);
  }

  /** A recovery is a redo, then an undo written through to the disk. */
  lemma RecoverPages(r: Run, tids: seq<nat>, undone: seq<Entry>, p: PageAddress)
    requires r.engine.wal.gens != [] && AllRecorded(undone, UndoPlan(Reload(r.engine.wal), tids))
    ensures var m, r' := Redone(r), Next(r, Recover(tids));
            && View(r'.engine.pages, p) == Content(View(m.engine.pages, p), undone, p)
            && (OnDisk(m.engine.pages, p) == View(m.engine.pages, p) ==>
                  OnDisk(r'.engine.pages, p) == View(r'.engine.pages, p))
  {
    var w, m := Reload(r.engine.wal), Redone(r);
    var redo, undo := RedoOps(Current(r.engine.wal), w.tables.dirtyPages), UndoOps(w, UndoPlan(w, tids));
    WriteThroughConcat(r.engine.pages, redo, undo);
    UndoOpsAre(w, UndoPlan(w, tids), undone);
    WriteThroughAllIs(m.engine.pages, undo, undone, p);
  }

  lemma NothingLive(r: Run, r': Run, tids: seq<nat>, undone: seq<Entry>, commits: seq<Entry>)
    requires UndoneIsLive(HistoryOf(r), undone, tids) && AllCommitted(commits, tids)
    requires HistoryOf(r') == HistoryOf(r) + (undone + commits)
    requires Enumerates(tids, Unfinished(HistoryOf(r)))
    ensures forall i :: !LiveAt(HistoryOf(r'), i)
  {
    TransactionsAreTheLiveOnes(HistoryOf(r));
    forall i ensures !LiveAt(HistoryOf(r'), i) {
      LiveAfterUndo(HistoryOf(r), undone, commits, tids, i);
      if LiveAt(HistoryOf(r), i) { assert HistoryOf(r)[i].item.tid in AsSet(tids); }
    }
  }

  lemma NothingAppended(m: Run, r': Run, nothing: seq<Entry>)
    requires LogInv(m) && r'.engine.wal == m.engine.wal && r'.archived == m.archived && r'.base == m.base
             && nothing == []
    ensures Extends(m.engine.wal, r'.engine.wal, nothing) && HistoryOf(r') == HistoryOf(m) + nothing && LogInv(r')
  {
    ExtendsNothing(m.engine.wal);
    HistoryExtends(m, r', nothing);
  }

  lemma NoLosers(m: Run, tids: seq<nat>)
    requires Enumerates(tids, m.engine.wal.tables.transactions)
    requires LowestIndex(m.engine.wal.tables.transactions, tids).None?
    ensures tids == []
  {
    LowestIsLeast(m.engine.wal.tables.transactions, tids);
    if tids != [] { NonEmpty(tids); }
  }

  lemma NonEmpty(tids: seq<nat>)
    requires tids != []
    ensures AsSet(tids) != {}
  {
    assert tids[0] in AsSet(tids);
  }

  /** What a recovery appends to the log; nothing, when no transaction was unfinished. */
  lemma RecoverAppends(r: Run, tids: seq<nat>) returns (undone: seq<Entry>, commits: seq<Entry>)
    requires Inv(r) && IsDown(r, tids)
    ensures var m, r' := Redone(r), Next(r, Recover(tids));
            && Extends(m.engine.wal, r'.engine.wal, undone + commits)
            && HistoryOf(r') == HistoryOf(r) + (undone + commits)
            && AllRecorded(undone, UndoPlan(m.engine.wal, tids)) && AllCommitted(commits, tids)
            && UndoneIsLive(HistoryOf(r), undone, tids)
            && LogInv(r')
  {
    var m, r' := Redone(r), Next(r, Recover(tids));
    RedoneKeeps(r, tids);
    if LowestIndex(m.engine.wal.tables.transactions, tids).Some? {
      RecoverIsUndoes(r, tids);
      undone, commits := UndoAppends(m, r', tids);
      UndoKeepsLog(m, r', tids, undone, commits);
    } else {
      undone, commits := [], [];
      NoLosers(m, tids);
      NothingAppended(m, r', undone + commits);
    }
  }

  // ----- what a recovery restores -----

  lemma UndoneSets(w: Wal, tids: seq<nat>, undone: seq<Entry>, p: PageAddress, i: nat)
    requires AllRecorded(undone, UndoPlan(w, tids))
    ensures Sets(undone, p, i) <==> TakesBack(w, tids, p, i)
  {
    var plan := UndoPlan(w, tids);
    if Sets(undone, p, i) {
      var k :| 0 <= k < |undone| && SetsByte(undone[k], p, i);
      assert Records(undone[k], plan[k]) && CoversByte(plan[k], p, i);
    }
    if TakesBack(w, tids, p, i) {
      var k :| 0 <= k < |plan| && CoversByte(plan[k], p, i);
      assert Records(undone[k], plan[k]) && SetsByte(undone[k], p, i);
    }
  }

  /** A byte comes out of a recovery as logged if and only if redo or undo sets it, or it was so on the disk before. */
  lemma RecoveredByte(r: Run, tids: seq<nat>, undone: seq<Entry>, p: PageAddress, i: nat)
    requires LogInv(r) && PageInv(r) && !r.engine.running && i < |r.base(p)|
    requires AllRecorded(undone, UndoPlan(Reload(r.engine.wal), tids))
    ensures var page, content := View(Redone(r).engine.pages, p), Content(r.base(p), HistoryOf(r), p);
            && |page| == |r.base(p)|
            && (Content(page, undone, p)[i] == Content(content, undone, p)[i] <==>
                || Replays(r.engine.wal, p, i) || TakesBack(Reload(r.engine.wal), tids, p, i)
                || OnDiskAsLogged(r, p, i))
  {
    RedoneByte(r, p, i);
    UndoneSets(Reload(r.engine.wal), tids, undone, p, i);
    var page, content := View(Redone(r).engine.pages, p), Content(r.base(p), HistoryOf(r), p);
    ByteOfContent(page, content, undone, p, i);
    ByteOfContent(content, page, undone, p, i);
  }

  /** A recovery leaves a page as its log says, the items that the recovery adds included, if and only if every byte
      that neither redo nor undo sets was already on the disk. */
  lemma RecoveryIsExactIff(r: Run, tids: seq<nat>, p: PageAddress)
    requires Inv(r) && IsDown(r, tids)
    ensures var r' := Next(r, Recover(tids));
            && (View(r'.engine.pages, p) == Content(r.base(p), HistoryOf(r'), p) <==> RecoveryReaches(r, tids, p))
            && OnDisk(r'.engine.pages, p) == View(r'.engine.pages, p) && |View(r'.engine.pages, p)| == PAGE_BODY_SIZE
  {
    var undone, commits := RecoverAppends(r, tids);
    RecoverPages(r, tids, undone, p);
    var _ := RedoneFrom(r, p);
    CommitsWriteNothing(r.base(p), HistoryOf(r), undone, commits, tids, p);
    assert |r.base(p)| == PAGE_BODY_SIZE;
    RecoveredPage(r, tids, undone, p);
  }

  lemma RecoveredPage(r: Run, tids: seq<nat>, undone: seq<Entry>, p: PageAddress)
    requires LogInv(r) && PageInv(r) && !r.engine.running && |r.base(p)| == PAGE_BODY_SIZE
    requires AllRecorded(undone, UndoPlan(Reload(r.engine.wal), tids))
    ensures var page, content := View(Redone(r).engine.pages, p), Content(r.base(p), HistoryOf(r), p);
            && |page| == PAGE_BODY_SIZE
            && (Content(page, undone, p) == Content(content, undone, p) <==> RecoveryReaches(r, tids, p))
  {
    var page, content := View(Redone(r).engine.pages, p), Content(r.base(p), HistoryOf(r), p);
    forall i: nat | i < |r.base(p)|
      ensures |page| == |r.base(p)|
      ensures Content(page, undone, p)[i] == Content(content, undone, p)[i] <==>
              Replays(r.engine.wal, p, i) || TakesBack(Reload(r.engine.wal), tids, p, i) || OnDiskAsLogged(r, p, i)
    {
      RecoveredByte(r, tids, undone, p, i);
    }
    RedoneByte(r, p, 0);
  }

  lemma {:induction false} AllDone(tables: Tables, tail: seq<Entry>, gen: nat)
    requires InGeneration(tail, gen) && forall i :: !LiveAt(tail, i)
    requires forall t :: t in tables.transactions ==> Completes(tail, t)
    ensures Replay(tables, tail).transactions == map[]
  {
    TransactionsAreTheLiveOnes(tail);
    forall t ensures t !in Replay(tables, tail).transactions {
      assert t in Replay(EMPTY, tail).transactions ==> Tracks(tail, t, Replay(EMPTY, tail).transactions[t]);
      StretchEffect(t, gen, tail, tables, EMPTY);
    }
  }

  /** After a recovery the table is empty. Nothing is unfinished if and only if the current generation told of all that
      was. */
  lemma LosersAreDone(r: Run, tids: seq<nat>)
    requires Inv(r) && IsDown(r, tids)
    ensures var r' := Next(r, Recover(tids));
            && r'.engine.wal.tables.transactions == map[]
            && (KnowsLosers(r) <==> forall i :: !LiveAt(HistoryOf(r'), i))
  {
    var undone, commits := RecoverAppends(r, tids);
    RedoneKeeps(r, tids);
    TailIsDone(HistoryOf(r), undone, commits, tids);
    TailInGeneration(Redone(r).engine.wal, Next(r, Recover(tids)).engine.wal, undone + commits);
    AllDone(Redone(r).engine.wal.tables, undone + commits, r.engine.wal.currentGenNum);
    LiveAfterRecovery(HistoryOf(r), undone, commits, tids);
  }

  lemma TailIsDone(log: seq<Entry>, undone: seq<Entry>, commits: seq<Entry>, tids: seq<nat>)
    requires UndoneIsLive(log, undone, tids) && AllCommitted(commits, tids)
    ensures forall i :: !LiveAt(undone + commits, i)
    ensures forall t :: t in AsSet(tids) ==> Completes(undone + commits, t)
  {
    var tail := undone + commits;
    forall t | t in AsSet(tids) ensures Completes(tail, t) {
      var k :| 0 <= k < |tids| && tids[k] == t;
      assert tail[|undone| + k].IsCommitOf(t);
    }
    forall i | 0 <= i < |tail| ensures !LiveAt(tail, i) {
      if i < |undone| {
        var k :| 0 <= k < |tids| && tids[k] == undone[i].item.tid;
        assert tail[|undone| + k].IsCommitOf(tail[i].item.tid);
      } else {
        assert commits[i - |undone|].IsCommitOf(tids[i - |undone|]);
      }
    }
  }

  lemma TailInGeneration(w: Wal, w': Wal, tail: seq<Entry>)
    requires Extends(w, w', tail)
    ensures InGeneration(tail, w.currentGenNum)
  {
  }

  lemma LiveAfterRecovery(log: seq<Entry>, undone: seq<Entry>, commits: seq<Entry>, tids: seq<nat>)
    requires UndoneIsLive(log, undone, tids) && AllCommitted(commits, tids)
    requires forall t :: t in tids ==> t in Unfinished(log)
    ensures AsSet(tids) == Unfinished(log).Keys <==> forall i :: !LiveAt(log + (undone + commits), i)
  {
    var next := log + (undone + commits);
    TransactionsAreTheLiveOnes(log);
    forall i ensures LiveAt(next, i) <==> LiveAt(log, i) && log[i].item.tid !in tids {
      LiveAfterUndo(log, undone, commits, tids, i);
    }
    if AsSet(tids) == Unfinished(log).Keys {
      forall i ensures !LiveAt(next, i) { if LiveAt(log, i) { assert log[i].item.tid in AsSet(tids); } }
    }
    if forall i :: !LiveAt(next, i) {
      forall t | t in Unfinished(log) ensures t in AsSet(tids) {
        assert Tracks(log, t, Unfinished(log)[t]);
        var i :| LastLive(log, i, t);
        assert !LiveAt(next, i);
      }
    }
  }

  lemma NothingUnfinished(log: seq<Entry>)
    requires forall i :: !LiveAt(log, i)
    ensures Unfinished(log) == map[]
  {
    TransactionsAreTheLiveOnes(log);
    assert forall t, ts :: !Tracks(log, t, ts);
  }

  lemma RecoveredTables(r: Run, tids: seq<nat>)
    requires Inv(r) && IsDown(r, tids)
    ensures var w, w' := Redone(r).engine.wal, Next(r, Recover(tids)).engine.wal;
            && AllBefore(w'.tables.dirtyPages, NextIndex(w'))
            && (HasCheckpoint(Current(w')) ==> Recovered(Current(w')) == w'.tables)
  {
    var m, r' := Redone(r), Next(r, Recover(tids));
    var undone, commits := RecoverAppends(r, tids);
    RedoneKeeps(r, tids);
    NoCheckpoints(undone, commits, UndoPlan(m.engine.wal, tids), tids);
    DirtyAppend(m.engine.wal.tables, undone + commits, NextIndex(m.engine.wal), NextIndex(r'.engine.wal),
                m.engine.wal.currentGenNum);
    if HasCheckpoint(Current(r.engine.wal)) {
      RecoveredAppend(Current(r.engine.wal), undone + commits);
    } else {
      NoCheckpointAppend(Current(r.engine.wal), undone + commits);
    }
  }

  /** A recovery that knows all unfinished transactions, and whose redo and undo reach all bytes that are not on the
      disk, keeps the invariant. */
  lemma RecoverKeeps(r: Run, tids: seq<nat>)
    requires Inv(r) && Enabled(r, Recover(tids))
    ensures Inv(Next(r, Recover(tids)))
  {
    var r' := Next(r, Recover(tids));
    var _, _ := RecoverAppends(r, tids);
    LosersAreDone(r, tids);
    NothingUnfinished(HistoryOf(r'));
    RecoveredTables(r, tids);
    forall p
      ensures View(r'.engine.pages, p) == Content(r'.base(p), HistoryOf(r'), p)
              && OnDisk(r'.engine.pages, p) == View(r'.engine.pages, p)
      ensures |OnDisk(r'.engine.pages, p)| == PAGE_BODY_SIZE && |r'.base(p)| == PAGE_BODY_SIZE
      ensures DiskCovers(r', p, r'.engine.wal.tables.dirtyPages)
    {
      assert RecoveryReaches(r, tids, p) && |r.base(p)| == PAGE_BODY_SIZE;
      RecoveryIsExactIff(r, tids, p);
      DiskCurrent(r', p, r'.engine.wal.tables.dirtyPages);
    }
    RecoveredInv(r');
  }

  lemma RecoveredInv(r': Run)
    requires LogInv(r') && PageInv(r') && r'.engine.running && r'.sessionStart == |HistoryOf(r')|
             && r'.engine.active == {}
    requires r'.engine.wal.tables.transactions == map[] == Unfinished(HistoryOf(r'))
             && forall i :: !LiveAt(HistoryOf(r'), i)
    requires forall p :: DiskCovers(r', p, r'.engine.wal.tables.dirtyPages)
    requires AllBefore(r'.engine.wal.tables.dirtyPages, NextIndex(r'.engine.wal))
    requires HasCheckpoint(Current(r'.engine.wal)) ==> Recovered(Current(r'.engine.wal)) == r'.engine.wal.tables
    ensures Inv(r')
  {
    assert TableInv(r') && DirtyInv(r') && LockInv(r') && SessionInv(r');
  }

  /** The guard of the recovery step is exact: a recovery keeps the invariant if and only if the step is enabled. */
  lemma RecoverKeepsIff(r: Run, tids: seq<nat>)
    requires Inv(r) && IsDown(r, tids)
    ensures Inv(Next(r, Recover(tids))) <==> CanRecover(r, tids)
  {
    var r' := Next(r, Recover(tids));
    if Inv(r') {
      LosersAreDone(r, tids);
      TransactionsAreTheLiveOnes(HistoryOf(r'));
      assert KnowsLosers(r);
      forall p ensures RecoveryReaches(r, tids, p) {
        assert View(r'.engine.pages, p) == Content(r'.base(p), HistoryOf(r'), p);
        RecoveryIsExactIff(r, tids, p);
      }
    } else if CanRecover(r, tids) {
      RecoverKeeps(r, tids);
    }
  }

  /** It is enough that the current generation has a checkpoint, and that all that older ones have logged is on the
      disk. */
  lemma OlderOnDiskSuffices(r: Run, tids: seq<nat>)
    requires Inv(r) && IsDown(r, tids) && HasCheckpoint(Current(r.engine.wal)) && OlderOnDisk(r)
    ensures CanRecover(r, tids)
  {
    forall p ensures RecoveryReaches(r, tids, p) {
      assert OlderOnDiskAt(r, p) && DiskCovers(r, p, Recovered(Current(r.engine.wal)).dirtyPages);
      RedoAtPage(r, p);
      RedoRestoresIff(r, p);
    }
  }

  // ----- every run -----

  /** Every step keeps the invariant. */
  lemma StepKeeps(r: Run, s: Step)
    requires Inv(r) && Enabled(r, s)
    ensures s.WritePage? ==> s.offset + |s.buf| <= |View(r.engine.pages, s.p)|
    ensures Inv(Next(r, s))
  {
    match s
    case Begin => BeginKeeps(r);
    case WritePage(t, p, offset, buf) => WriteKeeps(r, t, p, offset, buf);
    case CommitTransaction(t) => CommitKeeps(r, t);
    case UndoTransaction(t) => UndoKeeps(r, t);
    case RotateLog => RotateKeeps(r);
    case LogCheckpoint => CheckpointKeeps(r);
    case FlushPage(p) => FlushKeeps(r, s);
    case CacheDidFlush => FlushKeeps(r, s);
    case Crash => CrashKeeps(r);
    case CrashInRedo(scanned) => CrashInRedoKeeps(r, scanned);
    case Recover(tids) => RecoverKeeps(r, tids);
  }
}
