/** When a checkpoint has room. */
module CheckpointRoom {
  // The dirty-page table only grows, as nothing in the original tells the log of a flush. How large it has become, and
  // whether a checkpoint of it still fits one item of the log, can be told from the steps of a run.
  import opened Bytes
  import opened WalTypes
  import opened Tables
  import opened WalModel
  import opened Engine
  import opened Invariant
  import opened Steps
  import opened UndoSteps
  import opened RecoverSteps
  import opened Atomicity

  /** The store is not told of a flush, and does not crash. */
  ghost predicate Unflushed(steps: seq<Step>) {
    forall i :: 0 <= i < |steps| ==>
                  !steps[i].CacheDidFlush? && !steps[i].Crash? && !steps[i].CrashInRedo? && !steps[i].Recover?
  }

  function WrittenBy(s: Step): set<PageAddress> {
    if s.WritePage? then {s.p} else {}
  }

  /** The pages that a run writes. */
  function WrittenPages(steps: seq<Step>): set<PageAddress> {
    if steps == [] then {} else WrittenPages(steps[..|steps| - 1]) + WrittenBy(steps[|steps| - 1])
  }

  lemma {:induction false} WrittenFrom(steps: seq<Step>)
    requires steps != []
    ensures WrittenPages(steps) == WrittenBy(steps[0]) + WrittenPages(steps[1..])
  {
    var n := |steps| - 1;
    if n == 0 {
      assert steps[..0] == [] && steps[1..] == [];
    } else {
      WrittenFrom(steps[..n]);
      assert steps[..n][1..] == steps[1..][..n - 1];
    }
  }

  /** The dirty-page table has exactly these pages, and among them all that an unfinished transaction has written. */
  ghost predicate DirtyAre(r: Run, pages: set<PageAddress>) {
    && r.engine.running && r.engine.wal.tables.dirtyPages.Keys == pages
    && forall i :: LiveAt(HistoryOf(r), i) ==> HistoryOf(r)[i].item.page in pages
  }

  lemma {:induction false} DirtyKeys(tables: Tables, tail: seq<Entry>, pages: set<PageAddress>)
    requires tables.dirtyPages.Keys <= pages
    requires forall i :: 0 <= i < |tail| && tail[i].item.Write? ==> tail[i].item.page in pages
    ensures tables.dirtyPages.Keys <= Replay(tables, tail).dirtyPages.Keys <= pages
  {
    if tail != [] { DirtyKeys(tables, tail[..|tail| - 1], pages); }
  }

  lemma OneIsLogged(r: Run, r': Run, e: Entry, pages: set<PageAddress>)
    requires DirtyAre(r, pages) && Logs(r, r', e)
    ensures DirtyAre(r', pages + if e.item.Write? then {e.item.page} else {})
  {
    LoggedHistory(r, r', e);
    ReplayAppend(r.engine.wal.tables, [], e);
    assert [] + [e] == [e];
    forall i | LiveAt(HistoryOf(r'), i)
      ensures HistoryOf(r')[i].item.page in pages + if e.item.Write? then {e.item.page} else {}
    {
      LiveAfterAppend(HistoryOf(r), e, i);
    }
  }

  lemma UndoIsLogged(r: Run, t: nat, pages: set<PageAddress>)
    requires Inv(r) && DirtyAre(r, pages) && Enabled(r, UndoTransaction(t))
    ensures DirtyAre(Next(r, UndoTransaction(t)), pages)
  {
    var r' := Next(r, UndoTransaction(t));
    if t in r.engine.wal.tables.transactions {
      UndoIsUndoes(r, t);
      var undone, commits := UndoAppends(r, r', [t]);
      UndoneArePages(HistoryOf(r), undone, commits, [t], pages);
      DirtyKeys(r.engine.wal.tables, undone + commits, pages);
      forall i | LiveAt(HistoryOf(r'), i) ensures HistoryOf(r')[i].item.page in pages {
        LiveAfterUndo(HistoryOf(r), undone, commits, [t], i);
      }
    } else {
      NothingToUndo(r, t);
    }
  }

  lemma UndoneArePages(log: seq<Entry>, undone: seq<Entry>, commits: seq<Entry>, tids: seq<nat>,
                       pages: set<PageAddress>)
    requires UndoneIsLive(log, undone, tids) && AllCommitted(commits, tids)
    requires forall i :: LiveAt(log, i) ==> log[i].item.page in pages
    ensures var tail := undone + commits; forall i :: 0 <= i < |tail| && tail[i].item.Write? ==>
                                                        tail[i].item.page in pages
  {
    forall i | 0 <= i < |undone| ensures undone[i].item.page in pages {
      assert OwnsPage(log, undone[i].item.tid, undone[i].item.page);
    }
    assert forall i :: 0 <= i < |commits| ==> commits[i].IsCommitOf(tids[i]);
  }

  lemma StepAdds(r: Run, s: Step, pages: set<PageAddress>)
    requires Inv(r) && CanStep(r, s) && DirtyAre(r, pages) && Unflushed([s])
    ensures DirtyAre(Next(r, s), pages + WrittenBy(s))
  {
    assert [s][0] == s && pages + {} == pages;
    match s
    case WritePage(t, p, offset, buf) =>
      WriteLogs(r, t, p, offset, buf);
      OneIsLogged(r, Next(r, s), WriteEntry(r, t, p, offset, buf), pages);
    case CommitTransaction(t) => OneIsLogged(r, Next(r, s),
                                             Entry(NextIndex(r.engine.wal), CommitItem(r.engine.wal, t)), pages);
    case LogCheckpoint => OneIsLogged(r, Next(r, s), Entry(NextIndex(r.engine.wal), CheckpointItem(r.engine.wal)),
                                      pages);
    case UndoTransaction(t) => UndoIsLogged(r, t, pages);
    case RotateLog => RotateHistory(r);
    case Begin => assert HistoryOf(Next(r, s)) == HistoryOf(r);
    case FlushPage(_) => assert HistoryOf(Next(r, s)) == HistoryOf(r);
  }

  lemma {:induction false} RunAdds(r: Run, steps: seq<Step>, pages: set<PageAddress>)
    requires Inv(r) && CanRun(r, steps) && DirtyAre(r, pages) && Unflushed(steps)
    ensures Inv(After(r, steps)) && DirtyAre(After(r, steps), pages + WrittenPages(steps))
    decreases |steps|
  {
    if steps == [] {
      assert pages + {} == pages;
    } else {
      FirstAndRest(steps, pages);
      StepKeeps(r, steps[0]);
      StepAdds(r, steps[0], pages);
      RunAdds(Next(r, steps[0]), steps[1..], pages + WrittenBy(steps[0]));
    }
  }

  lemma FirstAndRest(steps: seq<Step>, pages: set<PageAddress>)
    requires steps != [] && Unflushed(steps)
    ensures Unflushed([steps[0]]) && Unflushed(steps[1..])
    ensures pages + WrittenBy(steps[0]) + WrittenPages(steps[1..]) == pages + WrittenPages(steps)
  {
    WrittenFrom(steps);
  }

  lemma StartIsClean(disk: map<PageAddress, seq<byte>>)
    ensures DirtyAre(Start(disk), {})
  {
    StartHistory(disk);
    assert forall i :: !LiveAt([FirstEntry()], i);
  }

  lemma RoomOf(r: Run, pages: set<PageAddress>)
    requires TableInv(r) && DirtyAre(r, pages)
    ensures Enabled(r, LogCheckpoint) <==> 22 * |pages| + 32 * |Unfinished(HistoryOf(r))| <= 65519
  {
    assert |r.engine.wal.tables.dirtyPages| == |r.engine.wal.tables.dirtyPages.Keys|;
  }

  /** In a run from the creation on without a crash, the dirty-page table has exactly the pages that were written, and a
      checkpoint can be logged if and only if these and the unfinished transactions are not too many. */
  lemma RoomIff(disk: map<PageAddress, seq<byte>>, steps: seq<Step>)
    requires WellSized(disk) && CanRun(Start(disk), steps) && Unflushed(steps)
    ensures var r := After(Start(disk), steps);
            && r.engine.wal.tables.dirtyPages.Keys == WrittenPages(steps)
            && (Enabled(r, LogCheckpoint) <==> 22 * |WrittenPages(steps)| + 32 * |Unfinished(HistoryOf(r))| <= 65519)
  {
    StartKeeps(disk);
    StartIsClean(disk);
    RoomAfter(Start(disk), steps);
  }

  lemma RoomAfter(r: Run, steps: seq<Step>)
    requires Inv(r) && CanRun(r, steps) && DirtyAre(r, {}) && Unflushed(steps)
    ensures var r' := After(r, steps);
            && r'.engine.wal.tables.dirtyPages.Keys == WrittenPages(steps)
            && (Enabled(r', LogCheckpoint) <==> 22 * |WrittenPages(steps)| + 32 * |Unfinished(HistoryOf(r'))| <= 65519)
  {
    RunAdds(r, steps, {});
    assert {} + WrittenPages(steps) == WrittenPages(steps);
    RoomOf(After(r, steps), WrittenPages(steps));
  }

  // ----- a run that fills the table -----

  function PageOf(k: nat): PageAddress {
    PageAddress(k, 1)
  }

  function PagesBelow(n: nat): set<PageAddress> {
    set k: nat | k < n :: PageOf(k)
  }

  lemma {:induction false} PagesBelowCount(n: nat)
    ensures |PagesBelow(n)| == n
  {
    if n > 0 {
      PagesBelowCount(n - 1);
      OneMoreBelow(n - 1);
    }
  }

  /** The one transaction has taken all the locks there are. */
  ghost predicate Alone(r: Run) {
    r.engine.running && 0 in r.engine.active && forall p :: p in r.engine.locks ==> r.engine.locks[p] == 0
  }

  lemma BeginAlone(disk: map<PageAddress, seq<byte>>)
    requires WellSized(disk)
    ensures CanStep(Start(disk), Begin) && Inv(Next(Start(disk), Begin)) && Alone(Next(Start(disk), Begin))
  {
    StartKeeps(disk);
    StartBlank(disk);
    BeginsAlone(Start(disk));
  }

  lemma StartBlank(disk: map<PageAddress, seq<byte>>)
    ensures Start(disk).engine.running && Start(disk).engine.locks == map[] && Start(disk).engine.nextTid == 0
    ensures Start(disk).engine.wal.gens != []
  {
  }

  lemma BeginsAlone(r: Run)
    requires Inv(r) && r.engine.running && r.engine.locks == map[] && r.engine.nextTid == 0
    ensures CanStep(r, Begin) && Inv(Next(r, Begin)) && Alone(Next(r, Begin))
  {
    StepKeeps(r, Begin);
  }

  lemma WriteAlone(r: Run, p: PageAddress)
    requires Inv(r) && Alone(r)
    ensures CanStep(r, WritePage(0, p, 0, [1])) && Inv(Next(r, WritePage(0, p, 0, [1])))
            && Alone(Next(r, WritePage(0, p, 0, [1])))
  {
    WriteFits(r, p);
    StepKeeps(r, WritePage(0, p, 0, [1]));
  }

  /** There is a run that writes any number of pages. */
  lemma {:induction false} ManyPages(start: Run, n: nat) returns (steps: seq<Step>)
    requires CanStep(start, Begin) && Inv(Next(start, Begin)) && Alone(Next(start, Begin))
    ensures CanRun(start, steps) && Unflushed(steps) && WrittenPages(steps) == PagesBelow(n)
    ensures Inv(After(start, steps)) && Alone(After(start, steps))
  {
    if n == 0 {
      OneMoreStep(start, [], Begin);
      OneWritten([], Begin);
      steps := [] + [Begin];
      assert PagesBelow(0) == {};
    } else {
      var before := ManyPages(start, n - 1);
      steps := OneMorePage(start, before, n - 1);
    }
  }

  lemma OneMorePage(start: Run, before: seq<Step>, n: nat) returns (steps: seq<Step>)
    requires CanRun(start, before) && Unflushed(before) && WrittenPages(before) == PagesBelow(n)
    requires Inv(After(start, before)) && Alone(After(start, before))
    ensures CanRun(start, steps) && Unflushed(steps) && WrittenPages(steps) == PagesBelow(n + 1)
    ensures Inv(After(start, steps)) && Alone(After(start, steps))
  {
    var s := WritePage(0, PageOf(n), 0, [1]);
    WriteAlone(After(start, before), PageOf(n));
    OneMoreStep(start, before, s);
    OneWritten(before, s);
    OneMoreBelow(n);
    steps := before + [s];
  }

  lemma OneMoreBelow(n: nat)
    ensures PagesBelow(n + 1) == PagesBelow(n) + {PageOf(n)}
  {
  }

  lemma OneWritten(steps: seq<Step>, s: Step)
    requires Unflushed(steps) && (s.Begin? || s.WritePage?)
    ensures Unflushed(steps + [s]) && WrittenPages(steps + [s]) == WrittenPages(steps) + WrittenBy(s)
  {
    assert (steps + [s])[..|steps|] == steps;
  }

  /** After 2979 pages, and as long as it is not told of a flush, the store can log no checkpoint any more. */
  lemma NoRoomLeft(disk: map<PageAddress, seq<byte>>, n: nat) returns (steps: seq<Step>)
    requires WellSized(disk)
    ensures CanRun(Start(disk), steps) && Unflushed(steps) && |WrittenPages(steps)| == n
    ensures n >= 2979 ==> !Enabled(After(Start(disk), steps), LogCheckpoint)
  {
    BeginAlone(disk);
    steps := ManyPages(Start(disk), n);
    PagesBelowCount(n);
    RoomIff(disk, steps);
  }
}
