/** Runs in which nothing is lost. */
module Durability {
  // A recovery can restore what is logged if every page is written to the disk before a rotation, and if the current
  // generation has a checkpoint when the store crashes. The original ensures neither.
  import opened Bytes
  import opened WalTypes
  import opened Tables
  import opened History
  import opened WalModel
  import opened Engine
  import opened Invariant
  import opened Steps
  import opened UndoSteps
  import opened RecoverSteps
  import opened Atomicity
  import opened Ledger

  // ----- which losers a generation tells of -----

  /** The current generation tells which transactions are unfinished if and only if it has a checkpoint, or each of
      those that were unfinished before writes in it or completes in it. */
  lemma KnowsLosersIff(r: Run)
    requires LogInv(r) && TableInv(r)
    ensures KnowsLosers(r) <==>
            || HasCheckpoint(Current(r.engine.wal))
            || forall t :: t in Unfinished(Older(r)) ==> Completes(Current(r.engine.wal), t)
                                                         || Writes(Current(r.engine.wal), t)
  {
    var w := r.engine.wal;
    if !HasCheckpoint(Current(w)) {
      NoSnapshot(Current(w));
      SplitHistory(r);
      ReplayConcat(EMPTY, Older(r), Current(w));
      assert InGeneration(Current(w), w.currentGenNum) by { assert GenerationOk(Last(w.gens)); }
      SameKeysIff(Replay(EMPTY, Older(r)), w.currentGenNum, Current(w));
    }
  }

  lemma SameKeysIff(start: Tables, gen: nat, log: seq<Entry>)
    requires InGeneration(log, gen)
    ensures Replay(EMPTY, log).transactions.Keys == Replay(start, log).transactions.Keys
       <==> forall t :: t in start.transactions ==> Completes(log, t) || Writes(log, t)
  {
    var rebuilt, live := Replay(EMPTY, log).transactions, Replay(start, log).transactions;
    forall t ensures (t in rebuilt <==> t in live) <==>
                     (t in start.transactions ==> Completes(log, t) || Writes(log, t)) {
      StretchEffect(t, gen, log, EMPTY, start);
      StretchEffect(t, gen, log, start, EMPTY);
    }
    if forall t :: t in start.transactions ==> Completes(log, t) || Writes(log, t) {
      assert rebuilt.Keys == live.Keys;
    } else {
      var t :| t in start.transactions && !(Completes(log, t) || Writes(log, t));
      assert (t in rebuilt.Keys) != (t in live.Keys);
    }
  }

  // ----- rotations after a flush -----

  ghost predicate AllFlushed(r: Run) {
    forall p :: OnDisk(r.engine.pages, p) == View(r.engine.pages, p)
  }

  /** The log is rotated only when every page is on the disk as it is in memory, and a recovery needs no more than a
      checkpoint in the current generation. Nothing is asked of what is on the disk. */
  ghost predicate Careful(r: Run, s: Step) {
    match s
    case RotateLog => Enabled(r, s) && AllFlushed(r)
    case Recover(tids) => IsDown(r, tids) && HasCheckpoint(Current(r.engine.wal))
    case Begin => Enabled(r, s)
    case WritePage(_, _, _, _) => Enabled(r, s)
    case CommitTransaction(_) => Enabled(r, s)
    case UndoTransaction(_) => Enabled(r, s)
    case LogCheckpoint => Enabled(r, s)
    case FlushPage(_) => Enabled(r, s)
    case CacheDidFlush => Enabled(r, s)
    case Crash => Enabled(r, s)
    case CrashInRedo(_) => Enabled(r, s)
  }

  ghost predicate CarefulStep(r: Run, s: Step) {
    && r.engine.wal.gens != [] && Careful(r, s)
    && (s.WritePage? ==> s.offset + |s.buf| <= |View(r.engine.pages, s.p)|)
    && (s.CrashInRedo? ==> s.scanned <= |Current(r.engine.wal)|)
  }

  ghost predicate CarefulRun(r: Run, steps: seq<Step>)
    decreases |steps|
  {
    steps == [] || (CarefulStep(r, steps[0]) && CarefulRun(Next(r, steps[0]), steps[1..]))
  }

  lemma CurrentPages(r: Run, p: PageAddress)
    requires OnDisk(r.engine.pages, p) == Content(r.base(p), HistoryOf(r), p)
    ensures OlderOnDiskAt(r, p)
  {
    ReflectsNow(r.base(p), HistoryOf(r), p);
  }

  /** What is logged in the current generation does not matter. */
  lemma OlderStays(r: Run, r': Run, p: PageAddress, tail: seq<Entry>)
    requires OlderOnDiskAt(r, p) && HistoryOf(r') == HistoryOf(r) + tail && r'.base == r.base
    requires r'.engine.wal.currentGenNum == r.engine.wal.currentGenNum && InGeneration(tail, r.engine.wal.currentGenNum)
    requires OnDisk(r'.engine.pages, p) == OnDisk(r.engine.pages, p)
    ensures OlderOnDiskAt(r', p)
  {
    var log := HistoryOf(r);
    var k :| 0 <= k <= |log| && ReflectsFrom(r.base(p), OnDisk(r.engine.pages, p), log, k, p)
             && forall i :: k <= i < |log| && log[i].WritesTo(p) ==>
                              log[i].index.generation == r.engine.wal.currentGenNum;
    ReflectsMore(r.base(p), OnDisk(r.engine.pages, p), log, tail, k, p);
    assert forall i :: |log| <= i < |log + tail| ==> (log + tail)[i] == tail[i - |log|];
  }

  lemma OlderStaysEverywhere(r: Run, r': Run, tail: seq<Entry>)
    requires OlderOnDisk(r) && HistoryOf(r') == HistoryOf(r) + tail && r'.base == r.base
    requires r'.engine.wal.currentGenNum == r.engine.wal.currentGenNum && InGeneration(tail, r.engine.wal.currentGenNum)
    requires r'.engine.pages.disk == r.engine.pages.disk
    ensures OlderOnDisk(r')
  {
    forall p ensures OlderOnDiskAt(r', p) {
      assert OlderOnDiskAt(r, p) && OnDisk(r'.engine.pages, p) == OnDisk(r.engine.pages, p);
      OlderStays(r, r', p, tail);
    }
  }

  lemma NothingLogged(r: Run, r': Run)
    requires OlderOnDisk(r) && HistoryOf(r') == HistoryOf(r) && r'.base == r.base
    requires r'.engine.wal.currentGenNum == r.engine.wal.currentGenNum && r'.engine.pages.disk == r.engine.pages.disk
    ensures OlderOnDisk(r')
  {
    assert HistoryOf(r) + [] == HistoryOf(r);
    OlderStaysEverywhere(r, r', []);
  }

  lemma OneLogged(r: Run, r': Run, e: Entry)
    requires OlderOnDisk(r) && Logs(r, r', e)
    ensures OlderOnDisk(r')
  {
    LoggedHistory(r, r', e);
    OlderStaysEverywhere(r, r', [e]);
  }

  lemma UndoOlder(r: Run, t: nat)
    requires Inv(r) && OlderOnDisk(r) && Enabled(r, UndoTransaction(t))
    ensures OlderOnDisk(Next(r, UndoTransaction(t)))
  {
    var r' := Next(r, UndoTransaction(t));
    if t in r.engine.wal.tables.transactions {
      UndoIsUndoes(r, t);
      var undone, commits := UndoAppends(r, r', [t]);
      UndoKeepsPages(r, r', t, undone, commits);
      TailInGeneration(r.engine.wal, r'.engine.wal, undone + commits);
      OlderStaysEverywhere(r, r', undone + commits);
    } else {
      NothingToUndo(r, t);
      NothingLogged(r, r');
    }
  }

  lemma FlushOlder(r: Run, s: Step)
    requires Inv(r) && OlderOnDisk(r) && Enabled(r, s) && (s.FlushPage? || s.CacheDidFlush?)
    ensures OlderOnDisk(Next(r, s))
  {
    var r' := Next(r, s);
    assert HistoryOf(r') == HistoryOf(r);
    forall p ensures OlderOnDiskAt(r', p) {
      assert OlderOnDiskAt(r, p) && View(r.engine.pages, p) == Content(r.base(p), HistoryOf(r), p);
      if OnDisk(r'.engine.pages, p) == View(r.engine.pages, p) {
        CurrentPages(r', p);
      } else {
        assert HistoryOf(r) + [] == HistoryOf(r);
        OlderStays(r, r', p, []);
      }
    }
  }

  lemma RotateOlder(r: Run)
    requires Inv(r) && Enabled(r, RotateLog) && AllFlushed(r)
    ensures OlderOnDisk(Next(r, RotateLog))
  {
    var r' := Next(r, RotateLog);
    RotateHistory(r);
    forall p ensures OlderOnDiskAt(r', p) {
      assert OnDisk(r.engine.pages, p) == View(r.engine.pages, p) == Content(r.base(p), HistoryOf(r), p);
      CurrentPages(r', p);
    }
  }

  lemma RecoverOlder(r: Run, tids: seq<nat>)
    requires Inv(r) && CanRecover(r, tids)
    ensures OlderOnDisk(Next(r, Recover(tids)))
  {
    var r' := Next(r, Recover(tids));
    forall p ensures OlderOnDiskAt(r', p) {
      assert RecoveryReaches(r, tids, p);
      RecoveryIsExactIff(r, tids, p);
      CurrentPages(r', p);
    }
  }

  lemma CrashInRedoOlder(r: Run, scanned: nat, p: PageAddress)
    requires Inv(r) && OlderOnDiskAt(r, p) && Enabled(r, CrashInRedo(scanned))
    ensures OlderOnDiskAt(Next(r, CrashInRedo(scanned)), p)
  {
    var w, r', log := r.engine.wal, Next(r, CrashInRedo(scanned)), HistoryOf(r);
    var k :| 0 <= k <= |log| && ReflectsFrom(r.base(p), OnDisk(r.engine.pages, p), log, k, p)
             && forall i :: k <= i < |log| && log[i].WritesTo(p) ==> log[i].index.generation == w.currentGenNum;
    SplitHistory(r);
    k := PartialRedoReflects(r.base(p), Older(r), Current(w), Reload(w).tables.dirtyPages, r.engine.pages, p, k,
                             scanned);
    WriteThroughAgrees(r.engine.pages, RedoOps(Current(w)[..scanned], Reload(w).tables.dirtyPages), p);
    assert HistoryOf(r') == log
           && OnDisk(r'.engine.pages, p) ==
              View(WriteThroughAll(r.engine.pages, RedoOps(Current(w)[..scanned], Reload(w).tables.dirtyPages)), p);
    assert GenerationOk(Last(w.gens));
    assert forall i :: |Older(r)| <= i < |log| ==> log[i] == Current(w)[i - |Older(r)|];
  }

  lemma QuietOlder(r: Run, s: Step)
    requires Inv(r) && OlderOnDisk(r) && Enabled(r, s) && (s.Begin? || s.Crash?)
    ensures OlderOnDisk(Next(r, s))
  {
    NothingLogged(r, Next(r, s));
  }

  lemma LoggedOlder(r: Run, s: Step)
    requires Inv(r) && OlderOnDisk(r) && CanStep(r, s) && (s.WritePage? || s.CommitTransaction? || s.LogCheckpoint?)
    ensures OlderOnDisk(Next(r, s))
  {
    match s
    case WritePage(t, p, offset, buf) =>
      WriteLogs(r, t, p, offset, buf);
      OneLogged(r, Next(r, s), WriteEntry(r, t, p, offset, buf));
    case CommitTransaction(t) => OneLogged(r, Next(r, s), Entry(NextIndex(r.engine.wal), CommitItem(r.engine.wal, t)));
    case LogCheckpoint => OneLogged(r, Next(r, s), Entry(NextIndex(r.engine.wal), CheckpointItem(r.engine.wal)));
  }

  lemma PartlyRedoneOlder(r: Run, scanned: nat)
    requires Inv(r) && OlderOnDisk(r) && Enabled(r, CrashInRedo(scanned))
    ensures OlderOnDisk(Next(r, CrashInRedo(scanned)))
  {
    forall p ensures OlderOnDiskAt(Next(r, CrashInRedo(scanned)), p) {
      assert OlderOnDiskAt(r, p);
      CrashInRedoOlder(r, scanned, p);
    }
  }

  /** A careful step can be taken, and leaves what the older generations have logged on the disk. */
  lemma CarefulStepKeeps(r: Run, s: Step)
    requires Inv(r) && OlderOnDisk(r) && CarefulStep(r, s)
    ensures CanStep(r, s) && Inv(Next(r, s)) && OlderOnDisk(Next(r, s))
  {
    if s.Recover? { OlderOnDiskSuffices(r, s.tids); }
    StepKeeps(r, s);
    StaysOlder(r, s);
  }

  lemma StaysOlder(r: Run, s: Step)
    requires Inv(r) && OlderOnDisk(r) && CanStep(r, s) && (s.RotateLog? ==> AllFlushed(r))
    ensures OlderOnDisk(Next(r, s))
  {
    match s
    case Begin => QuietOlder(r, s);
    case WritePage(_, _, _, _) => LoggedOlder(r, s);
    case CommitTransaction(_) => LoggedOlder(r, s);
    case UndoTransaction(t) => UndoOlder(r, t);
    case RotateLog => RotateOlder(r);
    case LogCheckpoint => LoggedOlder(r, s);
    case FlushPage(_) => FlushOlder(r, s);
    case CacheDidFlush => FlushOlder(r, s);
    case Crash => QuietOlder(r, s);
    case CrashInRedo(scanned) => PartlyRedoneOlder(r, scanned);
    case Recover(tids) => RecoverOlder(r, tids);
  }

  lemma {:induction false} CarefulRunKeeps(r: Run, steps: seq<Step>)
    requires Inv(r) && OlderOnDisk(r) && CarefulRun(r, steps)
    ensures CanRun(r, steps)
    decreases |steps|
  {
    if steps != [] {
      CarefulStepKeeps(r, steps[0]);
      CarefulRunKeeps(Next(r, steps[0]), steps[1..]);
    }
  }

  /** Every careful run is a run of the machine, its recoveries included, and is booked. */
  lemma CarefulRunsRecover(disk: map<PageAddress, seq<byte>>, steps: seq<Step>, p: PageAddress)
    requires WellSized(disk) && CarefulRun(Start(disk), steps)
    ensures CanRun(Start(disk), steps)
    ensures var r, b := After(Start(disk), steps), BookAfter(Start(disk).base, Book(map[], []), steps);
            && Settled(r.base(p), HistoryOf(r), p, {}) == Published(Start(disk).base, b, p)
            && (r.engine.running ==> View(r.engine.pages, p) == Seen(Start(disk).base, b, p))
  {
    StartKeeps(disk);
    StartIsOnDisk(disk);
    CarefulRunKeeps(Start(disk), steps);
    EveryRunIsBooked(disk, steps, p);
  }

  lemma StartIsOnDisk(disk: map<PageAddress, seq<byte>>)
    requires WellSized(disk)
    ensures OlderOnDisk(Start(disk))
  {
    forall p ensures OlderOnDiskAt(Start(disk), p) {
      StartPage(disk, p);
      CurrentPages(Start(disk), p);
    }
  }
}
