/** Runs that lose something. They are short, and start from the creation of a store: an undo leaves a write behind, a
    recovery would not know of a transaction, a recovery does not bring back what was committed, or it leaves what was
    not, because a checkpoint was logged too early. */
module Witnesses {
  import opened Bytes
  import opened WalTypes
  import opened Tables
  import opened History
  import opened WalModel
  import opened Engine
  import opened Invariant
  import opened Steps
  import opened UndoSteps
  import opened RecoverSteps
  import opened Atomicity
  import opened Durability

  const PAGE: PageAddress := PageAddress(0, 1)

  /** What is needed of a new store. */
  ghost predicate New(start: Run) {
    && Inv(start) && OlderOnDisk(start) && HistoryOf(start) == [FirstEntry()] && start.base(PAGE) == ZeroPage()
    && |start.engine.wal.gens| == 1 && start.archived == [] && start.engine.wal.tables == EMPTY
    && start.engine.pages == Pages(map[], map[]) && start.engine.locks == map[] && start.engine.active == {}
    && start.engine.nextTid == 0 && start.engine.running
  }

  lemma StartIsNew()
    ensures New(Start(map[]))
  {
    StartKeeps(map[]);
    StartIsOnDisk(map[]);
    StartHistory(map[]);
    StartSays();
  }

  lemma StartSays()
    ensures var start := Start(map[]);
            && start.engine.locks == map[] && start.engine.nextTid == 0 && start.base(PAGE) == ZeroPage()
            && start.engine.pages == Pages(map[], map[]) && start.engine.wal.tables == EMPTY && start.engine.running
            && |start.engine.wal.gens| == 1 && start.archived == [] && start.engine.active == {}
  {
  }

  lemma BegunFrom(start: Run) returns (r: Run)
    requires Inv(start) && start.engine.running && start.engine.active == {} && start.engine.nextTid == 0
    ensures CanStep(start, Begin) && r == Next(start, Begin)
    ensures Inv(r) && r.engine.running && r.engine.active == {0} && r.engine.locks == start.engine.locks
    ensures r.base == start.base && HistoryOf(r) == HistoryOf(start)
    ensures r.engine.pages == start.engine.pages && r.engine.wal == start.engine.wal
  {
    r := Next(start, Begin);
    BeginSays(start, r);
  }

  lemma BeginSays(r: Run, r': Run)
    requires Inv(r) && r.engine.running && r' == Next(r, Begin)
    ensures CanStep(r, Begin) && Inv(r') && HistoryOf(r') == HistoryOf(r) && r'.base == r.base
            && r'.engine.locks == r.engine.locks
    ensures r'.engine.running && r'.engine.active == r.engine.active + {r.engine.nextTid}
    ensures r'.engine.pages == r.engine.pages && r'.engine.wal == r.engine.wal
  {
    StepKeeps(r, Begin);
  }

  lemma Written(begun: Run) returns (r: Run)
    requires Inv(begun) && begun.engine.running && begun.engine.active == {0} && begun.engine.locks == map[]
    requires HistoryOf(begun) == [FirstEntry()] && begun.engine.wal.tables == EMPTY
    ensures CanStep(begun, WritePage(0, PAGE, 0, [1])) && r == Next(begun, WritePage(0, PAGE, 0, [1]))
    ensures Inv(r) && r.engine.running && r.engine.active == {0} && r.engine.locks == map[PAGE := 0]
    ensures r.base == begun.base && FirstIs(HistoryOf(r)) && r.engine.pages.disk == begun.engine.pages.disk
    ensures r.engine.wal.tables.dirtyPages.Keys == {PAGE}
  {
    CanWrite(begun);
    r := WriteSays(begun, 0, [1]);
    FirstIsWritten(WriteEntry(begun, 0, PAGE, 0, [1]));
    assert EMPTY.dirtyPages.Keys + {PAGE} == {PAGE};
  }

  lemma CanWrite(begun: Run)
    requires begun.engine.running && begun.engine.active == {0} && begun.engine.locks == map[]
    ensures Enabled(begun, WritePage(0, PAGE, 0, [1]))
  {
  }

  /** What the write of some bytes to the page does to locks and log. */
  lemma WriteSays(r: Run, offset: nat, buf: seq<byte>) returns (r': Run)
    requires Inv(r) && Enabled(r, WritePage(0, PAGE, offset, buf))
    ensures CanStep(r, WritePage(0, PAGE, offset, buf)) && r' == Next(r, WritePage(0, PAGE, offset, buf)) && Inv(r')
    ensures r'.engine.running && r'.engine.active == r.engine.active && r'.engine.locks == r.engine.locks[PAGE := 0]
    ensures r'.base == r.base && HistoryOf(r') == HistoryOf(r) + [WriteEntry(r, 0, PAGE, offset, buf)]
    ensures r'.engine.pages.disk == r.engine.pages.disk
    ensures r'.engine.wal.tables.dirtyPages.Keys == r.engine.wal.tables.dirtyPages.Keys + {PAGE}
  {
    r' := WriteTaken(r, offset, buf);
    WriteOfPageIsLogged(r, offset, buf);
  }

  lemma WriteTaken(r: Run, offset: nat, buf: seq<byte>) returns (r': Run)
    requires Inv(r) && Enabled(r, WritePage(0, PAGE, offset, buf))
    ensures CanStep(r, WritePage(0, PAGE, offset, buf)) && r' == Next(r, WritePage(0, PAGE, offset, buf)) && Inv(r')
    ensures r'.engine.running && r'.engine.active == r.engine.active && r'.engine.locks == r.engine.locks[PAGE := 0]
  {
    WriteFits(r, PAGE);
    StepKeeps(r, WritePage(0, PAGE, offset, buf));
    r' := Next(r, WritePage(0, PAGE, offset, buf));
  }

  lemma WriteOfPageIsLogged(r: Run, offset: nat, buf: seq<byte>)
    requires Inv(r) && Enabled(r, WritePage(0, PAGE, offset, buf))
    requires r.engine.wal.gens != [] && offset + |buf| <= |View(r.engine.pages, PAGE)|
    ensures var r' := Next(r, WritePage(0, PAGE, offset, buf));
            && r'.base == r.base && HistoryOf(r') == HistoryOf(r) + [WriteEntry(r, 0, PAGE, offset, buf)]
            && r'.engine.pages.disk == r.engine.pages.disk
            && r'.engine.wal.tables.dirtyPages.Keys == r.engine.wal.tables.dirtyPages.Keys + {PAGE}
  {
    WriteLogs(r, 0, PAGE, offset, buf);
    var e := WriteEntry(r, 0, PAGE, offset, buf);
    LoggedHistory(r, Next(r, WritePage(0, PAGE, offset, buf)), e);
    ReplayAppend(r.engine.wal.tables, [], e);
    assert [] + [e] == [e];
  }

  lemma FirstIsWritten(e: Entry)
    requires e.IsWriteBy(0) && e.WritesTo(PAGE) && e.item.offset == 0 && e.item.to == [1]
    ensures FirstIs([FirstEntry()] + [e])
  {
    assert ([FirstEntry()] + [e])[..1] == [FirstEntry()];
  }

  /** The checkpoint of a new store, and then a write of the byte 1 at the start of the page. */
  ghost predicate FirstIs(log: seq<Entry>) {
    && |log| == 2 && log[..1] == [FirstEntry()]
    && log[1].IsWriteBy(0) && log[1].WritesTo(PAGE) && log[1].item.offset == 0 && log[1].item.to == [1]
  }

  /** The store begins a transaction, which then writes the byte 1 at the start of the page. */
  lemma FirstWrite(start: Run) returns (r: Run)
    requires New(start)
    ensures var begun := Next(start, Begin);
            && CanStep(start, Begin) && CanStep(begun, WritePage(0, PAGE, 0, [1]))
            && r == Next(begun, WritePage(0, PAGE, 0, [1]))
    ensures Inv(r) && r.engine.running && r.engine.active == {0} && r.engine.locks == map[PAGE := 0]
    ensures r.base == start.base && r.base(PAGE) == ZeroPage() && FirstIs(HistoryOf(r))
    ensures r.engine.pages.disk == map[] && r.engine.wal.tables.dirtyPages.Keys == {PAGE}
  {
    var begun := BegunFrom(start);
    r := Written(begun);
  }

  /** A transaction writes two bytes of a page and is undone: the first stays. */
  lemma TwoWritesAreNotRolledBack()
    ensures var steps := [Begin, WritePage(0, PAGE, 0, [1]), WritePage(0, PAGE, 1, [1]), UndoTransaction(0)];
            && CanRun(Start(map[]), steps)
            && var r := After(Start(map[]), steps);
            && var s := StoreAfter(Start(map[]).base, Store(map[], map[], map[]), steps);
            && |View(r.engine.pages, PAGE)| == |Working(r.base, s, PAGE)| == PAGE_BODY_SIZE
            && View(r.engine.pages, PAGE)[0] == 1 && Working(r.base, s, PAGE)[0] == 0
  {
    StartIsNew();
    TwoWritesAreNotRolledBackFrom(Start(map[]));
  }

  lemma TwoWritesAreNotRolledBackFrom(start: Run)
    requires New(start)
    ensures var steps := [Begin, WritePage(0, PAGE, 0, [1]), WritePage(0, PAGE, 1, [1]), UndoTransaction(0)];
            && CanRun(start, steps)
            && var r := After(start, steps);
            && var s := StoreAfter(start.base, Store(map[], map[], map[]), steps);
            && |View(r.engine.pages, PAGE)| == |Working(r.base, s, PAGE)| == PAGE_BODY_SIZE
            && View(r.engine.pages, PAGE)[0] == 1 && Working(r.base, s, PAGE)[0] == 0
  {
    var one := FirstWrite(start);
    var two := SecondWrite(one);
    FourSteps(start, Next(start, Begin), one, two,
              Begin, WritePage(0, PAGE, 0, [1]), WritePage(0, PAGE, 1, [1]), UndoTransaction(0));
    ReferenceForgets(start.base);
  }

  lemma SecondWrite(one: Run) returns (two: Run)
    requires Inv(one) && one.engine.running && one.engine.active == {0} && one.engine.locks == map[PAGE := 0]
    requires FirstIs(HistoryOf(one)) && one.base(PAGE) == ZeroPage()
    ensures CanStep(one, WritePage(0, PAGE, 1, [1])) && two == Next(one, WritePage(0, PAGE, 1, [1]))
    ensures CanStep(two, UndoTransaction(0)) && Next(two, UndoTransaction(0)).base == one.base
    ensures |View(Next(two, UndoTransaction(0)).engine.pages, PAGE)| == PAGE_BODY_SIZE
    ensures View(Next(two, UndoTransaction(0)).engine.pages, PAGE)[0] == 1
  {
    two := WriteSays(one, 1, [1]);
    SecondIsTakenBack(one, two);
  }

  lemma SecondIsTakenBack(one: Run, two: Run)
    requires Inv(two) && Enabled(two, UndoTransaction(0)) && two.base == one.base && |two.base(PAGE)| == PAGE_BODY_SIZE
    requires FirstIs(HistoryOf(one))
    requires |HistoryOf(two)| == 3 && HistoryOf(two)[..2] == HistoryOf(one) && HistoryOf(two)[2].IsWriteBy(0)
    ensures |View(Next(two, UndoTransaction(0)).engine.pages, PAGE)| == PAGE_BODY_SIZE
    ensures View(Next(two, UndoTransaction(0)).engine.pages, PAGE)[0] == 1
  {
    var log := HistoryOf(two);
    assert LastLive(log, 2, 0);
    UndoTakesBackOneWrite(two, 0, 2, PAGE);
    assert log[..2] + log[3..] == HistoryOf(one);
    FirstShows(two.base(PAGE), HistoryOf(one));
  }

  lemma FirstShows(base: seq<byte>, log: seq<Entry>)
    requires FirstIs(log) && |base| == PAGE_BODY_SIZE
    ensures |Content(base, log, PAGE)| == PAGE_BODY_SIZE && Content(base, log, PAGE)[0] == 1
  {
    assert log == [FirstEntry()] + [log[1]];
    ContentAppend(base, [FirstEntry()], log[1], PAGE);
  }

  lemma FourSteps(r: Run, one: Run, two: Run, three: Run, a: Step, b: Step, c: Step, d: Step)
    requires CanStep(r, a) && one == Next(r, a) && CanStep(one, b) && two == Next(one, b)
    requires CanStep(two, c) && three == Next(two, c) && CanStep(three, d)
    ensures CanRun(r, [a, b, c, d]) && After(r, [a, b, c, d]) == Next(three, d)
  {
    assert [a, b, c, d][1..] == [b, c, d] && [b, c, d][1..] == [c, d] && [c, d][1..] == [d] && [d][1..] == [];
    assert CanRun(Next(three, d), []);
    assert CanRun(three, [d]) && After(three, [d]) == Next(three, d);
    assert CanRun(two, [c, d]) && After(two, [c, d]) == Next(three, d);
    assert CanRun(one, [b, c, d]) && After(one, [b, c, d]) == Next(three, d);
  }

  lemma ReferenceForgets(base: PageAddress -> seq<byte>)
    requires base(PAGE) == ZeroPage()
    ensures var steps := [Begin, WritePage(0, PAGE, 0, [1]), WritePage(0, PAGE, 1, [1]), UndoTransaction(0)];
            Working(base, StoreAfter(base, Store(map[], map[], map[]), steps), PAGE) == ZeroPage()
  {
    var a, b, c, d := Begin, WritePage(0, PAGE, 0, [1]), WritePage(0, PAGE, 1, [1]), UndoTransaction(0);
    assert [a, b, c, d][1..] == [b, c, d] && [b, c, d][1..] == [c, d] && [c, d][1..] == [d] && [d][1..] == [];
    var none := Store(map[], map[], map[]);
    var one := StoreStep(base, none, b);
    var two := StoreStep(base, one, c);
    assert Owns(two, 0, PAGE);
    assert StoreAfter(base, none, [a, b, c, d]) == StoreAfter(base, none, [b, c, d]);
    assert StoreAfter(base, none, [b, c, d]) == StoreAfter(base, one, [c, d]);
    assert StoreAfter(base, one, [c, d]) == StoreAfter(base, two, [d]);
    assert StoreAfter(base, two, [d]) == StoreStep(base, two, d);
  }

  /** A transaction writes, the log is rotated, and the store crashes before the new generation has its checkpoint: a
      recovery would not know of the transaction. */
  lemma TransactionIsLost()
    ensures var steps := [Begin, WritePage(0, PAGE, 0, [1]), RotateLog, Crash];
            && CanRun(Start(map[]), steps)
            && var r := After(Start(map[]), steps);
            && r.engine.wal.gens != [] && 0 in Unfinished(HistoryOf(r)) && !KnowsLosers(r)
            && 0 !in Recovered(Current(r.engine.wal)).transactions
  {
    StartIsNew();
    TransactionIsLostFrom(Start(map[]));
  }

  lemma TransactionIsLostFrom(start: Run)
    requires New(start)
    ensures var steps := [Begin, WritePage(0, PAGE, 0, [1]), RotateLog, Crash];
            && CanRun(start, steps)
            && var r := After(start, steps);
            && r.engine.wal.gens != [] && 0 in Unfinished(HistoryOf(r)) && !KnowsLosers(r)
            && 0 !in Recovered(Current(r.engine.wal)).transactions
  {
    var one := FirstWrite(start);
    var two := Forgotten(one);
    FourSteps(start, Next(start, Begin), one, two, Begin, WritePage(0, PAGE, 0, [1]), RotateLog, Crash);
  }

  lemma Forgotten(one: Run) returns (two: Run)
    requires Inv(one) && one.engine.running && FirstIs(HistoryOf(one))
    ensures CanStep(one, RotateLog) && two == Next(one, RotateLog) && CanStep(two, Crash)
    ensures var down := Next(two, Crash);
            && down.engine.wal.gens != [] && 0 in Unfinished(HistoryOf(down))
            && 0 !in Recovered(Current(down.engine.wal)).transactions
  {
    two := Next(one, RotateLog);
    RotateSays(one, two);
    CrashSays(two, Next(two, Crash));
    FirstIsUnfinished(HistoryOf(one));
  }

  lemma RotateSays(r: Run, r': Run)
    requires Inv(r) && r.engine.running && r' == Next(r, RotateLog)
    ensures CanStep(r, RotateLog) && Inv(r') && HistoryOf(r') == HistoryOf(r) && Current(r'.engine.wal) == []
  {
    StepKeeps(r, RotateLog);
    RotateHistory(r);
    RotateKeepsQueue(r.engine.wal);
  }

  lemma CrashSays(r: Run, r': Run)
    requires Inv(r) && r' == Next(r, Crash)
    ensures CanStep(r, Crash) && r'.engine.wal.gens == r.engine.wal.gens && HistoryOf(r') == HistoryOf(r)
  {
  }

  lemma FirstIsUnfinished(log: seq<Entry>)
    requires FirstIs(log)
    ensures 0 in Unfinished(log) && Recovered([]).transactions == map[]
  {
    assert LiveAt(log, 1);
    TransactionsAreTheLiveOnes(log);
    NoSnapshot([]);
  }

  // ----- a committed write -----

  lemma CommitSays(r: Run, r': Run)
    requires Inv(r) && r.engine.running && r.engine.active == {0} && r' == Next(r, CommitTransaction(0))
    ensures CanStep(r, CommitTransaction(0)) && Inv(r') && r'.engine.running && r'.base == r.base
    ensures r'.engine.pages == r.engine.pages && r'.engine.wal.tables.dirtyPages == r.engine.wal.tables.dirtyPages
    ensures exists e: Entry :: e.IsCommitOf(0) && HistoryOf(r') == HistoryOf(r) + [e]
  {
    StepKeeps(r, CommitTransaction(0));
    LoggedHistory(r, r', Entry(NextIndex(r.engine.wal), CommitItem(r.engine.wal, 0)));
  }

  lemma RotationSays(r: Run, r': Run)
    requires Inv(r) && r.engine.running && r' == Next(r, RotateLog)
    ensures CanStep(r, RotateLog) && Inv(r') && r'.engine.running && r'.base == r.base
    ensures r'.engine.pages == r.engine.pages && r'.engine.wal.tables == r.engine.wal.tables
    ensures HistoryOf(r') == HistoryOf(r) && Current(r'.engine.wal) == []
  {
    RotateSays(r, r');
  }

  lemma CheckpointSays(r: Run, r': Run)
    requires Inv(r) && r.engine.running && Current(r.engine.wal) == [] && r' == Next(r, LogCheckpoint)
    requires CheckpointHasRoom(r.engine.wal.tables)
    ensures CanStep(r, LogCheckpoint) && Inv(r') && r'.engine.running && r'.base == r.base
            && r'.engine.pages == r.engine.pages
    ensures var e := Entry(NextIndex(r.engine.wal), CheckpointItem(r.engine.wal));
            HistoryOf(r') == HistoryOf(r) + [e] && Current(r'.engine.wal) == [e]
  {
    StepKeeps(r, LogCheckpoint);
    LoggedHistory(r, r', Entry(NextIndex(r.engine.wal), CheckpointItem(r.engine.wal)));
  }

  lemma OnlyCheckpoint(log: seq<Entry>)
    requires |log| == 1 && log[0].item.Checkpoint?
    ensures HasCheckpoint(log) && Recovered(log) == Tables(log[0].item.dirtyPages, log[0].item.transactions)
    ensures forall dirtyPages :: RedoOps(log, dirtyPages) == []
  {
    SnapshotOfFirst([], log[0], []);
    assert [] + [log[0]] + [] == log;
    ReplayAppend(Snapshot(log), [], log[0]);
    assert [] + [log[0]] == log && log[..0] == [];
  }

  /** The log of a transaction that wrote the byte 1 at the start of the page and committed. */
  ghost predicate Settling(log: seq<Entry>) {
    && |log| >= 3 && FirstIs(log[..2]) && log[2].IsCommitOf(0)
    && forall i :: 3 <= i < |log| ==> log[i].item.Checkpoint?
  }

  lemma SettlesOne(base: seq<byte>, log: seq<Entry>)
    requires Settling(log) && |base| == PAGE_BODY_SIZE
    ensures Settled(base, log, PAGE, {})[0] == 1 && forall i :: !LiveAt(log, i)
  {
    assert log[2].IsCommitOf(log[1].item.tid);
    assert log[0] == log[..2][0] && log[1] == log[..2][1] && log[..2][..1] == [FirstEntry()] && log[0] == FirstEntry();
    AllSettled(base, log, PAGE, {});
    assert log == log[..2] + log[2..];
    ContentConcat(base, log[..2], log[2..], PAGE);
    FirstShows(base, log[..2]);
    ContentUntouched(Content(base, log[..2], PAGE), log[2..], PAGE);
  }

  /** A transaction commits, the log is rotated and its checkpoint logged, and the store crashes before the page is
      written to the disk: the log is as it should be, and yet the recovery brings the page back to what it was
      before. */
  lemma CommittedWriteIsLost()
    ensures var steps :=
              [Begin, WritePage(0, PAGE, 0, [1]), CommitTransaction(0), RotateLog] + [LogCheckpoint] + [Crash];
            && CanRun(Start(map[]), steps)
            && LosesFirstWrite(After(Start(map[]), steps))
  {
    StartIsNew();
    CommittedWriteIsLostFrom(Start(map[]));
  }

  lemma CommittedWriteIsLostFrom(start: Run)
    requires New(start)
    ensures var steps :=
              [Begin, WritePage(0, PAGE, 0, [1]), CommitTransaction(0), RotateLog] + [LogCheckpoint] + [Crash];
            && CanRun(start, steps)
            && LosesFirstWrite(After(start, steps))
  {
    var one, three, four := LosingSteps(start);
    SixSteps(start, Next(start, Begin), one, Next(one, CommitTransaction(0)), three, four,
             Begin, WritePage(0, PAGE, 0, [1]), CommitTransaction(0), RotateLog, LogCheckpoint, Crash);
  }

  lemma LosingSteps(start: Run) returns (one: Run, three: Run, four: Run)
    requires New(start)
    ensures CanStep(start, Begin) && CanStep(Next(start, Begin), WritePage(0, PAGE, 0, [1]))
    ensures one == Next(Next(start, Begin), WritePage(0, PAGE, 0, [1])) && CanStep(one, CommitTransaction(0))
    ensures CanStep(Next(one, CommitTransaction(0)), RotateLog)
            && three == Next(Next(one, CommitTransaction(0)), RotateLog)
    ensures CanStep(three, LogCheckpoint) && four == Next(three, LogCheckpoint) && CanStep(four, Crash)
    ensures LosesFirstWrite(Next(four, Crash))
  {
    one := FirstWrite(start);
    three := CommittedAndRotated(one);
    four := CheckpointedAndLost(three);
  }

  /** The store is down, its current generation has a checkpoint and tells of all unfinished transactions; the committed
      content of the page starts with the byte 1, and a recovery leaves it empty. */
  ghost predicate LosesFirstWrite(r: Run) {
    && IsDown(r, []) && HasCheckpoint(Current(r.engine.wal)) && KnowsLosers(r) && !CanRecover(r, [])
    && |r.base(PAGE)| == PAGE_BODY_SIZE && Settled(r.base(PAGE), HistoryOf(r), PAGE, {})[0] == 1
    && View(Next(r, Recover([])).engine.pages, PAGE) == ZeroPage()
  }

  lemma CommittedAndRotated(one: Run) returns (three: Run)
    requires Inv(one) && one.engine.running && one.engine.active == {0} && FirstIs(HistoryOf(one))
    requires one.engine.pages.disk == map[] && one.base(PAGE) == ZeroPage()
             && one.engine.wal.tables.dirtyPages.Keys == {PAGE}
    ensures CanStep(one, CommitTransaction(0)) && CanStep(Next(one, CommitTransaction(0)), RotateLog)
    ensures three == Next(Next(one, CommitTransaction(0)), RotateLog)
    ensures Inv(three) && three.engine.running && Current(three.engine.wal) == []
            && CheckpointHasRoom(three.engine.wal.tables)
    ensures three.engine.pages.disk == map[] && three.base(PAGE) == ZeroPage() && Settling(HistoryOf(three))
  {
    var two := Next(one, CommitTransaction(0));
    CommitSays(one, two);
    three := Next(two, RotateLog);
    RotationSays(two, three);
    var commit: Entry :| commit.IsCommitOf(0) && HistoryOf(two) == HistoryOf(one) + [commit];
    CommittedLog(HistoryOf(one), commit);
    SettlesOne(one.base(PAGE), HistoryOf(three));
    NothingUnfinished(HistoryOf(three));
    HasRoom(three.engine.wal.tables);
  }

  lemma CommittedLog(log: seq<Entry>, commit: Entry)
    requires FirstIs(log) && commit.IsCommitOf(0)
    ensures Settling(log + [commit])
  {
    assert (log + [commit])[..2] == log;
  }

  lemma MoreCheckpoints(log: seq<Entry>, e: Entry)
    requires Settling(log) && e.item.Checkpoint?
    ensures Settling(log + [e])
  {
    assert (log + [e])[..2] == log[..2];
  }

  lemma HasRoom(tables: Tables)
    requires tables.dirtyPages.Keys == {PAGE} && tables.transactions == map[]
    ensures CheckpointHasRoom(tables)
  {
    assert |tables.dirtyPages| == |tables.dirtyPages.Keys|;
  }

  lemma CheckpointedAndLost(three: Run) returns (four: Run)
    requires Inv(three) && three.engine.running && Current(three.engine.wal) == []
    requires CheckpointHasRoom(three.engine.wal.tables)
    requires three.engine.pages.disk == map[] && three.base(PAGE) == ZeroPage() && Settling(HistoryOf(three))
    ensures CanStep(three, LogCheckpoint) && four == Next(three, LogCheckpoint)
    ensures CanStep(four, Crash) && LosesFirstWrite(Next(four, Crash))
  {
    four := Next(three, LogCheckpoint);
    CheckpointSays(three, four);
    Lost(three, four);
  }

  lemma Lost(three: Run, four: Run)
    requires Inv(three) && three.engine.running && Settling(HistoryOf(three)) && four == Next(three, LogCheckpoint)
    requires Inv(four) && four.engine.running && four.base(PAGE) == ZeroPage() && four.engine.pages.disk == map[]
    requires var e := Entry(NextIndex(three.engine.wal), CheckpointItem(three.engine.wal));
             HistoryOf(four) == HistoryOf(three) + [e] && Current(four.engine.wal) == [e]
    ensures CanStep(four, Crash) && LosesFirstWrite(Next(four, Crash))
  {
    SettlesOne(ZeroPage(), HistoryOf(three));
    NothingUnfinished(HistoryOf(three));
    MoreCheckpoints(HistoryOf(three), HistoryOf(four)[|HistoryOf(three)|]);
    SettlesOne(ZeroPage(), HistoryOf(four));
    LostAfterCrash(four);
  }

  lemma LostAfterCrash(four: Run)
    requires Inv(four) && four.engine.running && four.base(PAGE) == ZeroPage() && four.engine.pages.disk == map[]
    requires |Current(four.engine.wal)| == 1 && Current(four.engine.wal)[0].item.Checkpoint?
    requires Current(four.engine.wal)[0].item.transactions == map[] && forall i :: !LiveAt(HistoryOf(four), i)
    requires Settled(four.base(PAGE), HistoryOf(four), PAGE, {})[0] == 1
    ensures CanStep(four, Crash) && LosesFirstWrite(Next(four, Crash))
  {
    CrashSays(four, Next(four, Crash));
    StepKeeps(four, Crash);
    LostWhenDown(Next(four, Crash));
  }

  /** What is lost when the current generation holds nothing but a checkpoint. */
  lemma LostWhenDown(r: Run)
    requires Inv(r) && !r.engine.running && r.engine.pages == Pages(map[], map[]) && r.base(PAGE) == ZeroPage()
    requires |Current(r.engine.wal)| == 1 && Current(r.engine.wal)[0].item.Checkpoint?
    requires Current(r.engine.wal)[0].item.transactions == map[] && forall i :: !LiveAt(HistoryOf(r), i)
    requires Settled(r.base(PAGE), HistoryOf(r), PAGE, {})[0] == 1
    ensures LosesFirstWrite(r)
  {
    OnlyCheckpoint(Current(r.engine.wal));
    NothingUnfinished(HistoryOf(r));
    NothingIsRestored(r);
    AllSettled(r.base(PAGE), HistoryOf(r), PAGE, {});
    RecoverLeavesIff(r, [], PAGE);
    NothingTakenBack(r);
  }

  lemma NothingIsRestored(r: Run)
    requires r.engine.wal.gens != [] && |Current(r.engine.wal)| == 1 && Current(r.engine.wal)[0].item.Checkpoint?
    ensures Next(r, Recover([])).engine.pages == r.engine.pages
  {
    OnlyCheckpoint(Current(r.engine.wal));
    assert RecoverOps(r.engine.wal, []) == [];
  }

  lemma NothingTakenBack(r: Run)
    ensures LeftBy(r, [], PAGE) == Content(r.base(PAGE), HistoryOf(r), PAGE)
  {
  }

  lemma SixSteps(r: Run, one: Run, two: Run, three: Run, four: Run, five: Run, a: Step, b: Step, c: Step, d: Step,
                 e: Step, f: Step)
    requires CanStep(r, a) && one == Next(r, a) && CanStep(one, b) && two == Next(one, b)
    requires CanStep(two, c) && three == Next(two, c) && CanStep(three, d) && four == Next(three, d)
    requires CanStep(four, e) && five == Next(four, e) && CanStep(five, f)
    ensures CanRun(r, [a, b, c, d] + [e] + [f]) && After(r, [a, b, c, d] + [e] + [f]) == Next(five, f)
  {
    FourSteps(r, one, two, three, a, b, c, d);
    TwoMoreSteps(r, [a, b, c, d], e, f);
  }

  lemma TwoMoreSteps(r: Run, steps: seq<Step>, e: Step, f: Step)
    requires CanRun(r, steps) && CanStep(After(r, steps), e) && CanStep(Next(After(r, steps), e), f)
    ensures CanRun(r, steps + [e] + [f]) && After(r, steps + [e] + [f]) == Next(Next(After(r, steps), e), f)
  {
    OneMoreStep(r, steps, e);
    OneMoreStep(r, steps + [e], f);
  }

  // ----- a checkpoint before the recovery -----

  lemma {:induction false} AllStale(gens: seq<Generation>, last: Generation)
    requires forall i :: 0 <= i < |gens| ==> gens[i].num != last.num
    ensures StaleCount(gens + [last], last.num, map[]) == |gens|
  {
    if gens != [] {
      assert (gens + [last])[0] == gens[0] && (gens + [last])[1..] == gens[1..] + [last];
      AllStale(gens[1..], last);
    }
  }

  /** What the log is after the checkpoint timer has run on a store that is down, with its tables still empty. */
  function EarlyCheckpoint(w: Wal): Wal {
    RotateShape(w);
    Push(Rotate(w), CheckpointItem(Rotate(w)))
  }

  /** Such a checkpoint deletes every generation but its own, and tells of no transaction. */
  lemma EarlyCheckpointForgets(w: Wal)
    requires QueueOk(w) && w.tables == EMPTY
    ensures var w' := EarlyCheckpoint(w);
            |w'.gens| == 1 && Reload(w').tables == EMPTY && Flatten(w'.gens) == Current(w') && RecoverOps(w', []) == []
  {
    var last := Last(AddGeneration(w).gens);
    AllStale(w.gens, last);
    assert Rotate(w).gens == [last];
    var w' := EarlyCheckpoint(w);
    assert w'.gens[..0] == [] && Flatten([]) == [];
    OnlyCheckpoint(Current(w'));
  }

  /** A transaction writes a page, which is written to the disk, and the store crashes: a recovery would take the write
      back. When the checkpoint timer runs first, the recovery that follows does not know of it. */
  lemma CheckpointBeforeRecovery()
    ensures var steps := [Begin, WritePage(0, PAGE, 0, [1]), FlushPage(PAGE), Crash];
            && CanRun(Start(map[]), steps)
            && var r := After(Start(map[]), steps);
            && CanRecover(r, [0]) && |r.base(PAGE)| == PAGE_BODY_SIZE
            && Settled(r.base(PAGE), HistoryOf(r), PAGE, {})[0] == 0
            && var late := r.engine.(wal := EarlyCheckpoint(r.engine.wal));
            && Reload(late.wal).tables.transactions == map[]
            && |View(EngineRecover(late, []).pages, PAGE)| == PAGE_BODY_SIZE
            && View(EngineRecover(late, []).pages, PAGE)[0] == 1
  {
    StartIsNew();
    CheckpointBeforeRecoveryFrom(Start(map[]));
  }

  lemma CheckpointBeforeRecoveryFrom(start: Run)
    requires New(start)
    ensures var steps := [Begin, WritePage(0, PAGE, 0, [1]), FlushPage(PAGE), Crash];
            && CanRun(start, steps)
            && var r := After(start, steps);
            && CanRecover(r, [0]) && |r.base(PAGE)| == PAGE_BODY_SIZE
            && Settled(r.base(PAGE), HistoryOf(r), PAGE, {})[0] == 0
            && var late := r.engine.(wal := EarlyCheckpoint(r.engine.wal));
            && Reload(late.wal).tables.transactions == map[]
            && |View(EngineRecover(late, []).pages, PAGE)| == PAGE_BODY_SIZE
            && View(EngineRecover(late, []).pages, PAGE)[0] == 1
  {
    var one := FirstWrite(start);
    FirstIsOlder(start);
    FirstShape(start, one);
    var two := Flushed(one);
    var r := CrashedAfter(two);
    FirstIsUnfinished(HistoryOf(r));
    FirstIsKnown(r);
    FirstSettles(r.base(PAGE), HistoryOf(r));
    EarlyCheckpointForgets(r.engine.wal);
    FourSteps(start, Next(start, Begin), one, two, Begin, WritePage(0, PAGE, 0, [1]), FlushPage(PAGE),
              Crash);
  }

  lemma CrashedAfter(two: Run) returns (r: Run)
    requires Inv(two) && OlderOnDisk(two) && Current(two.engine.wal) == HistoryOf(two)
    ensures CanStep(two, Crash) && r == Next(two, Crash) && Inv(r) && OlderOnDisk(r) && !r.engine.running
    ensures HistoryOf(r) == HistoryOf(two) && Current(r.engine.wal) == HistoryOf(r) && r.base == two.base
    ensures r.engine.wal.tables == EMPTY && OnDisk(r.engine.pages, PAGE) == OnDisk(two.engine.pages, PAGE)
            && PAGE !in r.engine.pages.cache
  {
    r := Next(two, Crash);
    CarefulStepKeeps(two, Crash);
  }

  lemma FirstIsOlder(start: Run)
    requires New(start) && CanStep(start, Begin) && CanStep(Next(start, Begin), WritePage(0, PAGE, 0, [1]))
    ensures OlderOnDisk(Next(Next(start, Begin), WritePage(0, PAGE, 0, [1])))
  {
    CarefulStepKeeps(start, Begin);
    CarefulStepKeeps(Next(start, Begin), WritePage(0, PAGE, 0, [1]));
  }

  lemma Flushed(one: Run) returns (two: Run)
    requires Inv(one) && one.engine.running && OlderOnDisk(one) && FirstIs(HistoryOf(one))
             && one.base(PAGE) == ZeroPage()
    requires Current(one.engine.wal) == HistoryOf(one)
    ensures CanStep(one, FlushPage(PAGE)) && two == Next(one, FlushPage(PAGE))
    ensures Inv(two) && OlderOnDisk(two) && HistoryOf(two) == HistoryOf(one) && two.base(PAGE) == ZeroPage()
    ensures |OnDisk(two.engine.pages, PAGE)| == PAGE_BODY_SIZE && OnDisk(two.engine.pages, PAGE)[0] == 1
    ensures Current(two.engine.wal) == HistoryOf(two)
  {
    two := Next(one, FlushPage(PAGE));
    CarefulStepKeeps(one, FlushPage(PAGE));
    FirstShows(one.base(PAGE), HistoryOf(one));
    FlushSays(one, two);
  }

  lemma FlushSays(r: Run, r': Run)
    requires Inv(r) && r.engine.running && r' == Next(r, FlushPage(PAGE))
    ensures HistoryOf(r') == HistoryOf(r) && r'.base == r.base && Current(r'.engine.wal) == Current(r.engine.wal)
    ensures OnDisk(r'.engine.pages, PAGE) == Content(r.base(PAGE), HistoryOf(r), PAGE)
    ensures r'.engine.wal.gens != []
  {
    assert View(r.engine.pages, PAGE) == Content(r.base(PAGE), HistoryOf(r), PAGE);
  }

  lemma FirstShape(start: Run, one: Run)
    requires New(start) && CanStep(start, Begin) && CanStep(Next(start, Begin), WritePage(0, PAGE, 0, [1]))
    requires one == Next(Next(start, Begin), WritePage(0, PAGE, 0, [1]))
    ensures one.engine.wal.gens != [] && Current(one.engine.wal) == HistoryOf(one)
  {
    assert |one.engine.wal.gens| == 1 && one.archived == [];
    assert Flatten(one.engine.wal.gens[..0]) == [];
  }

  lemma FirstIsKnown(r: Run)
    requires Inv(r) && OlderOnDisk(r) && !r.engine.running && Current(r.engine.wal) == HistoryOf(r)
             && FirstIs(HistoryOf(r))
    ensures CanRecover(r, [0])
  {
    OnlyLoser(HistoryOf(r));
    assert AsSet([0]) == {0};
    OlderOnDiskSuffices(r, [0]);
  }

  lemma OnlyLoser(log: seq<Entry>)
    requires FirstIs(log)
    ensures HasCheckpoint(log) && Unfinished(log).Keys == {0}
  {
    assert log[0] == log[..1][0] && log[0].item.Checkpoint?;
    TransactionsAreTheLiveOnes(log);
    assert LiveAt(log, 1);
    forall t ensures t in Unfinished(log) <==> t == 0 {
      if t in Unfinished(log) {
        assert Tracks(log, t, Unfinished(log)[t]);
        var i :| LastLive(log, i, t);
      }
    }
  }

  lemma FirstSettles(base: seq<byte>, log: seq<Entry>)
    requires FirstIs(log) && base == ZeroPage()
    ensures Settled(base, log, PAGE, {}) == base
  {
    assert log[..1] == [FirstEntry()] && [FirstEntry()][..0] == [];
    assert Settled(base, [FirstEntry()], PAGE, {}) == base;
  }
}
