/** The log and its files. */
module LogFiles {
  // In every run, the file of each generation reads as exactly the entries the state machine has for it.

  import opened Bytes
  import opened WalTypes
  import opened WalModel
  import opened Tables
  import opened History
  import opened ItemCodec
  import opened LogImage
  import opened BackwardReads
  import E = Engine
  import I = Invariant
  import A = Atomicity
  import RS = RecoverSteps

  /** The offset after the first items of a file. */
  function PlaceAfter(items: seq<FileItem>): nat {
    if items == [] then FILE_HEADER_SIZE else PlaceAfter(items[..|items| - 1]) + ItemSize(items[|items| - 1].item)
  }

  /** Every item starts where the one before it ends. */
  ghost predicate Laid(g: Generation) {
    && g.nextOffset == PlaceAfter(g.items)
    && forall i :: 0 <= i < |g.items| ==> g.items[i].offset == PlaceAfter(g.items[..i])
  }

  ghost predicate AllLaid(gens: seq<Generation>) {
    forall g :: g in gens ==> Laid(g)
  }

  lemma AppendIsLaid(g: Generation, item: Item)
    requires Laid(g)
    ensures Laid(AppendItem(g, item))
  {
    var next := AppendItem(g, item);
    var n := |g.items|;
    assert next.items[..n] == g.items;
    forall i | 0 <= i < n ensures next.items[i].offset == PlaceAfter(next.items[..i]) {
      assert next.items[..i] == g.items[..i];
    }
  }

  lemma PushIsLaid(w: Wal, item: Item)
    requires w.gens != [] && AllLaid(w.gens)
    ensures AllLaid(Push(w, item).gens)
  {
    AppendIsLaid(Last(w.gens), item);
  }

  lemma {:induction false} CompensationsAreLaid(w: Wal, comps: seq<Compensation>)
    requires w.gens != [] && AllLaid(w.gens)
    ensures AllLaid(LogCompensations(w, comps).gens)
  {
    if comps != [] {
      var n := |comps| - 1;
      CompensationsAreLaid(w, comps[..n]);
      var before := LogCompensations(w, comps[..n]);
      PushIsLaid(before, UndoItem(before, comps[n]));
    }
  }

  lemma {:induction false} CommitsAreLaid(w: Wal, tids: seq<nat>)
    requires w.gens != [] && AllLaid(w.gens)
    ensures AllLaid(LogCommits(w, tids).gens)
  {
    if tids != [] {
      var n := |tids| - 1;
      CommitsAreLaid(w, tids[..n]);
      var before := LogCommits(w, tids[..n]);
      PushIsLaid(before, CommitItem(before, tids[n]));
    }
  }

  lemma UndoIsLaid(w: Wal, tids: seq<nat>)
    requires w.gens != [] && AllLaid(w.gens)
    ensures AllLaid(UndoAll(w, tids).gens)
  {
    CompensationsAreLaid(w, UndoPlan(w, tids));
    CommitsAreLaid(LogCompensations(w, UndoPlan(w, tids)), tids);
  }

  lemma RotateIsLaid(w: Wal)
    requires AllLaid(w.gens)
    ensures AllLaid(Rotate(w).gens)
  {
    RotateShape(w);
    assert Laid(NewGeneration(w));
  }

  lemma StepIsLaid(r: E.Run, s: E.Step)
    requires A.CanStep(r, s) && AllLaid(r.engine.wal.gens)
    ensures AllLaid(E.Next(r, s).engine.wal.gens)
  {
    var w := r.engine.wal;
    match s
    case WritePage(t, p, offset, buf) =>
      PushIsLaid(w, WriteItem(w, t, p, offset, E.View(r.engine.pages, p)[offset..offset + |buf|], buf));
    case CommitTransaction(t) => PushIsLaid(w, CommitItem(w, t));
    case UndoTransaction(t) => UndoIsLaid(w, [t]);
    case LogCheckpoint => PushIsLaid(w, CheckpointItem(w));
    case RotateLog => RotateIsLaid(w);
    case Recover(tids) => UndoIsLaid(Reload(w), tids);
    case Begin =>
    case FlushPage(_) =>
    case CacheDidFlush =>
    case Crash =>
    case CrashInRedo(_) =>
  }

  lemma {:induction false} RunIsLaid(r: E.Run, steps: seq<E.Step>)
    requires A.CanRun(r, steps) && AllLaid(r.engine.wal.gens)
    ensures AllLaid(A.After(r, steps).engine.wal.gens)
    decreases |steps|
  {
    if steps != [] {
      StepIsLaid(r, steps[0]);
      RunIsLaid(E.Next(r, steps[0]), steps[1..]);
    }
  }

  // ----- widths -----

  ghost predicate TablesFit(tables: Tables) {
    && (forall t :: t in tables.transactions ==> t < U64 && StateFits(tables.transactions[t]))
    && (forall p :: p in tables.dirtyPages ==> AddressFits(p) && IndexFits(tables.dirtyPages[p]))
  }

  ghost predicate EntriesFit(log: seq<Entry>) {
    forall i :: 0 <= i < |log| ==> IndexFits(log[i].index) && Encodable(log[i].item)
  }

  /** Every item of the log fits the format, whatever file it is in, and so does all that the tables hold. */
  ghost predicate LogFits(w: Wal) {
    && TablesFit(w.tables) && EntriesFit(Flatten(w.gens))
    && (w.gens != [] ==> Last(w.gens).num == w.currentGenNum) && forall g :: g in w.gens ==> g.nextOffset <= U64
  }

  lemma HandleFits(tables: Tables, e: Entry)
    requires TablesFit(tables) && IndexFits(e.index) && Encodable(e.item)
    ensures TablesFit(Handle(tables, e))
  {
  }

  lemma {:induction false} ReplayFits(tables: Tables, log: seq<Entry>)
    requires TablesFit(tables) && EntriesFit(log)
    ensures TablesFit(Replay(tables, log))
  {
    if log != [] {
      ReplayFits(tables, log[..|log| - 1]);
      HandleFits(Replay(tables, log[..|log| - 1]), log[|log| - 1]);
    }
  }

  lemma {:induction false} SnapshotFits(log: seq<Entry>)
    requires EntriesFit(log)
    ensures TablesFit(Snapshot(log))
  {
    if log != [] {
      assert EntriesFit(log[1..]) by { assert forall i :: 0 <= i < |log| - 1 ==> log[1..][i] == log[i + 1]; }
      SnapshotFits(log[1..]);
    }
  }

  lemma PushFits(w: Wal, item: Item)
    requires w.gens != [] && LogFits(w) && AllLaid(w.gens) && w.currentGenNum < U64
    requires Encodable(item) && NextIndex(w).offset + ItemSize(item) <= U64
    ensures LogFits(Push(w, item))
  {
    PushAppends(w, item);
    PlaceIsPositive(Last(w.gens).items);
    assert Last(w.gens) in w.gens;
    HandleFits(w.tables, Entry(NextIndex(w), item));
  }

  lemma {:induction false} PlaceIsPositive(items: seq<FileItem>)
    ensures PlaceAfter(items) >= FILE_HEADER_SIZE
  {
    if items != [] { PlaceIsPositive(items[..|items| - 1]); }
  }

  lemma CurrentFits(w: Wal)
    requires w.gens != [] && LogFits(w)
    ensures EntriesFit(Entries(Last(w.gens))) && TablesFit(Reload(w).tables)
  {
    var n := |w.gens| - 1;
    assert Flatten(w.gens) == Flatten(w.gens[..n]) + Entries(w.gens[n]);
    assert forall i :: 0 <= i < |Entries(w.gens[n])| ==>
                         Entries(w.gens[n])[i] == Flatten(w.gens)[|Flatten(w.gens[..n])| + i];
    SnapshotFits(Entries(Last(w.gens)));
    ReplayFits(Snapshot(Entries(Last(w.gens))), Entries(Last(w.gens)));
  }

  // What an undo logs.

  /** A compensation that can be logged: its transaction is in the table, and its bytes were part of a logged write. */
  ghost predicate CompensationFits(c: Compensation) {
    c.tid < U64 && AddressFits(c.page) && c.offset < U16 && 24 + 10 + |c.to| <= MAX_BODY_LENGTH
  }

  lemma PlanFits(w: Wal, tids: seq<nat>)
    requires LogFits(w)
    ensures forall k :: 0 <= k < |UndoPlan(w, tids)| ==> CompensationFits(UndoPlan(w, tids)[k])
  {
    forall k | 0 <= k < |UndoPlan(w, tids)| ensures CompensationFits(UndoPlan(w, tids)[k]) {
      var i := CompensationsComeFromTheLog(Flatten(w.gens), AsSet(tids),
                                           LowestIndex(w.tables.transactions, tids).value, k);
      assert Encodable(Flatten(w.gens)[i].item);
    }
  }

  lemma {:induction false} CompensationsFit(w: Wal, comps: seq<Compensation>)
    requires w.gens != [] && LogFits(w) && AllLaid(w.gens) && w.currentGenNum < U64
    requires forall k :: 0 <= k < |comps| ==> CompensationFits(comps[k])
    requires NextIndex(LogCompensations(w, comps)).offset <= U64
    ensures LogFits(LogCompensations(w, comps)) && AllLaid(LogCompensations(w, comps).gens)
  {
    if comps != [] {
      var n := |comps| - 1;
      var before := LogCompensations(w, comps[..n]);
      CompensationsFit(w, comps[..n]);
      PushFits(before, UndoItem(before, comps[n]));
      PushIsLaid(before, UndoItem(before, comps[n]));
    }
  }

  lemma {:induction false} CommitsFit(w: Wal, tids: seq<nat>)
    requires w.gens != [] && LogFits(w) && AllLaid(w.gens) && w.currentGenNum < U64
    requires (forall t :: t in tids ==> t < U64) && NextIndex(LogCommits(w, tids)).offset <= U64
    ensures LogFits(LogCommits(w, tids)) && AllLaid(LogCommits(w, tids).gens)
  {
    if tids != [] {
      var n := |tids| - 1;
      var before := LogCommits(w, tids[..n]);
      assert tids[n] in tids && forall t :: t in tids[..n] ==> t in tids;
      CommitsFit(w, tids[..n]);
      PushFits(before, CommitItem(before, tids[n]));
      PushIsLaid(before, CommitItem(before, tids[n]));
    }
  }

  lemma {:induction false} CommitsOnlyGrow(w: Wal, tids: seq<nat>)
    requires w.gens != []
    ensures NextIndex(w).offset <= NextIndex(LogCommits(w, tids)).offset
  {
    if tids != [] { CommitsOnlyGrow(w, tids[..|tids| - 1]); }
  }

  lemma UndoFits(w: Wal, tids: seq<nat>)
    requires w.gens != [] && LogFits(w) && AllLaid(w.gens) && w.currentGenNum < U64
    requires (forall t :: t in tids ==> t < U64) && NextIndex(UndoAll(w, tids)).offset <= U64
    ensures LogFits(UndoAll(w, tids))
  {
    if LowestIndex(w.tables.transactions, tids).Some? {
      var mid := LogCompensations(w, UndoPlan(w, tids));
      PlanFits(w, tids);
      CommitsOnlyGrow(mid, tids);
      CompensationsFit(w, UndoPlan(w, tids));
      CommitsFit(mid, tids);
    }
  }

  lemma RotateFits(w: Wal)
    requires LogFits(w)
    ensures LogFits(Rotate(w))
  {
    RotateKeepsItems(w);
    RotateShape(w);
    var gone := Flatten(w.gens[..Deleted(w)]);
    assert forall i :: 0 <= i < |Flatten(Rotate(w).gens)| ==> Flatten(Rotate(w).gens)[i] == Flatten(w.gens)[|gone| + i];
  }

  // Whole runs.

  /** Ids, generation numbers and file lengths are below 2^64. */
  ghost predicate CountersFit(r: E.Run)
    requires r.engine.wal.gens != []
  {
    r.engine.nextTid <= U64 && r.engine.wal.currentGenNum < U64 && Last(r.engine.wal.gens).nextOffset <= U64
  }

  /** The counters do not overflow in the run, and pages that are written have an address that can be stored. */
  ghost predicate NumbersFit(r: E.Run, steps: seq<E.Step>)
    requires A.CanRun(r, steps)
    decreases |steps|
  {
    && (r.engine.wal.gens != [] ==> CountersFit(r))
    && (steps != [] ==> (steps[0].WritePage? ==> AddressFits(steps[0].p))
                        && NumbersFit(E.Next(r, steps[0]), steps[1..]))
  }

  lemma WriteFitsLog(r: E.Run, t: nat, p: PageAddress, offset: nat, buf: seq<byte>)
    requires I.Inv(r) && A.CanStep(r, E.WritePage(t, p, offset, buf)) && LogFits(r.engine.wal)
             && AllLaid(r.engine.wal.gens)
    requires CountersFit(r) && AddressFits(p) && CountersFit(E.Next(r, E.WritePage(t, p, offset, buf)))
    ensures LogFits(E.Next(r, E.WritePage(t, p, offset, buf)).engine.wal)
  {
    var w := r.engine.wal;
    var item := WriteItem(w, t, p, offset, E.View(r.engine.pages, p)[offset..offset + |buf|], buf);
    PageWriteFits(item);
    PushFits(w, item);
  }

  /** A checkpoint fits an item as long as the tables are small enough, and only then. */
  lemma CheckpointFitsIff(w: Wal)
    requires TablesFit(w.tables)
    ensures Encodable(CheckpointItem(w)) <==> E.CheckpointHasRoom(w.tables)
  {
  }

  lemma CheckpointFitsLog(r: E.Run)
    requires A.CanStep(r, E.LogCheckpoint) && LogFits(r.engine.wal) && AllLaid(r.engine.wal.gens)
    requires CountersFit(r) && CountersFit(E.Next(r, E.LogCheckpoint))
    ensures LogFits(E.Next(r, E.LogCheckpoint).engine.wal)
  {
    CheckpointFitsIff(r.engine.wal);
    PushFits(r.engine.wal, CheckpointItem(r.engine.wal));
  }

  lemma StepFits(r: E.Run, s: E.Step)
    requires I.Inv(r) && A.CanStep(r, s) && LogFits(r.engine.wal) && AllLaid(r.engine.wal.gens)
    requires CountersFit(r) && (s.WritePage? ==> AddressFits(s.p)) && E.Next(r, s).engine.wal.gens != []
             && CountersFit(E.Next(r, s))
    ensures LogFits(E.Next(r, s).engine.wal)
  {
    var w := r.engine.wal;
    match s
    case WritePage(t, p, offset, buf) => WriteFitsLog(r, t, p, offset, buf);
    case CommitTransaction(t) => PushFits(w, CommitItem(w, t));
    case UndoTransaction(t) => UndoFits(w, [t]);
    case LogCheckpoint => CheckpointFitsLog(r);
    case RotateLog => RotateFits(w);
    case Recover(tids) =>
      CurrentFits(w);
      assert forall t :: t in tids ==> t in AsSet(tids);
      UndoFits(Reload(w), tids);
    case Begin =>
    case FlushPage(_) =>
    case CacheDidFlush =>
    case Crash =>
    case CrashInRedo(_) =>
  }

  lemma {:induction false} RunFits(r: E.Run, steps: seq<E.Step>)
    requires I.Inv(r) && A.CanRun(r, steps) && NumbersFit(r, steps) && LogFits(r.engine.wal)
             && AllLaid(r.engine.wal.gens)
    ensures LogFits(A.After(r, steps).engine.wal)
    decreases |steps|
  {
    if steps != [] {
      var next := E.Next(r, steps[0]);
      RS.StepKeeps(r, steps[0]);
      StepIsLaid(r, steps[0]);
      StepFits(r, steps[0]);
      RunFits(next, steps[1..]);
    }
  }

  // ----- files -----

  /** Bytes for the items of a generation. Which bytes a checkpoint gets is up to the order its maps are walked in. */
  ghost predicate BytesOf(l: seq<Logged>, g: Generation) {
    |l| == |g.items| && forall i :: 0 <= i < |l| ==> l[i].item == g.items[i].item && IsBodyOf(l[i].body, l[i].item)
  }

  lemma {:induction false} PlacesAgree(l: seq<Logged>, items: seq<FileItem>)
    requires AllOk(l) && |l| == |items| && forall i :: 0 <= i < |l| ==> l[i].item == items[i].item
    ensures SizeOf(l) == PlaceAfter(items)
  {
    if l != [] {
      var n := |l| - 1;
      PlacesAgree(l[..n], items[..n]);
      BodySize(l[n].body, l[n].item);
    }
  }

  /** Reading a generation's file from its start gives its entries, no more and no fewer, and the file ends where the
      next item goes. */
  lemma FileReadsAsGeneration(crc: seq<byte> -> nat, g: Generation, l: seq<Logged>)
    requires Laid(g) && BytesOf(l, g) && g.nextOffset <= U64 && forall i :: 0 <= i < |l| ==> Encodable(l[i].item)
    ensures |Image(crc, l)| == g.nextOffset
    ensures var (items, error) := ReadAll(crc, Image(crc, l), FILE_HEADER_SIZE);
            && error == None && |items| == |Entries(g)|
            && forall i :: 0 <= i < |items| ==> Entries(g)[i] == Entry(WalIndex(g.num, items[i].0), items[i].1)
  {
    PlacesAgree(l, g.items);
    IntactFileReadsAll(crc, l);
    forall i | 0 <= i < |l| ensures OffsetOf(l, i) == g.items[i].offset { PlacesAgree(l[..i], g.items[..i]); }
  }

  /** Reading a file from its end gives in reverse what reading it from its start gives. */
  lemma FileReadsBack(crc: seq<byte> -> nat, l: seq<Logged>)
    requires AllOk(l) && SizeOf(l) <= U64
    ensures ReadsBack(crc, Image(crc, l), LastItem(Image(crc, l)),
                      Reversed(ReadAll(crc, Image(crc, l), FILE_HEADER_SIZE).0), None)
  {
    IntactFileReadsAll(crc, l);
    IntactReadsBack(crc, l);
  }

  lemma {:induction false} GenerationFits(gens: seq<Generation>, k: nat)
    requires k < |gens| && EntriesFit(Flatten(gens))
    ensures EntriesFit(Entries(gens[k]))
  {
    var n := |gens| - 1;
    PartsFit(Flatten(gens[..n]), Entries(gens[n]));
    if k < n { GenerationFits(gens[..n], k); }
  }

  lemma PartsFit(a: seq<Entry>, b: seq<Entry>)
    requires EntriesFit(a + b)
    ensures EntriesFit(a) && EntriesFit(b)
  {
    assert forall i :: 0 <= i < |a| ==> a[i] == (a + b)[i];
    assert forall i :: 0 <= i < |b| ==> b[i] == (a + b)[|a| + i];
  }

  /** In every run whose numbers fit the format, for every retained generation and every choice of bytes for its items:
      what a scan of the file finds, forward for a redo or backward for an undo, is what the state machine has there. */
  lemma EveryScanIsFaithful(disk: map<PageAddress, seq<byte>>, steps: seq<E.Step>, crc: seq<byte> -> nat, k: nat,
                            l: seq<Logged>)
    requires A.WellSized(disk) && A.CanRun(E.Start(disk), steps) && NumbersFit(E.Start(disk), steps)
    requires var gens := A.After(E.Start(disk), steps).engine.wal.gens;
             k < |gens| && BytesOf(l, gens[k])
    ensures var g := A.After(E.Start(disk), steps).engine.wal.gens[k];
            var (items, error) := ReadAll(crc, Image(crc, l), FILE_HEADER_SIZE);
            && error == None && |items| == |Entries(g)|
            && ReadsBack(crc, Image(crc, l), LastItem(Image(crc, l)), Reversed(items), None)
            && |Image(crc, l)| == g.nextOffset
            && forall i :: 0 <= i < |items| ==> Entries(g)[i] == Entry(WalIndex(g.num, items[i].0), items[i].1)
  {
    A.StartKeeps(disk);
    StartFits(disk);
    RunIsLaid(E.Start(disk), steps);
    RunFits(E.Start(disk), steps);
    ScanIsFaithful(A.After(E.Start(disk), steps).engine.wal, crc, k, l);
  }

  lemma ScanIsFaithful(w: Wal, crc: seq<byte> -> nat, k: nat, l: seq<Logged>)
    requires LogFits(w) && AllLaid(w.gens) && k < |w.gens| && BytesOf(l, w.gens[k])
    ensures var (items, error) := ReadAll(crc, Image(crc, l), FILE_HEADER_SIZE);
            && error == None && |items| == |Entries(w.gens[k])|
            && ReadsBack(crc, Image(crc, l), LastItem(Image(crc, l)), Reversed(items), None)
            && |Image(crc, l)| == w.gens[k].nextOffset
            && forall i :: 0 <= i < |items| ==>
                             Entries(w.gens[k])[i] == Entry(WalIndex(w.gens[k].num, items[i].0), items[i].1)
  {
    GenerationFits(w.gens, k);
    forall i | 0 <= i < |l| ensures Encodable(l[i].item) { assert Encodable(Entries(w.gens[k])[i].item); }
    FileReadsAsGeneration(crc, w.gens[k], l);
    FileReadsBack(crc, l);
  }

  lemma StartFits(disk: map<PageAddress, seq<byte>>)
    ensures AllLaid(E.Start(disk).engine.wal.gens) && LogFits(E.Start(disk).engine.wal)
  {
    var wal := Wal([Generation(0, [], FILE_HEADER_SIZE)], 0, EMPTY);
    assert Flatten(wal.gens[..0]) == [] && Flatten(wal.gens) == [];
    PushIsLaid(wal, CheckpointItem(wal));
    PushFits(wal, CheckpointItem(wal));
  }
}
