/** The write-ahead log, as the objects that are updated in place. */
module Wal {
  import opened Bytes
  import opened WalTypes
  import opened Tables
  import opened History
  import opened WalModel

  datatype StorageError = WalNotInitialized

  datatype Result<+T> = Ok(value: T) | Err(error: StorageError)

  // ----- the tables -----

  class State {
    var dirtyPages: map<PageAddress, WalIndex>
    var transactions: map<nat, TransactionState>

    ghost function AsTables(): Tables
      reads this
    {
      Tables(dirtyPages, transactions)
    }

    constructor ()
      ensures AsTables() == EMPTY
    {
      dirtyPages, transactions := map[], map[];
    }

    method TrackTransaction(index: WalIndex, tid: nat)
      modifies this`transactions
      ensures transactions == Tracked(old(transactions), index, tid)
    {
      if tid !in transactions {
        transactions := transactions[tid := TransactionState(index.generation, index)];
      } else {
        transactions := transactions[tid := transactions[tid].(lastIndex := index)];
      }
    }

    method CompleteTransaction(tid: nat)
      modifies this`transactions
      ensures transactions == old(transactions) - {tid}
    {
      transactions := transactions - {tid};
    }

    method TrackWrite(index: WalIndex, tid: nat, page: PageAddress)
      modifies this
      ensures transactions == Tracked(old(transactions), index, tid)
      ensures dirtyPages == if page in old(dirtyPages) then old(dirtyPages) else old(dirtyPages)[page := index]
    {
      TrackTransaction(index, tid);
      if page !in dirtyPages { dirtyPages := dirtyPages[page := index]; }
    }

    method CacheDidFlush()
      modifies this`dirtyPages
      ensures dirtyPages == map[]
    {
      dirtyPages := map[];
    }

    method HandleItem(index: WalIndex, item: Item)
      modifies this
      ensures AsTables() == Handle(old(AsTables()), Entry(index, item))
    {
      match item
      case Write(tid, _, page, _, _, _) => TrackWrite(index, tid, page);
      case Commit(tid, _) => CompleteTransaction(tid);
      case Checkpoint(_, _) =>
    }

    /** The first generation any unfinished transaction has written to; none, when there is no such transaction. */
    method FirstNeededGeneration() returns (first: Option<nat>)
      ensures first.None? <==> transactions == map[]
      ensures first.Some? ==>
                && (exists t :: t in transactions && transactions[t].firstGen == first.value)
                && (forall t :: t in transactions ==> first.value <= transactions[t].firstGen)
      ensures forall gen :: Needed(transactions, gen) <==> first.Some? && first.value <= gen
    {
      first := None;
      var rest := transactions.Keys;
      while rest != {}
        invariant rest <= transactions.Keys
        invariant first.None? <==> rest == transactions.Keys
        invariant first.Some? ==> exists t :: t in transactions && transactions[t].firstGen == first.value
        invariant first.Some? ==> forall t :: t in transactions && t !in rest ==>
                                                first.value <= transactions[t].firstGen
        decreases |rest|
      {
        var t :| t in rest;
        var gen := transactions[t].firstGen;
        first := if first.None? || gen < first.value then Some(gen) else first;
        rest := rest - {t};
      }
    }
  }

  // ----- the queue of log files -----

  class GenerationQueue {
    var generations: seq<Generation>
    var currentGenNum: nat

    constructor ()
      ensures generations == [] && currentGenNum == 0
    {
      generations, currentGenNum := [], 0;
    }

    method PushGeneration(file: Generation)
      modifies this
      ensures generations == old(generations) + [file]
      ensures currentGenNum == if file.num > old(currentGenNum) then file.num else old(currentGenNum)
    {
      currentGenNum := if file.num > currentGenNum then file.num else currentGenNum;
      generations := generations + [file];
    }

    /** Appends an item to the last file. */
    method PushItem(item: Item)
      requires generations != []
      modifies this`generations
      ensures generations == old(generations[..|generations| - 1]) + [AppendItem(Last(old(generations)), item)]
    {
      var n := |generations| - 1;
      generations := generations[n := AppendItem(generations[n], item)];
    }
  }

  // ----- the log -----

  class Wal {
    const state: State
    const gens: GenerationQueue
    const maxGenerationSize: nat

    ghost function Model(): WalModel.Wal
      reads this, state, gens
    {
      WalModel.Wal(gens.generations, gens.currentGenNum, state.AsTables())
    }

    ghost predicate Valid()
      reads this, state, gens
    {
      gens.generations != [] ==> QueueOk(Model())
    }

    /** A new log: generation 0, with the checkpoint of empty tables. */
    constructor Create(maxGenerationSize: nat)
      ensures Valid() && fresh(state) && fresh(gens)
      ensures var empty := WalModel.Wal([Generation(0, [], FILE_HEADER_SIZE)], 0, EMPTY);
              Model() == Push(empty, CheckpointItem(empty))
    {
      this.maxGenerationSize := maxGenerationSize;
      state := new State();
      gens := new GenerationQueue();
      new;
      gens.PushGeneration(Generation(0, [], FILE_HEADER_SIZE));
      var _ := LogCheckpoint();
    }

    method PushRawItem(item: Item) returns (r: Result<WalIndex>, checkpoint: bool)
      requires Valid()
      modifies state, gens
      ensures Valid()
      ensures old(gens.generations) == [] ==> r == Err(WalNotInitialized) && !checkpoint && Model() == old(Model())
      ensures old(gens.generations) != [] ==>
                && r == Ok(NextIndex(old(Model()))) && Model() == Push(old(Model()), item)
                && (checkpoint <==> Last(gens.generations).nextOffset >= maxGenerationSize)
    {
      if gens.generations == [] {
        return Err(WalNotInitialized), false;
      }
      PushExtends(Model(), item);
      var index := WalIndex(gens.currentGenNum, gens.generations[|gens.generations| - 1].nextOffset);
      state.HandleItem(index, item);
      gens.PushItem(item);
      r, checkpoint := Ok(index), gens.generations[|gens.generations| - 1].nextOffset >= maxGenerationSize;
    }

    method LogCheckpoint() returns (r: Result<()>)
      requires Valid()
      modifies gens
      ensures Valid()
      ensures r.Err? <==> old(gens.generations) == []
      ensures old(gens.generations) == [] ==> Model() == old(Model())
      ensures old(gens.generations) != [] ==> Model() == Push(old(Model()), CheckpointItem(old(Model())))
    {
      if gens.generations == [] {
        return Err(WalNotInitialized);
      }
      PushExtends(Model(), CheckpointItem(Model()));
      gens.PushItem(Checkpoint(state.transactions, state.dirtyPages));
      r := Ok(());
    }

    method LastIndexOf(tid: nat) returns (prev: Option<WalIndex>)
      ensures prev == PrevItem(Model(), tid)
    {
      prev := if tid in state.transactions then Some(state.transactions[tid].lastIndex) else None;
    }

    method LogWrite(tid: nat, page: PageAddress, offset: nat, from: seq<byte>, to: seq<byte>)
      returns (r: Result<WalIndex>)
      requires Valid()
      modifies state, gens
      ensures Valid()
      ensures old(gens.generations) == [] ==> r == Err(WalNotInitialized) && Model() == old(Model())
      ensures old(gens.generations) != [] ==>
                r == Ok(NextIndex(old(Model())))
                && Model() == Push(old(Model()), WriteItem(old(Model()), tid, page, offset, from, to))
    {
      var prev := LastIndexOf(tid);
      var checkpoint;
      r, checkpoint := PushRawItem(Write(tid, prev, page, offset, Some(from), to));
    }

    method LogCommit(tid: nat) returns (r: Result<WalIndex>)
      requires Valid()
      modifies state, gens
      ensures Valid()
      ensures old(gens.generations) == [] ==> r == Err(WalNotInitialized) && Model() == old(Model())
      ensures old(gens.generations) != [] ==>
                r == Ok(NextIndex(old(Model()))) && Model() == Push(old(Model()), CommitItem(old(Model()), tid))
    {
      var prev := LastIndexOf(tid);
      var checkpoint;
      r, checkpoint := PushRawItem(Commit(tid, prev));
    }

    method LogUndo(c: Compensation) returns (r: Result<WalIndex>)
      requires Valid()
      modifies state, gens
      ensures Valid()
      ensures old(gens.generations) == [] ==> r == Err(WalNotInitialized) && Model() == old(Model())
      ensures old(gens.generations) != [] ==>
                r == Ok(NextIndex(old(Model()))) && Model() == Push(old(Model()), UndoItem(old(Model()), c))
    {
      var prev := LastIndexOf(c.tid);
      var checkpoint;
      r, checkpoint := PushRawItem(Write(c.tid, prev, c.page, c.offset, None, c.to));
    }

    /** The least of the last indices of the unfinished ones among `tids`. */
    method LowestLastIndex(tids: seq<nat>) returns (lowest: Option<WalIndex>)
      ensures lowest == LowestIndex(state.transactions, tids)
    {
      lowest := None;
      for i := 0 to |tids|
        invariant lowest == LowestIndex(state.transactions, tids[..i])
      {
        assert tids[..i + 1][..i] == tids[..i];
        if tids[i] in state.transactions {
          var index := state.transactions[tids[i]].lastIndex;
          if lowest.None? || index.Before(lowest.value) { lowest := Some(index); }
        }
      }
      assert tids[..|tids|] == tids;
    }

    /** The scan of one generation, from its last item back. `older` is what lies before it. */
    method ScanGeneration(generation: Generation, tids: seq<nat>, bound: WalIndex, ghost older: seq<Entry>)
      returns (comps: seq<Compensation>, stopped: bool)
      ensures Compensations(older + Entries(generation), AsSet(tids), bound)
           == comps + if stopped then [] else Compensations(older, AsSet(tids), bound)
    {
      comps, stopped := [], false;
      ghost var all := Compensations(older + Entries(generation), AsSet(tids), bound);
      var k := |generation.items|;
      assert Entries(generation)[..k] == Entries(generation);
      while k > 0
        invariant 0 <= k <= |generation.items|
        invariant comps + Compensations(older + Entries(generation)[..k], AsSet(tids), bound) == all
      {
        k := k - 1;
        var e := Entry(WalIndex(generation.num, generation.items[k].offset), generation.items[k].item);
        ghost var rest := Compensations(older + Entries(generation)[..k], AsSet(tids), bound);
        CompensationsStep(older, Entries(generation), k, AsSet(tids), bound);
        if e.index.Before(bound) {
          return comps, true;
        }
        if e.item.Write? && e.item.tid in tids && e.item.from.Some? {
          var c := Compensation(e.item.tid, e.item.page, e.item.offset, e.item.from.value);
          Associate(comps, [c], rest);
          comps := comps + [c];
        } else {
          Associate(comps, [], rest);
        }
      }
      assert older + Entries(generation)[..0] == older;
    }

    /** The scan: backwards through every generation, until an item before `bound`. */
    method CollectCompensations(tids: seq<nat>, bound: WalIndex) returns (comps: seq<Compensation>)
      ensures comps == Compensations(Flatten(gens.generations), AsSet(tids), bound)
    {
      comps := [];
      ghost var all := Compensations(Flatten(gens.generations), AsSet(tids), bound);
      var g := |gens.generations|;
      assert gens.generations[..g] == gens.generations;
      while g > 0
        invariant 0 <= g <= |gens.generations|
        invariant comps + Compensations(Flatten(gens.generations[..g]), AsSet(tids), bound) == all
      {
        g := g - 1;
        FlattenStep(gens.generations, g);
        ghost var older := Flatten(gens.generations[..g]);
        var found, stopped := ScanGeneration(gens.generations[g], tids, bound, older);
        Associate(comps, found, if stopped then [] else Compensations(older, AsSet(tids), bound));
        comps := comps + found;
        if stopped { return; }
      }
      assert gens.generations[..0] == [];
    }

    /** Logs the compensations and asks for them to be applied, in the order of the scan. */
    method ApplyUndoLogs(comps: seq<Compensation>) returns (ops: seq<PartialWriteOp>)
      requires Valid() && gens.generations != []
      modifies state, gens
      ensures Valid() && gens.generations != []
      ensures Model() == LogCompensations(old(Model()), comps)
      ensures ops == UndoOps(old(Model()), comps)
    {
      ops := [];
      for i := 0 to |comps|
        invariant Valid() && gens.generations != []
        invariant Model() == LogCompensations(old(Model()), comps[..i])
        invariant ops == UndoOps(old(Model()), comps[..i])
      {
        assert comps[..i + 1][..i] == comps[..i];
        var index := LogUndo(comps[i]);
        ops := ops + [PartialWriteOp(index.value, comps[i].page, comps[i].offset, comps[i].to)];
      }
      assert comps[..|comps|] == comps;
    }

    method CommitUndone(tids: seq<nat>)
      requires Valid() && gens.generations != []
      modifies state, gens
      ensures Valid() && gens.generations != []
      ensures Model() == LogCommits(old(Model()), tids)
    {
      for i := 0 to |tids|
        invariant Valid() && gens.generations != []
        invariant Model() == LogCommits(old(Model()), tids[..i])
      {
        assert tids[..i + 1][..i] == tids[..i];
        var _ := LogCommit(tids[i]);
        ghost var logged := state.transactions;
        state.CompleteTransaction(tids[i]);
        assert state.transactions == logged;
      }
      assert tids[..|tids|] == tids;
    }

    method UndoAll(tids: seq<nat>) returns (r: Result<()>, ops: seq<PartialWriteOp>)
      requires Valid()
      modifies state, gens
      ensures Valid()
      ensures old(gens.generations) != [] ==>
                && r.Ok? && Model() == WalModel.UndoAll(old(Model()), tids)
                && ops == UndoOps(old(Model()), UndoPlan(old(Model()), tids))
      ensures old(gens.generations) == [] ==>
                && ops == [] && Model() == old(Model())
                && (r.Ok? <==> forall t :: t in tids ==> t !in old(state.transactions))
    {
      ops := [];
      LowestIsLeast(state.transactions, tids);
      var lowest := LowestLastIndex(tids);
      if lowest.None? {
        return Ok(()), [];
      }
      var comps := CollectCompensations(tids, lowest.value);
      if gens.generations == [] {
        return Err(WalNotInitialized), [];
      }
      ops := ApplyUndoLogs(comps);
      CommitUndone(tids);
      r := Ok(());
    }

    /** Takes the tables from the first checkpoint of the current generation. */
    method ReadInitialState()
      requires gens.generations != []
      modifies state
      ensures state.AsTables() == Snapshot(Entries(Last(gens.generations)))
    {
      var file := gens.generations[|gens.generations| - 1];
      ghost var log := Entries(file);
      for i := 0 to |file.items|
        invariant Snapshot(log[i..]) == Snapshot(log)
      {
        assert log[i..][0] == log[i] && log[i..][1..] == log[i + 1..];
        match file.items[i].item
        case Checkpoint(transactions, dirtyPages) =>
          state.dirtyPages, state.transactions := dirtyPages, transactions;
          return;
        case Write(_, _, _, _, _, _) =>
        case Commit(_, _) =>
      }
      state.dirtyPages, state.transactions := map[], map[];
    }

    /** Replays the whole current generation on the tables. */
    method RecoverState()
      requires gens.generations != []
      modifies state
      ensures state.AsTables() == Replay(old(state.AsTables()), Entries(Last(gens.generations)))
    {
      var file := gens.generations[|gens.generations| - 1];
      ghost var log := Entries(file);
      for i := 0 to |file.items|
        invariant state.AsTables() == Replay(old(state.AsTables()), log[..i])
      {
        assert log[..i + 1][..i] == log[..i];
        state.HandleItem(WalIndex(file.num, file.items[i].offset), file.items[i].item);
      }
      assert log[..|log|] == log;
    }

    /** Asks for the writes of the current generation to be repeated, from each page's first dirty index on. */
    method Redo() returns (ops: seq<PartialWriteOp>)
      requires gens.generations != []
      ensures ops == RedoOps(Entries(Last(gens.generations)), state.dirtyPages)
    {
      ops := [];
      var file := gens.generations[|gens.generations| - 1];
      ghost var log := Entries(file);
      for i := 0 to |file.items|
        invariant ops == RedoOps(log[..i], state.dirtyPages)
      {
        assert log[..i + 1][..i] == log[..i];
        var index := WalIndex(file.num, file.items[i].offset);
        match file.items[i].item
        case Write(_, _, page, offset, _, to) =>
          if page in state.dirtyPages && !index.Before(state.dirtyPages[page]) {
            ops := ops + [PartialWriteOp(index, page, offset, to)];
          }
        case Commit(_, _) =>
        case Checkpoint(_, _) =>
      }
      assert log[..|log|] == log;
    }

    method UnfinishedTransactions() returns (tids: seq<nat>)
      ensures AsSet(tids) == state.transactions.Keys
    {
      tids := [];
      var rest := state.transactions.Keys;
      while rest != {}
        invariant AsSet(tids) + rest == state.transactions.Keys
        decreases |rest|
      {
        var t :| t in rest;
        assert AsSet(tids + [t]) == AsSet(tids) + {t};
        tids, rest := tids + [t], rest - {t};
      }
    }

    method Recover() returns (r: Result<()>, ops: seq<PartialWriteOp>, tids: seq<nat>)
      requires Valid()
      modifies state, gens
      ensures Valid()
      ensures old(gens.generations) == [] ==> r == Err(WalNotInitialized) && ops == [] && Model() == old(Model())
      ensures old(gens.generations) != [] ==>
                && r.Ok? && AsSet(tids) == Reload(old(Model())).tables.transactions.Keys
                && ops == RecoverOps(old(Model()), tids)
                && Model() == WalModel.UndoAll(Reload(old(Model())), tids)
    {
      ops, tids := [], [];
      if gens.generations == [] {
        return Err(WalNotInitialized), [], [];
      }
      ReadInitialState();
      RecoverState();
      assert Model() == Reload(old(Model()));
      var redone := Redo();
      tids := UnfinishedTransactions();
      var undone;
      r, undone := UndoAll(tids);
      ops := redone + undone;
    }

    /** The generations at the front of the queue that no unfinished transaction needs. */
    method StaleGenerations() returns (stale: seq<nat>)
      ensures |stale| == StaleCount(gens.generations, gens.currentGenNum, state.transactions)
      ensures forall i :: 0 <= i < |stale| ==> stale[i] == gens.generations[i].num
    {
      var first := state.FirstNeededGeneration();
      stale := [];
      ghost var queue := gens.generations;
      ghost var count := StaleCount(queue, gens.currentGenNum, state.transactions);
      var i := 0;
      while i < |gens.generations|
        invariant 0 <= i <= |queue| && i == |stale|
        invariant i + StaleCount(queue[i..], gens.currentGenNum, state.transactions) == count
        invariant forall k :: 0 <= k < i ==> stale[k] == queue[k].num
      {
        assert queue[i..][0] == queue[i] && queue[i..][1..] == queue[i + 1..];
        var num := gens.generations[i].num;
        if (first.Some? && num >= first.value) || num == gens.currentGenNum { break; }
        stale := stale + [num];
        i := i + 1;
      }
    }

    /** Drops them, with their files. */
    method CleanupGenerations() returns (deleted: seq<nat>)
      requires Valid()
      modifies gens
      ensures Valid()
      ensures Model() == Cleanup(old(Model()))
      ensures |deleted| == StaleCount(old(gens.generations), old(gens.currentGenNum), old(state.transactions))
      ensures forall i :: 0 <= i < |deleted| ==> deleted[i] == old(gens.generations)[i].num
    {
      deleted := StaleGenerations();
      CleanupKeeps(Model());
      ghost var queue := gens.generations;
      for i := 0 to |deleted|
        invariant gens.generations == queue[i..] && gens.currentGenNum == old(gens.currentGenNum)
        modifies gens`generations
      {
        gens.generations := gens.generations[1..];
      }
    }

    /** Starts a new generation, and drops what is not needed any more. The checkpoint is logged separately, after the
        lock on the queue has been let go. */
    method Rotate() returns (deleted: seq<nat>)
      requires Valid() && gens.generations != []
      modifies gens
      ensures Valid() && gens.generations != []
      ensures Model() == WalModel.Rotate(old(Model()))
    {
      AddKeeps(Model());
      RotateKeepsQueue(Model());
      gens.PushGeneration(Generation(gens.currentGenNum + 1, [], FILE_HEADER_SIZE));
      deleted := CleanupGenerations();
    }
  }

  lemma FlattenStep(gens: seq<Generation>, g: nat)
    requires g < |gens|
    ensures Flatten(gens[..g + 1]) == Flatten(gens[..g]) + Entries(gens[g])
  {
    assert gens[..g + 1][..g] == gens[..g];
  }

  lemma Associate<T>(a: seq<T>, b: seq<T>, c: seq<T>)
    ensures a + (b + c) == a + b + c
    ensures c == [] ==> a + b + c == a + b
    ensures b == [] ==> a + b + c == a + c
  {
  }

  lemma CompensationsStep(older: seq<Entry>, log: seq<Entry>, k: nat, losers: set<nat>, bound: WalIndex)
    requires k < |log|
    ensures Compensations(older + log[..k + 1], losers, bound) ==
            if log[k].index.Before(bound) then []
            else (if Undoable(log[k], losers, bound) then [Inverse(log[k])] else []) +
                 Compensations(older + log[..k], losers, bound)
  {
    var scanned := older + log[..k + 1];
    assert scanned[|scanned| - 1] == log[k] && scanned[..|scanned| - 1] == older + log[..k];
  }

  lemma CleanupKeeps(w: WalModel.Wal)
    requires w.gens != [] ==> QueueOk(w)
    ensures w.gens != [] ==> QueueOk(Cleanup(w))
  {
    var n := StaleCount(w.gens, w.currentGenNum, w.tables.transactions);
    StaleIsUnneeded(w.gens, w.currentGenNum, w.tables.transactions);
    if w.gens != [] {
      assert w.gens[|w.gens| - 1].num == w.currentGenNum;
      if n == |w.gens| { assert false; }
      assert Last(Cleanup(w).gens) == Last(w.gens);
    }
  }

  lemma AddKeeps(w: WalModel.Wal)
    requires QueueOk(w)
    ensures QueueOk(AddGeneration(w))
  {
    var gens := AddGeneration(w).gens;
    forall i | 0 <= i < |w.gens| ensures gens[i].num <= w.currentGenNum {
      assert gens[i].num <= w.gens[|w.gens| - 1].num;
    }
  }
}
