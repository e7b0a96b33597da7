/** The write-ahead log as a value. */
module WalModel {
  // The queue of generations, the tables kept in memory, and what each operation makes of them.

  import opened Bytes
  import opened WalTypes
  import opened Tables
  import opened History

  datatype FileItem = FileItem(offset: nat, item: Item)

  /** One log file: its items, each at its offset, and the offset the next one gets. */
  datatype Generation = Generation(num: nat, items: seq<FileItem>, nextOffset: nat)

  datatype Wal = Wal(gens: seq<Generation>, currentGenNum: nat, tables: Tables)

  function Entries(g: Generation): (r: seq<Entry>)
    ensures |r| == |g.items|
  {
    seq(|g.items|, i requires 0 <= i < |g.items| => Entry(WalIndex(g.num, g.items[i].offset), g.items[i].item))
  }

  /** All the items of a queue of generations, oldest first. */
  function Flatten(gens: seq<Generation>): seq<Entry> {
    if gens == [] then [] else Flatten(gens[..|gens| - 1]) + Entries(gens[|gens| - 1])
  }

  function Last(gens: seq<Generation>): Generation
    requires gens != []
  {
    gens[|gens| - 1]
  }

  function NextIndex(w: Wal): WalIndex
    requires w.gens != []
  {
    WalIndex(w.currentGenNum, Last(w.gens).nextOffset)
  }

  predicate GenerationOk(g: Generation) {
    && (forall i, j :: 0 <= i < j < |g.items| ==> g.items[i].offset < g.items[j].offset)
    && (forall i :: 0 <= i < |g.items| ==> g.items[i].offset < g.nextOffset)
  }

  /** The queue is strictly ascending and ends at the current generation. */
  predicate QueueOk(w: Wal) {
    && w.gens != [] && Last(w.gens).num == w.currentGenNum
    && (forall i, j :: 0 <= i < j < |w.gens| ==> w.gens[i].num < w.gens[j].num)
    && (forall i :: 0 <= i < |w.gens| ==> GenerationOk(w.gens[i]))
  }

  // ----- operations -----

  function AppendItem(g: Generation, item: Item): Generation {
    Generation(g.num, g.items + [FileItem(g.nextOffset, item)], g.nextOffset + ItemSize(item))
  }

  function Push(w: Wal, item: Item): (w': Wal)
    requires w.gens != []
    ensures w'.gens != [] && w'.currentGenNum == w.currentGenNum
  {
    Wal(w.gens[..|w.gens| - 1] + [AppendItem(Last(w.gens), item)], w.currentGenNum,
        Handle(w.tables, Entry(NextIndex(w), item)))
  }

  function PrevItem(w: Wal, tid: nat): Option<WalIndex> {
    if tid in w.tables.transactions then Some(w.tables.transactions[tid].lastIndex) else None
  }

  function CommitItem(w: Wal, tid: nat): Item {
    Commit(tid, PrevItem(w, tid))
  }

  function WriteItem(w: Wal, tid: nat, page: PageAddress, offset: nat, from: seq<byte>, to: seq<byte>): Item {
    Write(tid, PrevItem(w, tid), page, offset, Some(from), to)
  }

  function UndoItem(w: Wal, c: Compensation): Item {
    Write(c.tid, PrevItem(w, c.tid), c.page, c.offset, None, c.to)
  }

  function CheckpointItem(w: Wal): Item {
    Checkpoint(w.tables.transactions, w.tables.dirtyPages)
  }

  function LogCompensations(w: Wal, comps: seq<Compensation>): (w': Wal)
    requires w.gens != []
    ensures w'.gens != [] && w'.currentGenNum == w.currentGenNum
  {
    if comps == [] then w
    else
      var before := LogCompensations(w, comps[..|comps| - 1]);
      Push(before, UndoItem(before, comps[|comps| - 1]))
  }

  function LogCommits(w: Wal, tids: seq<nat>): (w': Wal)
    requires w.gens != []
    ensures w'.gens != [] && w'.currentGenNum == w.currentGenNum
  {
    if tids == [] then w
    else
      var before := LogCommits(w, tids[..|tids| - 1]);
      Push(before, CommitItem(before, tids[|tids| - 1]))
  }

  /** The least of the last indices of those of `tids` that are unfinished. */
  function LowestIndex(transactions: map<nat, TransactionState>, tids: seq<nat>): Option<WalIndex> {
    if tids == [] then None
    else
      var rest, tid := LowestIndex(transactions, tids[..|tids| - 1]), tids[|tids| - 1];
      if tid !in transactions then rest
      else if rest.Some? && !transactions[tid].lastIndex.Before(rest.value) then rest
      else Some(transactions[tid].lastIndex)
  }

  function AsSet(tids: seq<nat>): set<nat> {
    set t | t in tids
  }

  /** The compensations of an undo of `tids`, newest write first. */
  function UndoPlan(w: Wal, tids: seq<nat>): seq<Compensation> {
    match LowestIndex(w.tables.transactions, tids)
    case None => []
    case Some(bound) => Compensations(Flatten(w.gens), AsSet(tids), bound)
  }

  function UndoAll(w: Wal, tids: seq<nat>): (w': Wal)
    requires w.gens != []
    ensures w'.gens != [] && w'.currentGenNum == w.currentGenNum
  {
    if LowestIndex(w.tables.transactions, tids).None? then w
    else LogCommits(LogCompensations(w, UndoPlan(w, tids)), tids)
  }

  predicate Needed(transactions: map<nat, TransactionState>, gen: nat) {
    exists t :: t in transactions && transactions[t].firstGen <= gen
  }

  /** How many generations at the front of the queue no unfinished transaction needs. */
  function StaleCount(gens: seq<Generation>, currentGenNum: nat, transactions: map<nat, TransactionState>): (n: nat)
    ensures n <= |gens|
  {
    if gens == [] || Needed(transactions, gens[0].num) || gens[0].num == currentGenNum then 0
    else 1 + StaleCount(gens[1..], currentGenNum, transactions)
  }

  function AddGeneration(w: Wal): Wal {
    Wal(w.gens + [Generation(w.currentGenNum + 1, [], FILE_HEADER_SIZE)], w.currentGenNum + 1, w.tables)
  }

  function Cleanup(w: Wal): Wal {
    w.(gens := w.gens[StaleCount(w.gens, w.currentGenNum, w.tables.transactions)..])
  }

  function Rotate(w: Wal): Wal {
    Cleanup(AddGeneration(w))
  }

  /** The log as a recovery finds its tables, before it undoes anything. */
  function Reload(w: Wal): Wal
    requires w.gens != []
  {
    w.(tables := Recovered(Entries(Last(w.gens))))
  }

  predicate Replayed(e: Entry, dirtyPages: map<PageAddress, WalIndex>) {
    e.item.Write? && e.item.page in dirtyPages && !e.index.Before(dirtyPages[e.item.page])
  }

  /** A change to a page that the log asks its owner to make. */
  datatype PartialWriteOp = PartialWriteOp(index: WalIndex, page: PageAddress, offset: nat, buf: seq<byte>)

  function RedoOps(log: seq<Entry>, dirtyPages: map<PageAddress, WalIndex>): seq<PartialWriteOp> {
    if log == [] then []
    else
      var e := log[|log| - 1];
      RedoOps(log[..|log| - 1], dirtyPages)
      + if Replayed(e, dirtyPages) then [PartialWriteOp(e.index, e.item.page, e.item.offset, e.item.to)] else []
  }

  function UndoOps(w: Wal, comps: seq<Compensation>): seq<PartialWriteOp>
    requires w.gens != []
  {
    if comps == [] then []
    else
      var n := |comps| - 1;
      UndoOps(w, comps[..n])
      + [PartialWriteOp(NextIndex(LogCompensations(w, comps[..n])), comps[n].page, comps[n].offset, comps[n].to)]
  }

  /** Everything a recovery asks to be written, in order. */
  function RecoverOps(w: Wal, tids: seq<nat>): seq<PartialWriteOp>
    requires w.gens != []
  {
    var current := Entries(Last(w.gens));
    var reloaded := Reload(w);
    RedoOps(current, reloaded.tables.dirtyPages) + UndoOps(reloaded, UndoPlan(reloaded, tids))
  }

  // ----- what appending does to the flattened log -----

  /** `w'` is `w` with `tail` appended to the current generation. */
  ghost predicate Extends(w: Wal, w': Wal, tail: seq<Entry>) {
    && w.gens != [] && w'.gens != []
    && w'.currentGenNum == w.currentGenNum
    && Flatten(w'.gens) == Flatten(w.gens) + tail
    && Entries(Last(w'.gens)) == Entries(Last(w.gens)) + tail
    && w'.gens[..|w'.gens| - 1] == w.gens[..|w.gens| - 1]
    && w'.tables == Replay(w.tables, tail)
    && QueueOk(w')
    && TailOf(tail, NextIndex(w), NextIndex(w'), w.currentGenNum)
  }

  lemma PushAppends(w: Wal, item: Item)
    requires w.gens != [] && Last(w.gens).num == w.currentGenNum
    ensures Entries(Last(Push(w, item).gens)) == Entries(Last(w.gens)) + [Entry(NextIndex(w), item)]
    ensures Flatten(Push(w, item).gens) == Flatten(w.gens) + [Entry(NextIndex(w), item)]
  {
    var w', n, e := Push(w, item), |w.gens| - 1, Entry(NextIndex(w), item);
    assert w'.gens[..n] == w.gens[..n];
    assert Entries(Last(w'.gens)) == Entries(Last(w.gens)) + [e];
    assert Flatten(w'.gens) == Flatten(w.gens[..n]) + (Entries(Last(w.gens)) + [e]);
  }

  lemma PushKeepsQueue(w: Wal, item: Item)
    requires QueueOk(w)
    ensures QueueOk(Push(w, item))
  {
  }

  lemma PushExtends(w: Wal, item: Item)
    requires QueueOk(w)
    ensures Extends(w, Push(w, item), [Entry(NextIndex(w), item)])
  {
    PushAppends(w, item);
    PushKeepsQueue(w, item);
    ReplayAppend(w.tables, [], Entry(NextIndex(w), item));
    assert [] + [Entry(NextIndex(w), item)] == [Entry(NextIndex(w), item)];
  }

  lemma ExtendsNothing(w: Wal)
    requires QueueOk(w)
    ensures Extends(w, w, [])
  {
    assert Flatten(w.gens) + [] == Flatten(w.gens);
    assert Entries(Last(w.gens)) + [] == Entries(Last(w.gens));
  }

  lemma ExtendsTwice(w: Wal, w': Wal, w'': Wal, a: seq<Entry>, b: seq<Entry>)
    requires Extends(w, w', a) && Extends(w', w'', b)
    ensures Extends(w, w'', a + b)
  {
    ReplayConcat(w.tables, a, b);
    JoinParts(Flatten(w.gens), a, b);
    JoinParts(Entries(Last(w.gens)), a, b);
    JoinTails(a, b, NextIndex(w), NextIndex(w'), NextIndex(w''), w.currentGenNum);
  }

  lemma JoinParts(log: seq<Entry>, a: seq<Entry>, b: seq<Entry>)
    ensures log + a + b == log + (a + b)
  {
  }

  ghost predicate TailOf(tail: seq<Entry>, from: WalIndex, next: WalIndex, gen: nat) {
    && (forall i :: 0 <= i < |tail| ==> tail[i].index.generation == gen)
    && (forall i, j :: 0 <= i < j < |tail| ==> tail[i].index.Before(tail[j].index))
    && (forall i :: 0 <= i < |tail| ==> from.AtMost(tail[i].index) && tail[i].index.Before(next))
    && from.AtMost(next)
  }

  lemma JoinTails(a: seq<Entry>, b: seq<Entry>, from: WalIndex, mid: WalIndex, next: WalIndex, gen: nat)
    requires TailOf(a, from, mid, gen) && TailOf(b, mid, next, gen)
    ensures TailOf(a + b, from, next, gen)
  {
    var c := a + b;
    assert forall i :: 0 <= i < |a| ==> c[i] == a[i];
    assert forall i :: |a| <= i < |c| ==> c[i] == b[i - |a|];
  }

  ghost predicate Records(e: Entry, c: Compensation) {
    && e.item.Write? && e.item.tid == c.tid && e.item.page == c.page && e.item.offset == c.offset
    && e.item.from.None? && e.item.to == c.to
  }

  lemma {:induction false} CompensationsExtend(w: Wal, comps: seq<Compensation>) returns (tail: seq<Entry>)
    requires QueueOk(w)
    ensures Extends(w, LogCompensations(w, comps), tail)
    ensures |tail| == |comps| && forall i :: 0 <= i < |tail| ==> Records(tail[i], comps[i])
  {
    if comps == [] {
      tail := [];
      ExtendsNothing(w);
    } else {
      var n := |comps| - 1;
      tail := CompensationsExtend(w, comps[..n]);
      var before := LogCompensations(w, comps[..n]);
      PushExtends(before, UndoItem(before, comps[n]));
      var e := Entry(NextIndex(before), UndoItem(before, comps[n]));
      ExtendsTwice(w, before, Push(before, e.item), tail, [e]);
      tail := tail + [e];
    }
  }

  lemma {:induction false} CommitsExtend(w: Wal, tids: seq<nat>) returns (tail: seq<Entry>)
    requires QueueOk(w)
    ensures Extends(w, LogCommits(w, tids), tail)
    ensures |tail| == |tids| && forall i :: 0 <= i < |tail| ==> tail[i].IsCommitOf(tids[i])
  {
    if tids == [] {
      tail := [];
      ExtendsNothing(w);
    } else {
      var n := |tids| - 1;
      tail := CommitsExtend(w, tids[..n]);
      var before := LogCommits(w, tids[..n]);
      PushExtends(before, CommitItem(before, tids[n]));
      var e := Entry(NextIndex(before), CommitItem(before, tids[n]));
      ExtendsTwice(w, before, Push(before, e.item), tail, [e]);
      tail := tail + [e];
    }
  }

  /** The bound of an undo is one of the losers' last indices, and none is lower. */
  lemma {:induction false} LowestIsLeast(transactions: map<nat, TransactionState>, tids: seq<nat>)
    ensures LowestIndex(transactions, tids).None? <==> forall t :: t in tids ==> t !in transactions
    ensures var lowest := LowestIndex(transactions, tids);
            lowest.Some? ==>
              && (exists t :: t in tids && t in transactions && transactions[t].lastIndex == lowest.value)
              && (forall t :: t in tids && t in transactions ==> lowest.value.AtMost(transactions[t].lastIndex))
  {
    if tids != [] {
      LowestIsLeast(transactions, tids[..|tids| - 1]);
      assert tids == tids[..|tids| - 1] + [tids[|tids| - 1]];
    }
  }

  // ----- rotation -----

  lemma {:induction false} FlattenConcat(a: seq<Generation>, b: seq<Generation>)
    ensures Flatten(a + b) == Flatten(a) + Flatten(b)
  {
    if b == [] {
      assert a + b == a;
    } else {
      var n := |b| - 1;
      FlattenConcat(a, b[..n]);
      assert (a + b)[..|a + b| - 1] == a + b[..n];
    }
  }

  lemma {:induction false} FlattenMember(gens: seq<Generation>, i: nat) returns (g: nat)
    requires i < |Flatten(gens)|
    ensures g < |gens| && Flatten(gens)[i] in Entries(gens[g])
  {
    var n := |gens| - 1;
    if i < |Flatten(gens[..n])| { g := FlattenMember(gens[..n], i); } else { g := n; }
  }

  /** What a cleanup deletes is a prefix of the queue, not the current generation, and nothing an unfinished
      transaction needs; it stops at the first generation that is either. */
  lemma {:induction false} StaleIsUnneeded(gens: seq<Generation>, currentGenNum: nat,
                                           transactions: map<nat, TransactionState>)
    ensures var n := StaleCount(gens, currentGenNum, transactions);
            && (forall i :: 0 <= i < n ==> gens[i].num != currentGenNum && !Needed(transactions, gens[i].num))
            && (n < |gens| ==> gens[n].num == currentGenNum || Needed(transactions, gens[n].num))
  {
    if gens != [] { StaleIsUnneeded(gens[1..], currentGenNum, transactions); }
  }

  function NewGeneration(w: Wal): Generation {
    Generation(w.currentGenNum + 1, [], FILE_HEADER_SIZE)
  }

  /** How many generations a rotation deletes. */
  function Deleted(w: Wal): nat {
    StaleCount(AddGeneration(w).gens, w.currentGenNum + 1, w.tables.transactions)
  }

  lemma RotateShape(w: Wal)
    ensures Deleted(w) <= |w.gens|
    ensures Rotate(w).gens == w.gens[Deleted(w)..] + [NewGeneration(w)]
  {
    var added := AddGeneration(w);
    StaleIsUnneeded(added.gens, added.currentGenNum, w.tables.transactions);
    assert added.gens[|w.gens|].num == added.currentGenNum;
    if Deleted(w) > |w.gens| { assert false; }
  }

  lemma RotateKeepsQueue(w: Wal)
    requires QueueOk(w)
    ensures Deleted(w) <= |w.gens| && QueueOk(Rotate(w))
    ensures Entries(Last(Rotate(w).gens)) == []
    ensures NextIndex(Rotate(w)) == WalIndex(w.currentGenNum + 1, FILE_HEADER_SIZE)
  {
    RotateShape(w);
    KeptAndNew(w, Deleted(w));
  }

  lemma KeptAndNew(w: Wal, n: nat)
    requires QueueOk(w) && n <= |w.gens|
    ensures QueueOk(Wal(w.gens[n..] + [NewGeneration(w)], w.currentGenNum + 1, w.tables))
  {
    var gens, m := w.gens[n..] + [NewGeneration(w)], |w.gens|;
    forall i | 0 <= i < |gens| - 1 ensures gens[i] == w.gens[n + i] && gens[i].num <= w.currentGenNum {
      assert w.gens[n + i].num <= w.gens[m - 1].num;
    }
  }

  lemma RotateKeepsItems(w: Wal)
    ensures Deleted(w) <= |w.gens|
    ensures Flatten(w.gens) == Flatten(w.gens[..Deleted(w)]) + Flatten(Rotate(w).gens)
  {
    RotateShape(w);
    var n, newGen := Deleted(w), NewGeneration(w);
    FlattenConcat(w.gens[n..], [newGen]);
    assert Flatten([newGen]) == Flatten([]) + Entries(newGen);
    FlattenConcat(w.gens[..n], w.gens[n..]);
    assert w.gens == w.gens[..n] + w.gens[n..];
  }
}
