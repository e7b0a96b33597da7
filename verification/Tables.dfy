/** The tables the log keeps. */
module Tables {
  // As values: which transactions are unfinished, and from which log index on each page may be newer in memory than
  // on disk.

  import opened WalTypes

  datatype Tables = Tables(dirtyPages: map<PageAddress, WalIndex>, transactions: map<nat, TransactionState>)

  const EMPTY: Tables := Tables(map[], map[])

  function Tracked(transactions: map<nat, TransactionState>, index: WalIndex, tid: nat): map<nat, TransactionState> {
    transactions[tid := if tid in transactions then transactions[tid].(lastIndex := index)
    else TransactionState(index.generation, index)]
  }

  /** What one logged item does to the tables. */
  function Handle(tables: Tables, e: Entry): Tables {
    match e.item
    case Write(tid, _, page, _, _, _) =>
      Tables(if page in tables.dirtyPages then tables.dirtyPages else tables.dirtyPages[page := e.index],
             Tracked(tables.transactions, e.index, tid))
    case Commit(tid, _) => tables.(transactions := tables.transactions - {tid})
    case Checkpoint(_, _) => tables
  }

  function Replay(tables: Tables, log: seq<Entry>): Tables {
    if log == [] then tables else Handle(Replay(tables, log[..|log| - 1]), log[|log| - 1])
  }

  lemma ReplayAppend(tables: Tables, log: seq<Entry>, e: Entry)
    ensures Replay(tables, log + [e]) == Handle(Replay(tables, log), e)
  {
    assert (log + [e])[..|log|] == log;
  }

  lemma {:induction false} ReplayConcat(tables: Tables, a: seq<Entry>, b: seq<Entry>)
    ensures Replay(tables, a + b) == Replay(Replay(tables, a), b)
  {
    if b == [] {
      assert a + b == a;
    } else {
      var n := |b| - 1;
      ReplayConcat(tables, a, b[..n]);
      assert (a + b)[..|a + b| - 1] == a + b[..n];
    }
  }

  /** The transaction table does not depend on the dirty-page table. */
  lemma {:induction false} ReplayTransactionsOnly(t: Tables, u: Tables, log: seq<Entry>)
    requires t.transactions == u.transactions
    ensures Replay(t, log).transactions == Replay(u, log).transactions
  {
    if log != [] { ReplayTransactionsOnly(t, u, log[..|log| - 1]); }
  }

  // ----- what the transaction table means -----

  ghost predicate LiveBy(log: seq<Entry>, i: int, t: nat) {
    LiveAt(log, i) && log[i].item.tid == t
  }

  ghost predicate LastLive(log: seq<Entry>, i: int, t: nat) {
    LiveBy(log, i, t) && forall j :: LiveBy(log, j, t) ==> j <= i
  }

  ghost predicate FirstLive(log: seq<Entry>, i: int, t: nat) {
    LiveBy(log, i, t) && forall j :: LiveBy(log, j, t) ==> i <= j
  }

  /** `ts` is what the log says of the unfinished transaction `t`: its last write, and the generation of its first. */
  ghost predicate Tracks(log: seq<Entry>, t: nat, ts: TransactionState) {
    && (exists i :: LastLive(log, i, t) && log[i].index == ts.lastIndex)
    && (exists i :: FirstLive(log, i, t) && log[i].index.generation == ts.firstGen)
  }

  /** Replaying a whole history from empty tables leaves exactly the unfinished transactions in the table,
      each with its last write's index and its first write's generation. */
  lemma {:induction false} TransactionsAreTheLiveOnes(log: seq<Entry>)
    ensures forall i :: LiveAt(log, i) ==> log[i].item.tid in Replay(EMPTY, log).transactions
    ensures forall t :: t in Replay(EMPTY, log).transactions ==> Tracks(log, t, Replay(EMPTY, log).transactions[t])
  {
    if log != [] {
      var n := |log| - 1;
      var init, e := log[..n], log[n];
      assert init + [e] == log;
      TransactionsAreTheLiveOnes(init);
      var before, after := Replay(EMPTY, init).transactions, Replay(EMPTY, log).transactions;
      forall i | LiveAt(log, i) ensures log[i].item.tid in after {
        if i < n { assert LiveAt(init, i); }
      }
      forall t | t in after ensures Tracks(log, t, after[t]) {
        if !e.IsWriteBy(t) {
          TracksOther(init, e, t, before[t]);
        } else if t in before {
          TracksNext(init, e, t, before[t]);
        } else {
          assert forall j :: LiveBy(init, j, t) ==> LiveAt(init, j);
          TracksFirst(init, e, t);
        }
      }
    }
  }

  lemma TracksOther(log: seq<Entry>, e: Entry, t: nat, ts: TransactionState)
    requires !e.IsWriteBy(t) && !e.IsCommitOf(t) && Tracks(log, t, ts)
    ensures Tracks(log + [e], t, ts)
  {
    LiveStep(log, e, t);
    var i :| LastLive(log, i, t) && log[i].index == ts.lastIndex;
    assert LastLive(log + [e], i, t);
    var k :| FirstLive(log, k, t) && log[k].index.generation == ts.firstGen;
    assert FirstLive(log + [e], k, t);
  }

  lemma TracksNext(log: seq<Entry>, e: Entry, t: nat, ts: TransactionState)
    requires e.IsWriteBy(t) && Tracks(log, t, ts)
    ensures Tracks(log + [e], t, ts.(lastIndex := e.index))
  {
    LiveStep(log, e, t);
    assert LastLive(log + [e], |log|, t);
    var k :| FirstLive(log, k, t) && log[k].index.generation == ts.firstGen;
    assert FirstLive(log + [e], k, t);
  }

  lemma TracksFirst(log: seq<Entry>, e: Entry, t: nat)
    requires e.IsWriteBy(t) && forall j :: !LiveBy(log, j, t)
    ensures Tracks(log + [e], t, TransactionState(e.index.generation, e.index))
  {
    LiveStep(log, e, t);
    assert LastLive(log + [e], |log|, t);
    assert FirstLive(log + [e], |log|, t);
  }

  lemma LiveStep(log: seq<Entry>, e: Entry, t: nat)
    requires !e.IsCommitOf(t)
    ensures forall i :: 0 <= i < |log| ==> (LiveBy(log + [e], i, t) <==> LiveBy(log, i, t))
  {
    var next := log + [e];
    forall i | 0 <= i < |log| ensures LiveBy(next, i, t) <==> LiveBy(log, i, t) {
      assert next[i] == log[i];
      if LiveBy(next, i, t) {
        forall j | i < j < |log| ensures !log[j].IsCommitOf(t) { assert next[j] == log[j]; }
      }
    }
  }

  // ----- fuzzy checkpoints -----

  ghost predicate InGeneration(log: seq<Entry>, gen: nat) {
    forall i :: 0 <= i < |log| ==> log[i].index.generation == gen
  }

  ghost predicate Completes(log: seq<Entry>, t: nat) {
    exists i :: 0 <= i < |log| && log[i].IsCommitOf(t)
  }

  ghost predicate Writes(log: seq<Entry>, t: nat) {
    exists i :: 0 <= i < |log| && log[i].IsWriteBy(t)
  }

  /** What a stretch of one generation makes of transaction `t`, from any two starting tables: nothing if it does not
      mention `t`, the same if it completes `t`, and otherwise it keeps the first generation of a known transaction. */
  lemma {:induction false} StretchEffect(t: nat, gen: nat, log: seq<Entry>, x: Tables, y: Tables)
    requires InGeneration(log, gen)
    ensures var x', y' := Replay(x, log).transactions, Replay(y, log).transactions;
            && (Completes(log, t) ==> (t in x' <==> t in y') && (t in x' ==> x'[t] == y'[t]))
            && (!Completes(log, t) && Writes(log, t) ==>
                  && t in x' && t in y' && x'[t].lastIndex == y'[t].lastIndex
                  && x'[t].firstGen == if t in x.transactions then x.transactions[t].firstGen else gen)
            && (!Completes(log, t) && !Writes(log, t) ==>
                  && (t in x' <==> t in x.transactions) && (t in x' ==> x'[t] == x.transactions[t]))
  {
    if log != [] {
      var n := |log| - 1;
      var init, e := log[..n], log[n];
      StretchEffect(t, gen, init, x, y);
      assert e.IsCommitOf(t) ==> Completes(log, t);
      assert e.IsWriteBy(t) ==> Writes(log, t);
      if Completes(init, t) {
        var i :| 0 <= i < |init| && init[i].IsCommitOf(t);
        assert log[i].IsCommitOf(t);
      } else if Completes(log, t) {
        assert e.IsCommitOf(t);
      }
      if Writes(init, t) {
        var i :| 0 <= i < |init| && init[i].IsWriteBy(t);
        assert log[i].IsWriteBy(t);
      } else if Writes(log, t) {
        assert e.IsWriteBy(t);
      }
    }
  }

  /** Replaying once more what a table already reflects changes nothing: the writes that a fuzzy checkpoint finds
      before itself in its own generation may be replayed on top of the checkpoint. */
  lemma {:induction false} ReplayIsIdempotent(start: Tables, gen: nat, log: seq<Entry>)
    requires InGeneration(log, gen)
    ensures Replay(Replay(start, log), log) == Replay(start, log)
  {
    var once := Replay(start, log);
    var twice := Replay(once, log);
    forall t ensures (t in twice.transactions <==> t in once.transactions)
                     && (t in once.transactions ==> twice.transactions[t] == once.transactions[t])
    {
      StretchEffect(t, gen, log, start, once);
      StretchEffect(t, gen, log, once, start);
    }
    assert twice.transactions == once.transactions;
    DirtyGrows(start, log);
    DirtyComplete(once, log);
  }

  lemma {:induction false} DirtyGrows(start: Tables, log: seq<Entry>)
    ensures forall p :: p in start.dirtyPages ==>
                          p in Replay(start, log).dirtyPages && Replay(start, log).dirtyPages[p] == start.dirtyPages[p]
    ensures forall i :: 0 <= i < |log| && log[i].item.Write? ==> log[i].item.page in Replay(start, log).dirtyPages
  {
    if log != [] { DirtyGrows(start, log[..|log| - 1]); }
  }

  lemma {:induction false} DirtyComplete(start: Tables, log: seq<Entry>)
    requires forall i :: 0 <= i < |log| && log[i].item.Write? ==> log[i].item.page in start.dirtyPages
    ensures Replay(start, log).dirtyPages == start.dirtyPages
  {
    if log != [] { DirtyComplete(start, log[..|log| - 1]); }
  }

  /** The tables a recovery starts from: the first checkpoint of a generation, or nothing. */
  function Snapshot(log: seq<Entry>): Tables {
    if log == [] then EMPTY
    else if log[0].item.Checkpoint? then Tables(log[0].item.dirtyPages, log[0].item.transactions)
    else Snapshot(log[1..])
  }

  /** The tables a recovery rebuilds from one generation's file. */
  function Recovered(log: seq<Entry>): Tables {
    Replay(Snapshot(log), log)
  }

  predicate HasCheckpoint(log: seq<Entry>) {
    exists i :: 0 <= i < |log| && log[i].item.Checkpoint?
  }

  lemma {:induction false} SnapshotOfFirst(before: seq<Entry>, e: Entry, after: seq<Entry>)
    requires e.item.Checkpoint? && !HasCheckpoint(before)
    ensures Snapshot(before + [e] + after) == Tables(e.item.dirtyPages, e.item.transactions)
  {
    var log := before + [e] + after;
    if before != [] {
      assert log[1..] == before[1..] + [e] + after;
      assert !before[0].item.Checkpoint?;
      assert forall i :: 0 <= i < |before[1..]| ==> before[1..][i] == before[i + 1];
      SnapshotOfFirst(before[1..], e, after);
    }
  }

  lemma {:induction false} SnapshotIsStable(log: seq<Entry>, after: seq<Entry>)
    requires HasCheckpoint(log)
    ensures Snapshot(log + after) == Snapshot(log) && HasCheckpoint(log + after)
  {
    assert HasCheckpoint(log + after) by {
      var i :| 0 <= i < |log| && log[i].item.Checkpoint?;
      assert (log + after)[i].item.Checkpoint?;
    }
    if !log[0].item.Checkpoint? {
      assert HasCheckpoint(log[1..]) by {
        var i :| 0 <= i < |log| && log[i].item.Checkpoint?;
        assert log[1..][i - 1].item.Checkpoint?;
      }
      assert (log + after)[1..] == log[1..] + after;
      SnapshotIsStable(log[1..], after);
    }
  }

  /** Fuzzy checkpoint replay is exact. A generation starts with the tables `start`; `before` is logged, then the
      first checkpoint `e` with the tables as they stand, then `after`. A recovery that starts from that checkpoint
      and replays the whole generation, `before` included, rebuilds precisely the tables that were lost. */
  lemma FuzzyCheckpointIsExact(start: Tables, gen: nat, before: seq<Entry>, e: Entry, after: seq<Entry>)
    requires InGeneration(before, gen) && !HasCheckpoint(before)
    requires e.item.Checkpoint? && Tables(e.item.dirtyPages, e.item.transactions) == Replay(start, before)
    ensures Recovered(before + [e] + after) == Replay(start, before + [e] + after)
  {
    SnapshotOfFirst(before, e, after);
    var live := Replay(start, before);
    assert before + [e] + after == before + ([e] + after);
    ReplayConcat(start, before, [e] + after);
    ReplayConcat(live, before, [e] + after);
    ReplayIsIdempotent(start, gen, before);
  }

  /** Without a checkpoint in its generation, a recovery rebuilds the transaction table precisely when every
      transaction that was unfinished at the start of the generation completes within it. */
  lemma NoCheckpointIsExactIff(start: Tables, gen: nat, log: seq<Entry>)
    requires InGeneration(log, gen) && !HasCheckpoint(log)
    requires forall t :: t in start.transactions ==> start.transactions[t].firstGen != gen
    ensures Recovered(log).transactions == Replay(start, log).transactions
       <==> forall t :: t in start.transactions ==> Completes(log, t)
  {
    NoSnapshot(log);
    var rebuilt, live := Replay(EMPTY, log).transactions, Replay(start, log).transactions;
    forall t
      ensures (t in rebuilt <==> t in live) && (t in live ==> rebuilt[t] == live[t]) <==>
              t !in start.transactions || Completes(log, t)
    {
      StretchEffect(t, gen, log, EMPTY, start);
      StretchEffect(t, gen, log, start, EMPTY);
    }
    if forall t :: t in start.transactions ==> Completes(log, t) { assert rebuilt == live; }
  }

  lemma {:induction false} NoSnapshot(log: seq<Entry>)
    requires !HasCheckpoint(log)
    ensures Snapshot(log) == EMPTY
  {
    if log != [] {
      assert !log[0].item.Checkpoint?;
      assert forall i :: 0 <= i < |log[1..]| ==> log[1..][i] == log[i + 1];
      NoSnapshot(log[1..]);
    }
  }
}
