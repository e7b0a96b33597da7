/** When an undo rolls back. */
module Rollback {
  // The scan for writes to undo ends at the least of the losers' last indices, so the earlier writes of a transaction
  // that has written more than once can lie outside it.

  import opened Bytes
  import opened WalTypes
  import opened Tables
  import opened History
  import opened WalModel
  import opened Engine
  import opened Invariant
  import opened UndoSteps
  import opened Atomicity

  /** What the page store keeps of its log, in every run. */
  ghost predicate WellFormed(base: PageAddress -> seq<byte>, log: seq<Entry>, start: nat) {
    && Ascending(log) && Consistent(base, log) && LocksHeld(log) && LiveHaveImages(log) && NoReuse(log, start)
    && forall i :: LiveAt(log, i) ==> start <= i
  }

  /** In every run of the page store, its history is such a log. */
  lemma HistoryIsWellFormed(disk: map<PageAddress, seq<byte>>, steps: seq<Step>)
    requires WellSized(disk) && CanRun(Start(disk), steps)
    ensures var r := After(Start(disk), steps); WellFormed(r.base, HistoryOf(r), r.sessionStart)
  {
    StartKeeps(disk);
    EveryRunKeeps(Start(disk), steps);
  }

  /** The compensations of an undo of `tids`. */
  function Plan(log: seq<Entry>, tids: seq<nat>): seq<Compensation> {
    match LowestIndex(Unfinished(log), tids)
    case None => []
    case Some(bound) => Compensations(log, AsSet(tids), bound)
  }

  /** The undo of `tids` leaves nothing of their writes on the pages that only they are changing. */
  ghost predicate RollsBack(base: PageAddress -> seq<byte>, log: seq<Entry>, tids: seq<nat>) {
    forall p :: OnlyWriters(log, tids, p) ==> RollsBackAt(base, log, tids, p)
  }

  ghost predicate OnlyWriters(log: seq<Entry>, tids: seq<nat>, p: PageAddress) {
    forall i :: LiveAt(log, i) && log[i].WritesTo(p) ==> log[i].item.tid in tids
  }

  ghost predicate RollsBackAt(base: PageAddress -> seq<byte>, log: seq<Entry>, tids: seq<nat>, p: PageAddress) {
    ApplyTo(Content(base(p), log, p), Plan(log, tids), p) == Settled(base(p), log, p, {})
  }

  // ----- logs that differ only in the bytes -----

  ghost predicate SameKind(a: Entry, b: Entry) {
    && a.index == b.index
    && match (a.item, b.item)
       case (Write(t, _, p, o, from, to), Write(t', _, p', o', from', to')) =>
         t == t' && p == p' && o == o' && |to| == |to'| && (from.Some? <==> from'.Some?)
       case (Commit(t, _), Commit(t', _)) => t == t'
       case (Checkpoint(_, _), Checkpoint(_, _)) => true
       case _ => false
  }

  /** The same transactions write to the same places and complete at the same points. */
  ghost predicate SameShape(a: seq<Entry>, b: seq<Entry>) {
    |a| == |b| && forall i :: 0 <= i < |a| ==> SameKind(a[i], b[i])
  }

  lemma LiveInShape(a: seq<Entry>, b: seq<Entry>, i: int)
    requires SameShape(a, b)
    ensures LiveAt(a, i) <==> LiveAt(b, i)
  {
    assert forall j :: 0 <= j < |a| ==> SameKind(a[j], b[j]);
  }

  lemma {:induction false} UnfinishedInShape(a: seq<Entry>, b: seq<Entry>)
    requires SameShape(a, b)
    ensures Unfinished(a) == Unfinished(b)
  {
    if a != [] {
      var n := |a| - 1;
      assert SameKind(a[n], b[n]);
      UnfinishedInShape(a[..n], b[..n]);
    }
  }

  lemma ReachInShape(a: seq<Entry>, b: seq<Entry>, tids: seq<nat>)
    requires SameShape(a, b) && ScanReaches(a, tids)
    ensures ScanReaches(b, tids)
  {
    UnfinishedInShape(a, b);
    forall i | LiveAt(b, i) ensures LiveAt(a, i) && SameKind(a[i], b[i]) { LiveInShape(a, b, i); }
  }

  /** The scan that reaches every write rolls back. */
  lemma ReachingRollsBack(base: PageAddress -> seq<byte>, log: seq<Entry>, start: nat, tids: seq<nat>, p: PageAddress)
    requires WellFormed(base, log, start) && ScanReaches(log, tids) && OnlyWriters(log, tids, p)
    requires forall t :: t in tids ==> t in Unfinished(log)
    ensures RollsBackAt(base, log, tids, p)
  {
    var lowest := LowestIndex(Unfinished(log), tids);
    if lowest.Some? {
      var losers := AsSet(tids);
      UndoableWritesAreLast(log, start, tids, lowest.value, p);
      UndoInvertsHistory(base, log, p, losers, lowest.value);
      forall i | 0 <= i < |log| && log[i].WritesTo(p) && log[i].item.to != []
        ensures Undoable(log[i], losers, lowest.value) <==> LiveAt(log, i) && log[i].item.tid !in {}
      {
        if Undoable(log[i], losers, lowest.value) { UndoableIsLive(log, start, tids, lowest.value, i); }
      }
      WithoutIsSettled(base(p), log, p, losers, lowest.value, {});
    } else {
      LowestIsLeast(Unfinished(log), tids);
      TransactionsAreTheLiveOnes(log);
      AllSettled(base(p), log, p, {});
    }
  }

  // ----- a log of the same shape in which a missed write shows -----

  function Fill(n: nat, b: byte): (r: seq<byte>)
    ensures |r| == n && forall i :: 0 <= i < n ==> r[i] == b
  {
    seq(n, _ => b)
  }

  /** The first `n` entries of `log`, with ones in every unfinished write and zeros in every other. */
  ghost function Marked(sizes: PageAddress -> seq<byte>, log: seq<Entry>, n: nat): (r: seq<Entry>)
    requires n <= |log|
    ensures |r| == n
  {
    if n == 0 then []
    else
      var init, e := Marked(sizes, log, n - 1), log[n - 1];
      init + [if e.item.Write? then MarkedEntry(sizes, init, e, LiveAt(log, n - 1)) else e]
  }

  ghost function MarkedEntry(sizes: PageAddress -> seq<byte>, init: seq<Entry>, e: Entry, live: bool): (r: Entry)
    requires e.item.Write?
    ensures SameKind(e, r)
  {
    var item, zeros := e.item, Fill(|sizes(e.item.page)|, 0);
    var to := Fill(|item.to|, if live then 1 else 0);
    var from :=
      if item.from.None? then None
      else if item.offset + |to| <= |zeros|
      then Some(Content(zeros, init, item.page)[item.offset..item.offset + |to|])
      else Some(to);
    Entry(e.index, Write(item.tid, item.prev, item.page, item.offset, from, to))
  }

  lemma {:induction false} MarkedPrefix(sizes: PageAddress -> seq<byte>, log: seq<Entry>, m: nat, n: nat)
    requires m <= n <= |log|
    ensures Marked(sizes, log, n)[..m] == Marked(sizes, log, m)
  {
    if m < n {
      MarkedPrefix(sizes, log, m, n - 1);
      assert Marked(sizes, log, n)[..m] == Marked(sizes, log, n - 1)[..m];
    }
  }

  lemma MarkedAt(sizes: PageAddress -> seq<byte>, log: seq<Entry>, i: nat)
    requires i < |log|
    ensures var marked := Marked(sizes, log, |log|);
            && marked[..i] == Marked(sizes, log, i)
            && marked[i] == if log[i].item.Write?
                            then MarkedEntry(sizes, Marked(sizes, log, i), log[i], LiveAt(log, i)) else log[i]
  {
    MarkedPrefix(sizes, log, i, |log|);
    MarkedPrefix(sizes, log, i + 1, |log|);
    assert Marked(sizes, log, |log|)[i] == Marked(sizes, log, |log|)[..i + 1][i];
  }

  lemma MarkedShape(sizes: PageAddress -> seq<byte>, log: seq<Entry>)
    ensures SameShape(log, Marked(sizes, log, |log|))
  {
    forall i | 0 <= i < |log| ensures SameKind(log[i], Marked(sizes, log, |log|)[i]) { MarkedAt(sizes, log, i); }
  }

  function Blank(sizes: PageAddress -> seq<byte>): PageAddress -> seq<byte> {
    p => Fill(|sizes(p)|, 0)
  }

  lemma MarkedIsConsistent(sizes: PageAddress -> seq<byte>, log: seq<Entry>)
    requires Consistent(sizes, log)
    ensures Consistent(Blank(sizes), Marked(sizes, log, |log|))
  {
    forall i | 0 <= i < |log| ensures TrueImage(Blank(sizes), Marked(sizes, log, |log|), i) {
      MarkedIsTrue(sizes, log, i);
    }
  }

  lemma MarkedIsTrue(sizes: PageAddress -> seq<byte>, log: seq<Entry>, i: nat)
    requires i < |log| && TrueImage(sizes, log, i)
    ensures TrueImage(Blank(sizes), Marked(sizes, log, |log|), i)
  {
    MarkedAt(sizes, log, i);
    if log[i].item.Write? { MarkedEntryIsTrue(sizes, Marked(sizes, log, i), log[i], LiveAt(log, i)); }
  }

  lemma MarkedEntryIsTrue(sizes: PageAddress -> seq<byte>, init: seq<Entry>, e: Entry, live: bool)
    requires e.item.Write? && e.item.offset + |e.item.to| <= |sizes(e.item.page)|
    ensures var item := MarkedEntry(sizes, init, e, live).item;
            && item.page == e.item.page && item.offset + |item.to| <= |Blank(sizes)(item.page)|
            && (item.from.Some? ==>
                  item.from.value ==
                  Content(Blank(sizes)(item.page), init, item.page)[item.offset..item.offset + |item.to|])
  {
  }

  lemma LocksInShape(log: seq<Entry>, log': seq<Entry>)
    requires SameShape(log, log') && LocksHeld(log)
    ensures LocksHeld(log')
  {
    assert forall i :: 0 <= i < |log| ==> SameKind(log[i], log'[i]);
    forall i, j | 0 <= i < j < |log'| && log'[i].item.Write? && log'[j].WritesTo(log'[i].item.page)
                  && log'[i].item.tid != log'[j].item.tid
      ensures CommittedBetween(log', i, j)
    {
      assert CommittedBetween(log, i, j);
      var k :| i < k < j && log[k].IsCommitOf(log[i].item.tid);
      assert log'[k].IsCommitOf(log'[i].item.tid);
    }
  }

  lemma SessionInShape(log: seq<Entry>, log': seq<Entry>, start: nat)
    requires SameShape(log, log') && Ascending(log) && LiveHaveImages(log) && NoReuse(log, start)
    requires forall i :: LiveAt(log, i) ==> start <= i
    ensures Ascending(log') && LiveHaveImages(log') && NoReuse(log', start)
    ensures forall i :: LiveAt(log', i) ==> start <= i
  {
    assert forall i :: 0 <= i < |log| ==> SameKind(log[i], log'[i]);
    forall i ensures LiveAt(log, i) <==> LiveAt(log', i) { LiveInShape(log, log', i); }
  }

  lemma MarkedIsWellFormed(sizes: PageAddress -> seq<byte>, log: seq<Entry>, start: nat)
    requires WellFormed(sizes, log, start)
    ensures WellFormed(Blank(sizes), Marked(sizes, log, |log|), start)
  {
    MarkedShape(sizes, log);
    MarkedIsConsistent(sizes, log);
    LocksInShape(log, Marked(sizes, log, |log|));
    SessionInShape(log, Marked(sizes, log, |log|), start);
  }

  /** Settled content is all zeros where every settled write is. */
  lemma {:induction false} SettledZeros(base: seq<byte>, log: seq<Entry>, p: PageAddress, done: set<nat>, i: nat)
    requires i < |base| && base[i] == 0
    requires forall k :: 0 <= k < |log| && log[k].WritesTo(p) && !(LiveAt(log, k) && log[k].item.tid !in done) ==>
                           forall j :: 0 <= j < |log[k].item.to| ==> log[k].item.to[j] == 0
    ensures Settled(base, log, p, done)[i] == 0
  {
    if log != [] {
      var n := |log| - 1;
      var init, e := log[..n], log[n];
      var done' := if e.item.Commit? then done + {e.item.tid} else done;
      forall k | 0 <= k < n && init[k].WritesTo(p) && !(LiveAt(init, k) && init[k].item.tid !in done')
        ensures forall j :: 0 <= j < |init[k].item.to| ==> init[k].item.to[j] == 0
      {
        assert init + [e] == log;
        LiveAfterAppend(init, e, k);
        assert log[k] == init[k];
      }
      SettledZeros(base, init, p, done', i);
    }
  }

  /** A missed write shows in what the undo leaves. */
  lemma {:induction false} MissedWriteShows(base: seq<byte>, log: seq<Entry>, p: PageAddress, losers: set<nat>,
                                            bound: WalIndex,
                                            m: nat, i: nat)
    requires m < |log| && SetsByte(log[m], p, i) && i < |base| && !Undoable(log[m], losers, bound)
    requires forall k :: m <= k < |log| && log[k].WritesTo(p) ==>
                           forall j :: 0 <= j < |log[k].item.to| ==> log[k].item.to[j] == 1
    ensures |ContentWithout(base, log, p, losers, bound)| == |base|
    ensures ContentWithout(base, log, p, losers, bound)[i] == 1
  {
    WithoutSize(base, log, p, losers, bound);
    var n := |log| - 1;
    WithoutSize(base, log[..n], p, losers, bound);
    if m < n {
      MissedWriteShows(base, log[..n], p, losers, bound, m, i);
    }
  }

  lemma {:induction false} WithoutSize(base: seq<byte>, log: seq<Entry>, p: PageAddress, losers: set<nat>,
                                       bound: WalIndex)
    ensures |ContentWithout(base, log, p, losers, bound)| == |base|
  {
    if log != [] { WithoutSize(base, log[..|log| - 1], p, losers, bound); }
  }

  /** A scan that misses a write of a loser fails to roll back for some contents of the same writes. */
  lemma MissingDoesNotRollBack(sizes: PageAddress -> seq<byte>, log: seq<Entry>, start: nat, tids: seq<nat>)
    requires WellFormed(sizes, log, start) && !ScanReaches(log, tids)
    requires forall t :: t in tids ==> t in Unfinished(log)
    ensures !RollsBack(Blank(sizes), Marked(sizes, log, |log|), tids)
  {
    var bound := LowestIndex(Unfinished(log), tids).value;
    var m :| LiveAt(log, m) && log[m].item.tid in tids && log[m].item.to != [] && log[m].index.Before(bound);
    MissedPage(sizes, log, tids, m);
    MissedAt(sizes, log, tids, bound, m);
    MarkedUndo(sizes, log, start, tids, bound, log[m].item.page);
    assert !RollsBackAt(Blank(sizes), Marked(sizes, log, |log|), tids, log[m].item.page);
  }

  lemma MarkedUndo(sizes: PageAddress -> seq<byte>, log: seq<Entry>, start: nat, tids: seq<nat>, bound: WalIndex,
                   p: PageAddress)
    requires WellFormed(sizes, log, start) && LowestIndex(Unfinished(log), tids) == Some(bound)
    requires forall t :: t in tids ==> t in Unfinished(log)
    ensures var base, marked := Blank(sizes), Marked(sizes, log, |log|);
            ApplyTo(Content(base(p), marked, p), Plan(marked, tids), p) ==
            ContentWithout(base(p), marked, p, AsSet(tids), bound)
  {
    var marked := Marked(sizes, log, |log|);
    MarkedIsWellFormed(sizes, log, start);
    MarkedShape(sizes, log);
    UnfinishedInShape(log, marked);
    UndoableWritesAreLast(marked, start, tids, bound, p);
    UndoInvertsHistory(Blank(sizes), marked, p, AsSet(tids), bound);
  }

  lemma MissedPage(sizes: PageAddress -> seq<byte>, log: seq<Entry>, tids: seq<nat>, m: int)
    requires LocksHeld(log) && LiveAt(log, m) && log[m].item.tid in tids
    ensures OnlyWriters(Marked(sizes, log, |log|), tids, log[m].item.page)
  {
    var marked := Marked(sizes, log, |log|);
    MarkedShape(sizes, log);
    forall i | LiveAt(marked, i) && marked[i].WritesTo(log[m].item.page) ensures marked[i].item.tid in tids {
      LiveInShape(log, marked, i);
      assert SameKind(log[i], marked[i]);
      OneOwner(log, i, m);
    }
  }

  lemma MissedAt(sizes: PageAddress -> seq<byte>, log: seq<Entry>, tids: seq<nat>, bound: WalIndex, m: int)
    requires Consistent(sizes, log) && LocksHeld(log)
    requires LiveAt(log, m) && log[m].item.to != [] && log[m].index.Before(bound)
    ensures var p := log[m].item.page;
            var zeros, marked := Fill(|sizes(p)|, 0), Marked(sizes, log, |log|);
            ContentWithout(zeros, marked, p, AsSet(tids), bound) != Settled(zeros, marked, p, {})
  {
    var p, i := log[m].item.page, log[m].item.offset;
    var zeros, marked := Fill(|sizes(p)|, 0), Marked(sizes, log, |log|);
    assert TrueImage(sizes, log, m);
    MarkedShape(sizes, log);
    MarkedAt(sizes, log, m);
    forall k | m <= k < |log| && marked[k].WritesTo(p)
      ensures forall j :: 0 <= j < |marked[k].item.to| ==> marked[k].item.to[j] == 1
    {
      MarkedAt(sizes, log, k);
      assert SameKind(log[k], marked[k]);
      if k > m { NotCompleted(log, m, k); assert LiveAt(log, k); }
    }
    MissedWriteShows(zeros, marked, p, AsSet(tids), bound, m, i);
    forall k | 0 <= k < |log| && marked[k].WritesTo(p) && !(LiveAt(marked, k) && marked[k].item.tid !in {})
      ensures forall j :: 0 <= j < |marked[k].item.to| ==> marked[k].item.to[j] == 0
    {
      MarkedAt(sizes, log, k);
      LiveInShape(log, marked, k);
    }
    SettledZeros(zeros, marked, p, {}, i);
  }

  /** An undo rolls back, whatever bytes the transactions wrote, precisely when every write of a loser that changes
      any byte lies at or above the least of the losers' last indices. */
  lemma UndoIsExactIff(base: PageAddress -> seq<byte>, log: seq<Entry>, start: nat, tids: seq<nat>)
    requires WellFormed(base, log, start) && forall t :: t in tids ==> t in Unfinished(log)
    ensures ScanReaches(log, tids) <==>
            forall base': PageAddress -> seq<byte>, log' :: SameShape(log, log') && WellFormed(base', log', start) ==>
                                                              RollsBack(base', log', tids)
  {
    if ScanReaches(log, tids) {
      forall base': PageAddress -> seq<byte>, log' | SameShape(log, log') && WellFormed(base', log', start)
        ensures RollsBack(base', log', tids)
      {
        ReachInShape(log, log', tids);
        UnfinishedInShape(log, log');
        forall p | OnlyWriters(log', tids, p) ensures RollsBackAt(base', log', tids, p) {
          ReachingRollsBack(base', log', start, tids, p);
        }
      }
    } else {
      MarkedShape(base, log);
      MarkedIsWellFormed(base, log, start);
      MissingDoesNotRollBack(base, log, start, tids);
    }
  }
}
