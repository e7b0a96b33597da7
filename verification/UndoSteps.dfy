/** Undo keeps the invariant, whether a transaction asks for it or a recovery. The items it logs are truthful and leave
    nothing of the undone transactions live, and its page writes touch only pages that these had locked; nothing that
    other transactions have written changes. */
module UndoSteps {
  import opened Bytes
  import opened WalTypes
  import opened Tables
  import opened History
  import opened WalModel
  import opened Engine
  import opened Invariant
  import opened Steps

  // ----- what an undo appends -----

  /** The bound of an undo is the last write of one of the losers. */
  lemma BoundIsLive(log: seq<Entry>, tids: seq<nat>, bound: WalIndex) returns (k: nat)
    requires LowestIndex(Unfinished(log), tids) == Some(bound)
    ensures LiveAt(log, k) && log[k].index == bound && log[k].item.tid in tids
  {
    LowestIsLeast(Unfinished(log), tids);
    var t :| t in tids && t in Unfinished(log) && Unfinished(log)[t].lastIndex == bound;
    TransactionsAreTheLiveOnes(log);
    assert Tracks(log, t, Unfinished(log)[t]);
    k :| LastLive(log, k, t) && log[k].index == bound;
  }

  /** The scan, which tells writes apart by transaction id alone, picks up only writes of unfinished transactions. */
  lemma UndoableIsLive(log: seq<Entry>, start: nat, tids: seq<nat>, bound: WalIndex, i: nat)
    requires Ascending(log) && NoReuse(log, start) && forall j :: LiveAt(log, j) ==> start <= j
    requires LowestIndex(Unfinished(log), tids) == Some(bound) && forall t :: t in tids ==> t in Unfinished(log)
    requires i < |log| && Undoable(log[i], AsSet(tids), bound)
    ensures LiveAt(log, i)
  {
    var k := BoundIsLive(log, tids, bound);
    AtOrAfter(log, k, i);
    LastOf(log, log[i].item.tid);
    var m :| LastLive(log, m, log[i].item.tid);
    UsedOnce(log, start, i, m);
  }

  lemma AtOrAfter(log: seq<Entry>, k: nat, i: nat)
    requires Ascending(log) && k < |log| && i < |log| && !log[i].index.Before(log[k].index)
    ensures k <= i
  {
  }

  lemma LastOf(log: seq<Entry>, t: nat)
    requires t in Unfinished(log)
    ensures exists m :: LastLive(log, m, t)
  {
    TransactionsAreTheLiveOnes(log);
    assert Tracks(log, t, Unfinished(log)[t]);
  }

  /** Where ids are not reused, every write of an unfinished transaction's id is a write of that transaction. */
  lemma UsedOnce(log: seq<Entry>, start: nat, i: nat, m: int)
    requires NoReuse(log, start) && start <= i < |log| && log[i].item.Write?
    requires LiveAt(log, m) && log[m].item.tid == log[i].item.tid
    ensures LiveAt(log, i)
  {
    forall c | i < c < |log| ensures !log[c].IsCommitOf(log[i].item.tid) {
      if c < m { assert log[c].item.Commit? ==> log[c].item.tid != log[m].item.tid; }
    }
  }

  ghost predicate AllRecorded(tail: seq<Entry>, comps: seq<Compensation>) {
    |tail| == |comps| && forall i :: 0 <= i < |tail| ==> Records(tail[i], comps[i])
  }

  ghost predicate AllCommitted(tail: seq<Entry>, tids: seq<nat>) {
    |tail| == |tids| && forall i :: 0 <= i < |tail| ==> tail[i].IsCommitOf(tids[i])
  }

  lemma UndoExtends(w: Wal, tids: seq<nat>) returns (undone: seq<Entry>, commits: seq<Entry>)
    requires QueueOk(w) && LowestIndex(w.tables.transactions, tids).Some?
    ensures Extends(w, UndoAll(w, tids), undone + commits)
    ensures AllRecorded(undone, UndoPlan(w, tids)) && AllCommitted(commits, tids)
  {
    var plan := UndoPlan(w, tids);
    undone := CompensationsExtend(w, plan);
    var w1 := LogCompensations(w, plan);
    commits := CommitsExtend(w1, tids);
    ExtendsTwice(w, w1, LogCommits(w1, tids), undone, commits);
  }

  /** Every undo record is for a page on which its transaction has an unfinished write. */
  ghost predicate UndoneIsLive(log: seq<Entry>, undone: seq<Entry>, tids: seq<nat>) {
    forall k :: 0 <= k < |undone| ==>
                  undone[k].item.Write? && undone[k].item.tid in tids
                  && OwnsPage(log, undone[k].item.tid, undone[k].item.page)
  }

  ghost predicate OwnsPage(log: seq<Entry>, t: nat, p: PageAddress) {
    exists i :: LiveAt(log, i) && log[i].item.tid == t && log[i].item.page == p
  }

  lemma PlanIsLive(log: seq<Entry>, start: nat, tids: seq<nat>, bound: WalIndex, undone: seq<Entry>)
    requires Ascending(log) && NoReuse(log, start) && forall j :: LiveAt(log, j) ==> start <= j
    requires LowestIndex(Unfinished(log), tids) == Some(bound) && forall t :: t in tids ==> t in Unfinished(log)
    requires AllRecorded(undone, Compensations(log, AsSet(tids), bound))
    ensures UndoneIsLive(log, undone, tids)
  {
    forall k | 0 <= k < |undone|
      ensures undone[k].item.Write? && undone[k].item.tid in tids
              && OwnsPage(log, undone[k].item.tid, undone[k].item.page)
    {
      var i := CompensationsComeFromTheLog(log, AsSet(tids), bound, k);
      UndoableIsLive(log, start, tids, bound, i);
      assert Records(undone[k], Inverse(log[i]));
    }
  }

  lemma PlanFits(base: PageAddress -> seq<byte>, log: seq<Entry>, losers: set<nat>, bound: WalIndex,
                 undone: seq<Entry>, k: nat)
    requires Consistent(base, log) && AllRecorded(undone, Compensations(log, losers, bound)) && k < |undone|
    ensures undone[k].item.Write? && undone[k].item.offset + |undone[k].item.to| <= |base(undone[k].item.page)|
  {
    var i := CompensationsComeFromTheLog(log, losers, bound, k);
    assert TrueImage(base, log, i);
    assert Records(undone[k], Inverse(log[i]));
  }

  /** Two transactions never own the same page. */
  lemma OneOwner(log: seq<Entry>, i: int, j: int)
    requires LocksHeld(log) && LiveAt(log, i) && LiveAt(log, j) && log[i].item.page == log[j].item.page
    ensures log[i].item.tid == log[j].item.tid
  {
    if i < j { NotCompleted(log, i, j); } else if j < i { NotCompleted(log, j, i); }
  }

  lemma NotCompleted(log: seq<Entry>, i: int, j: int)
    requires LiveAt(log, i) && i < j < |log|
    ensures !CommittedBetween(log, i, j)
  {
  }

  lemma LocksHeldUndo(log: seq<Entry>, undone: seq<Entry>, commits: seq<Entry>, tids: seq<nat>)
    requires LocksHeld(log) && UndoneIsLive(log, undone, tids) && AllCommitted(commits, tids)
    ensures LocksHeld(log + (undone + commits))
  {
    var next := log + (undone + commits);
    TailItems(log, undone, commits, tids);
    forall i, j | 0 <= i < j < |next| && next[i].item.Write? && next[j].WritesTo(next[i].item.page)
                  && next[i].item.tid != next[j].item.tid
      ensures CommittedBetween(next, i, j)
    {
      if j < |log| {
        assert CommittedBetween(log, i, j);
        var k :| i < k < j && log[k].IsCommitOf(log[i].item.tid);
        assert next[k].IsCommitOf(next[i].item.tid);
      } else {
        assert next[j] == undone[j - |log|];
        var m :| LiveAt(log, m) && log[m].item.tid == next[j].item.tid && log[m].item.page == next[j].item.page;
        if i < |log| {
          EarlierIsCommitted(log, i, m);
          var k :| i < k < |log| && log[k].IsCommitOf(log[i].item.tid);
          assert next[k].IsCommitOf(next[i].item.tid);
        } else {
          assert next[i] == undone[i - |log|];
          var n :| LiveAt(log, n) && log[n].item.tid == next[i].item.tid && log[n].item.page == next[i].item.page;
          OneOwner(log, m, n);
        }
      }
    }
  }

  /** The items of the appended part: undo records, then commits. */
  lemma TailItems(log: seq<Entry>, undone: seq<Entry>, commits: seq<Entry>, tids: seq<nat>)
    requires UndoneIsLive(log, undone, tids) && AllCommitted(commits, tids)
    ensures var next := log + (undone + commits);
            && (forall j :: 0 <= j < |log| ==> next[j] == log[j])
            && (forall j :: |log| <= j < |log| + |undone| ==>
                              next[j] == undone[j - |log|] && next[j].item.Write? && next[j].item.tid in tids)
            && (forall j :: |log| + |undone| <= j < |next| ==> next[j].IsCommitOf(tids[j - |log| - |undone|]))
  {
  }

  /** A write to a page that another transaction owns by now has been committed. */
  lemma EarlierIsCommitted(log: seq<Entry>, i: nat, m: int)
    requires LocksHeld(log) && i < |log| && log[i].item.Write? && LiveAt(log, m)
    requires log[i].item.page == log[m].item.page && log[i].item.tid != log[m].item.tid
    ensures exists k :: i < k < |log| && log[k].IsCommitOf(log[i].item.tid)
  {
    if LiveAt(log, i) { OneOwner(log, i, m); }
  }

  /** After an undo, no write of the undone transactions is unfinished, and nothing else has changed. */
  lemma LiveAfterUndo(log: seq<Entry>, undone: seq<Entry>, commits: seq<Entry>, tids: seq<nat>, i: int)
    requires UndoneIsLive(log, undone, tids) && AllCommitted(commits, tids)
    ensures LiveAt(log + (undone + commits), i) <==> LiveAt(log, i) && log[i].item.tid !in tids
  {
    var next := log + (undone + commits);
    TailItems(log, undone, commits, tids);
    if LiveAt(next, i) {
      forall k | 0 <= k < |tids| ensures next[i].item.tid != tids[k] {
        assert next[|log| + |undone| + k].IsCommitOf(tids[k]);
      }
      if i < |log| { LiveInPrefix(log, undone + commits, i); }
    }
  }

  /** `r'` is `r` after its log undid `tids`. */
  ghost predicate Undoes(r: Run, r': Run, tids: seq<nat>) {
    && QueueOk(r.engine.wal) && LowestIndex(r.engine.wal.tables.transactions, tids).Some?
    && LowestIndex(r.engine.wal.tables.transactions, tids) == LowestIndex(Unfinished(HistoryOf(r)), tids)
    && (forall t :: t in tids ==> t in Unfinished(HistoryOf(r)))
    && r'.engine.wal == UndoAll(r.engine.wal, tids)
    && r'.archived == r.archived && r'.base == r.base
    && NoReuse(HistoryOf(r), r.sessionStart) && (forall i :: LiveAt(HistoryOf(r), i) ==> r.sessionStart <= i)
    && (forall i :: 0 <= i < |r.archived| ==> !LiveAt(HistoryOf(r), i))
  }

  /** The undo scan reads the retained generations only; it misses nothing that was deleted. */
  lemma {:induction false} ScanOfRetained(older: seq<Entry>, retained: seq<Entry>, losers: set<nat>, k: nat)
    requires Ascending(older + retained) && k < |retained|
    ensures Compensations(older + retained, losers, retained[k].index) ==
            Compensations(retained, losers, retained[k].index)
  {
    var n := |retained| - 1;
    LastOfTwo(older, retained);
    if k == n {
      ScanStopsBelow(older, retained[..n], retained[n], losers);
    } else {
      assert retained[..n][k] == retained[k];
      ScanOfRetained(older, retained[..n], losers, k);
    }
  }

  lemma LastOfTwo(older: seq<Entry>, retained: seq<Entry>)
    requires Ascending(older + retained) && retained != []
    ensures var log, n := older + retained, |retained| - 1;
            && log[|log| - 1] == retained[n] && log[..|log| - 1] == older + retained[..n]
            && Ascending(older + retained[..n])
            && retained[..n] + [retained[n]] == retained
            && forall k :: 0 <= k < n ==> retained[k].index.Before(retained[n].index)
  {
    var log, n := older + retained, |retained| - 1;
    assert forall i :: 0 <= i < |log| - 1 ==> (older + retained[..n])[i] == log[i];
    assert forall k :: 0 <= k <= n ==> retained[k] == log[|older| + k];
  }

  lemma ScanFrom(older: seq<Entry>, retained: seq<Entry>, losers: set<nat>, bound: WalIndex, k: nat)
    requires Ascending(older + retained) && |older| <= k < |older + retained| && (older + retained)[k].index == bound
    ensures Compensations(older + retained, losers, bound) == Compensations(retained, losers, bound)
  {
    assert (older + retained)[k] == retained[k - |older|];
    ScanOfRetained(older, retained, losers, k - |older|);
  }

  lemma ScanStopsBelow(older: seq<Entry>, init: seq<Entry>, e: Entry, losers: set<nat>)
    requires Ascending(older + (init + [e]))
    ensures Compensations(older + init, losers, e.index) == [] && Compensations(init, losers, e.index) == []
  {
    var log := older + (init + [e]);
    assert forall i :: 0 <= i < |older + init| ==> (older + init)[i] == log[i];
    assert log[|log| - 1] == e;
    assert forall i :: 0 <= i < |init| ==> init[i] == log[|older| + i];
    ScanStops(older + init, losers, e.index);
    ScanStops(init, losers, e.index);
  }

  lemma ScanStops(log: seq<Entry>, losers: set<nat>, bound: WalIndex)
    requires forall i :: 0 <= i < |log| ==> log[i].index.Before(bound)
    ensures Compensations(log, losers, bound) == []
  {
  }

  lemma PlanIsForHistory(r: Run, r': Run, tids: seq<nat>)
    requires LogInv(r) && Undoes(r, r', tids)
    ensures UndoPlan(r.engine.wal, tids)
         == Compensations(HistoryOf(r), AsSet(tids), LowestIndex(Unfinished(HistoryOf(r)), tids).value)
  {
    var bound := LowestIndex(Unfinished(HistoryOf(r)), tids).value;
    var k := BoundIsLive(HistoryOf(r), tids, bound);
    ScanFrom(r.archived, Flatten(r.engine.wal.gens), AsSet(tids), bound, k);
  }

  lemma UndoAppends(r: Run, r': Run, tids: seq<nat>) returns (undone: seq<Entry>, commits: seq<Entry>)
    requires LogInv(r) && Undoes(r, r', tids)
    ensures Extends(r.engine.wal, r'.engine.wal, undone + commits)
    ensures HistoryOf(r') == HistoryOf(r) + (undone + commits)
    ensures AllRecorded(undone, UndoPlan(r.engine.wal, tids)) && AllCommitted(commits, tids)
    ensures UndoneIsLive(HistoryOf(r), undone, tids)
  {
    undone, commits := UndoExtends(r.engine.wal, tids);
    HistoryExtends(r, r', undone + commits);
    PlanIsForHistory(r, r', tids);
    PlanIsLive(HistoryOf(r), r.sessionStart, tids, LowestIndex(Unfinished(HistoryOf(r)), tids).value, undone);
  }

  /** The items an undo logs are truthful, and leave nothing live. */
  lemma UndoTailIsTrue(r: Run, r': Run, tids: seq<nat>, undone: seq<Entry>, commits: seq<Entry>, i: int)
    requires LogInv(r) && Undoes(r, r', tids)
    requires Extends(r.engine.wal, r'.engine.wal, undone + commits)
    requires AllRecorded(undone, UndoPlan(r.engine.wal, tids)) && AllCommitted(commits, tids)
    requires UndoneIsLive(HistoryOf(r), undone, tids)
    requires |HistoryOf(r)| <= i < |HistoryOf(r)| + |undone + commits|
    ensures TrueImage(r.base, HistoryOf(r) + (undone + commits), i)
  {
    if i < |HistoryOf(r)| + |undone| {
      UndoneIsTrue(r, r', tids, undone, commits, i - |HistoryOf(r)|);
    } else {
      CommitIsTrue(r.base, HistoryOf(r), undone, commits, tids, i);
    }
  }

  lemma CommitIsTrue(base: PageAddress -> seq<byte>, log: seq<Entry>, undone: seq<Entry>, commits: seq<Entry>,
                     tids: seq<nat>, i: nat)
    requires AllCommitted(commits, tids) && |log| + |undone| <= i < |log + (undone + commits)|
    ensures TrueImage(base, log + (undone + commits), i)
  {
    assert (log + (undone + commits))[i] == commits[i - |log| - |undone|];
    assert commits[i - |log| - |undone|].IsCommitOf(tids[i - |log| - |undone|]);
  }

  lemma UndoneIsTrue(r: Run, r': Run, tids: seq<nat>, undone: seq<Entry>, commits: seq<Entry>, k: nat)
    requires LogInv(r) && Undoes(r, r', tids) && AllRecorded(undone, UndoPlan(r.engine.wal, tids)) && k < |undone|
    ensures TrueImage(r.base, HistoryOf(r) + (undone + commits), |HistoryOf(r)| + k)
  {
    var log := HistoryOf(r);
    PlanIsForHistory(r, r', tids);
    PlanFits(r.base, log, AsSet(tids), LowestIndex(Unfinished(log), tids).value, undone, k);
    assert (log + (undone + commits))[|log| + k] == undone[k] && Records(undone[k], UndoPlan(r.engine.wal, tids)[k]);
  }

  lemma UndoKeepsLog(r: Run, r': Run, tids: seq<nat>, undone: seq<Entry>, commits: seq<Entry>)
    requires LogInv(r) && Undoes(r, r', tids)
    requires Extends(r.engine.wal, r'.engine.wal, undone + commits)
    requires AllRecorded(undone, UndoPlan(r.engine.wal, tids)) && AllCommitted(commits, tids)
    requires UndoneIsLive(HistoryOf(r), undone, tids)
    ensures LogInv(r') && HistoryOf(r') == HistoryOf(r) + (undone + commits)
    ensures forall i :: LiveAt(HistoryOf(r'), i) <==> LiveAt(HistoryOf(r), i) && HistoryOf(r)[i].item.tid !in tids
  {
    HistoryExtends(r, r', undone + commits);
    forall i ensures LiveAt(HistoryOf(r'), i) <==> LiveAt(HistoryOf(r), i) && HistoryOf(r)[i].item.tid !in tids {
      LiveAfterUndo(HistoryOf(r), undone, commits, tids, i);
    }
    var log, tail := HistoryOf(r), undone + commits;
    forall i | |log| <= i < |log + tail| ensures TrueImage(r.base, log + tail, i) && !LiveAt(log + tail, i) {
      UndoTailIsTrue(r, r', tids, undone, commits, i);
      LiveAfterUndo(log, undone, commits, tids, i);
    }
    LocksHeldUndo(log, undone, commits, tids);
    LogInvAppend(r, r', tail);
  }

  // ----- what an undo does to the pages -----

  ghost predicate OpIs(op: PartialWriteOp, e: Entry) {
    e.item.Write? && op.page == e.item.page && op.offset == e.item.offset && op.buf == e.item.to
  }

  ghost predicate OpsAre(ops: seq<PartialWriteOp>, log: seq<Entry>) {
    |ops| == |log| && forall i :: 0 <= i < |ops| ==> OpIs(ops[i], log[i])
  }

  lemma {:induction false} CacheWriteAllIs(pages: Pages, ops: seq<PartialWriteOp>, log: seq<Entry>, p: PageAddress)
    requires OpsAre(ops, log)
    ensures View(CacheWriteAll(pages, ops), p) == Content(View(pages, p), log, p)
    ensures CacheWriteAll(pages, ops).disk == pages.disk
  {
    if ops != [] {
      var n := |ops| - 1;
      assert OpIs(ops[n], log[n]);
      CacheWriteAllIs(pages, ops[..n], log[..n], p);
    }
  }

  lemma {:induction false} WriteThroughAllIs(pages: Pages, ops: seq<PartialWriteOp>, log: seq<Entry>, p: PageAddress)
    requires OpsAre(ops, log)
    ensures View(WriteThroughAll(pages, ops), p) == Content(View(pages, p), log, p)
    ensures View(pages, p) == OnDisk(pages, p) ==>
              View(WriteThroughAll(pages, ops), p) == OnDisk(WriteThroughAll(pages, ops), p)
  {
    if ops != [] {
      var n := |ops| - 1;
      assert OpIs(ops[n], log[n]);
      WriteThroughAllIs(pages, ops[..n], log[..n], p);
    }
  }

  lemma {:induction false} WriteThroughConcat(pages: Pages, a: seq<PartialWriteOp>, b: seq<PartialWriteOp>)
    ensures WriteThroughAll(pages, a + b) == WriteThroughAll(WriteThroughAll(pages, a), b)
  {
    if b == [] {
      assert a + b == a;
    } else {
      var n := |b| - 1;
      WriteThroughConcat(pages, a, b[..n]);
      assert (a + b)[..|a + b| - 1] == a + b[..n] && (a + b)[|a + b| - 1] == b[n];
    }
  }

  lemma {:induction false} UndoOpsAre(w: Wal, comps: seq<Compensation>, undone: seq<Entry>)
    requires w.gens != [] && AllRecorded(undone, comps)
    ensures OpsAre(UndoOps(w, comps), undone)
  {
    if comps != [] {
      var n := |comps| - 1;
      assert AllRecorded(undone[..n], comps[..n]) by {
        assert forall i :: 0 <= i < n ==> Records(undone[i], comps[i]);
      }
      UndoOpsAre(w, comps[..n], undone[..n]);
      assert Records(undone[n], comps[n]);
    }
  }

  lemma CommitsWriteNothing(base: seq<byte>, log: seq<Entry>, undone: seq<Entry>, commits: seq<Entry>, tids: seq<nat>,
                            p: PageAddress)
    requires AllCommitted(commits, tids)
    ensures Content(base, log + (undone + commits), p) == Content(Content(base, log, p), undone, p)
  {
    ContentConcat(base, log, undone + commits, p);
    ContentConcat(Content(base, log, p), undone, commits, p);
    ContentUntouched(Content(Content(base, log, p), undone, p), commits, p);
  }

  // ----- the undo step -----

  lemma UndoneSession(r: Run, t: nat, undone: seq<Entry>, commits: seq<Entry>)
    requires SessionInv(r) && r.engine.running && t in r.engine.active
    requires UndoneIsLive(HistoryOf(r), undone, [t]) && AllCommitted(commits, [t])
    ensures NoReuse(HistoryOf(r) + (undone + commits), r.sessionStart)
  {
    var log := HistoryOf(r);
    var next := log + (undone + commits);
    TailItems(log, undone, commits, [t]);
  }

  lemma UndoKeepsPages(r: Run, r': Run, t: nat, undone: seq<Entry>, commits: seq<Entry>)
    requires PageInv(r) && r.engine.wal.gens != [] && r' == Next(r, UndoTransaction(t)) && r.engine.running
    requires AllRecorded(undone, UndoPlan(r.engine.wal, [t])) && AllCommitted(commits, [t])
    requires HistoryOf(r') == HistoryOf(r) + (undone + commits)
    ensures PageInv(r') && r'.engine.pages.disk == r.engine.pages.disk
    ensures forall p :: View(r'.engine.pages, p) == Content(View(r.engine.pages, p), undone, p)
  {
    forall p
      ensures View(r'.engine.pages, p) == Content(View(r.engine.pages, p), undone, p)
      ensures View(r'.engine.pages, p) == Content(r.base(p), HistoryOf(r'), p)
      ensures r'.engine.pages.disk == r.engine.pages.disk
    {
      UndoKeepsPage(r, r', t, undone, commits, p);
    }
    UndoKeepsPage(r, r', t, undone, commits, PageAddress(0, 0));
    SizesStay(r, r');
  }

  lemma UndoKeepsPage(r: Run, r': Run, t: nat, undone: seq<Entry>, commits: seq<Entry>, p: PageAddress)
    requires r.engine.wal.gens != [] && r' == Next(r, UndoTransaction(t))
    requires View(r.engine.pages, p) == Content(r.base(p), HistoryOf(r), p)
    requires AllRecorded(undone, UndoPlan(r.engine.wal, [t])) && AllCommitted(commits, [t])
    requires HistoryOf(r') == HistoryOf(r) + (undone + commits)
    ensures r'.engine.pages.disk == r.engine.pages.disk
    ensures View(r'.engine.pages, p) == Content(View(r.engine.pages, p), undone, p)
    ensures View(r'.engine.pages, p) == Content(r.base(p), HistoryOf(r'), p)
  {
    var plan := UndoPlan(r.engine.wal, [t]);
    UndoOpsAre(r.engine.wal, plan, undone);
    CacheWriteAllIs(r.engine.pages, UndoOps(r.engine.wal, plan), undone, p);
    CommitsWriteNothing(r.base(p), HistoryOf(r), undone, commits, [t], p);
  }

  lemma SizesStay(r: Run, r': Run)
    requires PageInv(r) && r'.base == r.base && r'.engine.running
    requires forall p :: OnDisk(r'.engine.pages, p) == OnDisk(r.engine.pages, p)
    requires forall p :: View(r'.engine.pages, p) == Content(r.base(p), HistoryOf(r'), p)
    ensures PageInv(r')
  {
  }

  lemma UndoKeepsRest(r: Run, r': Run, t: nat, undone: seq<Entry>, commits: seq<Entry>)
    requires LockInv(r) && SessionInv(r) && r.engine.wal.gens != [] && r' == Next(r, UndoTransaction(t))
    requires r.engine.running && t in r.engine.active
    requires HistoryOf(r') == HistoryOf(r) + (undone + commits)
    requires UndoneIsLive(HistoryOf(r), undone, [t]) && AllCommitted(commits, [t])
    ensures LockInv(r') && SessionInv(r')
  {
    UndoneSession(r, t, undone, commits);
    var log, log' := HistoryOf(r), HistoryOf(r');
    forall i ensures LiveAt(log', i) <==> LiveAt(log, i) && log[i].item.tid != t {
      LiveAfterUndo(log, undone, commits, [t], i);
    }
    TailItems(log, undone, commits, [t]);
    assert forall i :: |log| <= i < |log'| && log'[i].item.Commit? ==> log'[i].item.tid == t;
  }

  lemma NothingToUndo(r: Run, t: nat)
    requires Inv(r) && Enabled(r, UndoTransaction(t)) && t !in r.engine.wal.tables.transactions
    ensures Inv(Next(r, UndoTransaction(t)))
    ensures Next(r, UndoTransaction(t)).engine.wal == r.engine.wal
            && Next(r, UndoTransaction(t)).engine.pages == r.engine.pages
  {
    LowestIsLeast(r.engine.wal.tables.transactions, [t]);
    var r' := Next(r, UndoTransaction(t));
    SameLogKeeps(r, r');
    TransactionsAreTheLiveOnes(HistoryOf(r));
    assert LockInv(r') && SessionInv(r') && PageInv(r');
  }

  lemma UndoIsUndoes(r: Run, t: nat)
    requires Inv(r) && Enabled(r, UndoTransaction(t)) && t in r.engine.wal.tables.transactions
    ensures Undoes(r, Next(r, UndoTransaction(t)), [t])
  {
    LowestIsLeast(r.engine.wal.tables.transactions, [t]);
    assert t in [t];
  }

  lemma UndoKeeps(r: Run, t: nat)
    requires Inv(r) && Enabled(r, UndoTransaction(t))
    ensures Inv(Next(r, UndoTransaction(t)))
  {
    if t !in r.engine.wal.tables.transactions {
      NothingToUndo(r, t);
    } else {
      var r' := Next(r, UndoTransaction(t));
      UndoIsUndoes(r, t);
      var undone, commits := UndoAppends(r, r', [t]);
      UndoKeepsLog(r, r', [t], undone, commits);
      UndoKeepsPages(r, r', t, undone, commits);
      TableInvAppend(r, r', undone + commits) by { NoCheckpoints(undone, commits, UndoPlan(r.engine.wal, [t]), [t]); }
      DirtyInvAppend(r, r', undone + commits) by { NoCheckpoints(undone, commits, UndoPlan(r.engine.wal, [t]), [t]); }
      UndoKeepsRest(r, r', t, undone, commits);
    }
  }

  lemma NoCheckpoints(undone: seq<Entry>, commits: seq<Entry>, comps: seq<Compensation>, tids: seq<nat>)
    requires AllRecorded(undone, comps) && AllCommitted(commits, tids)
    ensures forall i :: 0 <= i < |undone + commits| ==> !(undone + commits)[i].item.Checkpoint?
  {
    forall i | 0 <= i < |undone + commits| ensures !(undone + commits)[i].item.Checkpoint? {
      if i < |undone| { assert Records(undone[i], comps[i]); } else {
        assert commits[i - |undone|].IsCommitOf(tids[i - |undone|]);
      }
    }
  }
}
