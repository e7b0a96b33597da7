/** Transactions are atomic. */
module Atomicity {
  // Transactions happen completely or not at all, and survive a crash once they are committed: the store is shown to
  // refine a machine that has no log, no cache and no disk.

  import opened Bytes
  import opened WalTypes
  import opened Tables
  import opened History
  import opened WalModel
  import opened Engine
  import opened Invariant
  import opened Steps
  import opened UndoSteps
  import opened RecoverSteps

  // ----- the reference machine -----

  /** The committed pages, the pages as the transactions in progress have changed them, and who has changed which.
      A page that is in neither map is as it was at the start. */
  datatype Store = Store(committed: map<PageAddress, seq<byte>>, working: map<PageAddress, seq<byte>>,
                         owner: map<PageAddress, nat>)

  function Committed(base: PageAddress -> seq<byte>, s: Store, p: PageAddress): seq<byte> {
    if p in s.committed then s.committed[p] else base(p)
  }

  function Working(base: PageAddress -> seq<byte>, s: Store, p: PageAddress): seq<byte> {
    if p in s.working then s.working[p] else base(p)
  }

  predicate Owns(s: Store, t: nat, p: PageAddress) {
    p in s.owner && s.owner[p] == t
  }

  /** A commit publishes a transaction's pages; an undo restores them; a crash restores every unpublished page. */
  function StoreStep(base: PageAddress -> seq<byte>, s: Store, step: Step): Store {
    match step
    case WritePage(t, p, offset, buf) =>
      s.(working := s.working[p := Overlay(Working(base, s, p), offset, buf)], owner := s.owner[p := t])
    case CommitTransaction(t) =>
      Store(map p | p in s.committed.Keys + s.owner.Keys ::
              if Owns(s, t, p) then Working(base, s, p) else Committed(base, s, p),
            s.working, Unlock(s.owner, t))
    case UndoTransaction(t) =>
      Store(s.committed,
            map p | p in s.working.Keys + s.owner.Keys ::
              if Owns(s, t, p) then Committed(base, s, p) else Working(base, s, p),
            Unlock(s.owner, t))
    case Crash => Store(s.committed, s.committed, map[])
    case CrashInRedo(_) => s
    case Begin => s
    case RotateLog => s
    case LogCheckpoint => s
    case FlushPage(_) => s
    case CacheDidFlush => s
    case Recover(_) => s
  }

  // ----- refinement -----

  /** The store's history settles to the committed pages, and while it is up its readers see the working pages. */
  ghost predicate RefinesAt(r: Run, s: Store, p: PageAddress) {
    && Committed(r.base, s, p) == Settled(r.base(p), HistoryOf(r), p, {})
    && (r.engine.running ==>
          && Working(r.base, s, p) == View(r.engine.pages, p)
          && forall t :: Owns(s, t, p) <==> OwnsPage(HistoryOf(r), t, p))
    && (!r.engine.running ==> Working(r.base, s, p) == Committed(r.base, s, p) && p !in s.owner)
  }

  ghost predicate Refines(r: Run, s: Store) {
    forall p :: RefinesAt(r, s, p)
  }

  /** The undo scan, which ends at the least of the losers' last writes, reaches every write it has to undo; a write
      of no bytes needs no undoing. */
  ghost predicate ScanReaches(log: seq<Entry>, tids: seq<nat>) {
    var lowest := LowestIndex(Unfinished(log), tids);
    lowest.Some? ==>
      forall i :: LiveAt(log, i) && log[i].item.tid in tids && log[i].item.to != [] ==>
                    !log[i].index.Before(lowest.value)
  }

  ghost predicate FullRollback(r: Run, s: Step) {
    match s
    case UndoTransaction(t) => ScanReaches(HistoryOf(r), [t])
    case Recover(tids) => ScanReaches(HistoryOf(r), tids)
    case Begin => true
    case WritePage(_, _, _, _) => true
    case CommitTransaction(_) => true
    case RotateLog => true
    case LogCheckpoint => true
    case FlushPage(_) => true
    case CacheDidFlush => true
    case Crash => true
    case CrashInRedo(_) => true
  }

  // ----- settled content under appending -----

  function CommitsIn(log: seq<Entry>): set<nat> {
    set i | 0 <= i < |log| && log[i].item.Commit? :: log[i].item.tid
  }

  lemma {:induction false} SettledAppend(base: seq<byte>, log: seq<Entry>, tail: seq<Entry>, p: PageAddress,
                                         done: set<nat>)
    requires forall i :: 0 <= i < |tail| ==> !tail[i].WritesTo(p)
    ensures Settled(base, log + tail, p, done) == Settled(base, log, p, done + CommitsIn(tail))
  {
    if tail == [] {
      assert log + tail == log && done + CommitsIn(tail) == done;
    } else {
      var n := |tail| - 1;
      var e, init := tail[n], tail[..n];
      assert (log + tail)[..|log + tail| - 1] == log + init;
      var done' := if e.item.Commit? then done + {e.item.tid} else done;
      SettledAppend(base, log, init, p, done');
      CommitsInAppend(init, e);
      assert init + [e] == tail;
      assert done' + CommitsIn(init) == done + CommitsIn(tail);
      if e.item.Write? { SettledAppend(base, log, init, p, done); }
    }
  }

  lemma CommitsInAppend(log: seq<Entry>, e: Entry)
    ensures CommitsIn(log + [e]) == CommitsIn(log) + if e.item.Commit? then {e.item.tid} else {}
  {
    var next := log + [e];
    assert next[|log|] == e && forall i :: 0 <= i < |log| ==> next[i] == log[i];
    forall t | t in CommitsIn(log) ensures t in CommitsIn(next) {
      var i :| 0 <= i < |log| && log[i].item.Commit? && log[i].item.tid == t;
      assert next[i].item.tid == t;
    }
  }

  /** Settling a transaction that has no unfinished write on a page does not change the page. */
  lemma {:induction false} SettledOnlyNeedsOwners(base: seq<byte>, log: seq<Entry>, p: PageAddress, a: set<nat>,
                                                  b: set<nat>)
    requires forall i :: LiveAt(log, i) && log[i].WritesTo(p) ==> (log[i].item.tid in a <==> log[i].item.tid in b)
    ensures Settled(base, log, p, a) == Settled(base, log, p, b)
  {
    if log != [] {
      var n := |log| - 1;
      var init, e := log[..n], log[n];
      var extra: set<nat> := if e.item.Commit? then {e.item.tid} else {};
      forall i | LiveAt(init, i) && init[i].WritesTo(p)
        ensures init[i].item.tid in a + extra <==> init[i].item.tid in b + extra
      {
        assert init + [e] == log;
        LiveAfterAppend(init, e, i);
      }
      SettledOnlyNeedsOwners(base, init, p, a + extra, b + extra);
      assert !e.item.Commit? ==> a + extra == a && b + extra == b;
      if e.WritesTo(p) { assert LiveAt(log, n); }
    }
  }

  // ----- undo restores what was settled -----

  lemma {:induction false} ApplyToIsContent(page: seq<byte>, comps: seq<Compensation>, undone: seq<Entry>,
                                            p: PageAddress)
    requires AllRecorded(undone, comps)
    ensures ApplyTo(page, comps, p) == Content(page, undone, p)
    decreases |comps|
  {
    if comps != [] {
      RecordedTail(undone, comps);
      RecordedPatch(page, undone[0], comps[0], p);
      ApplyToIsContent(Patch(page, undone[0], p), comps[1..], undone[1..], p);
      ContentFrom(page, undone, p);
    }
  }

  lemma RecordedTail(undone: seq<Entry>, comps: seq<Compensation>)
    requires AllRecorded(undone, comps) && comps != []
    ensures Records(undone[0], comps[0]) && AllRecorded(undone[1..], comps[1..])
  {
    forall i | 0 <= i < |undone[1..]| ensures Records(undone[1..][i], comps[1..][i]) {
      assert Records(undone[i + 1], comps[i + 1]);
    }
  }

  lemma RecordedPatch(page: seq<byte>, e: Entry, c: Compensation, p: PageAddress)
    requires Records(e, c)
    ensures Patch(page, e, p) == if c.page == p then Overlay(page, c.offset, c.to) else page
  {
  }

  lemma ContentFrom(page: seq<byte>, log: seq<Entry>, p: PageAddress)
    requires log != []
    ensures Content(page, log, p) == Content(Patch(page, log[0], p), log[1..], p)
  {
    assert log == [log[0]] + log[1..];
    ContentConcat(page, [log[0]], log[1..], p);
    assert [log[0]][..0] == [];
  }

  /** Without the unfinished writes, a page has its settled content. */
  lemma {:induction false} WithoutIsSettled(base: seq<byte>, log: seq<Entry>, p: PageAddress, losers: set<nat>,
                                            bound: WalIndex, done: set<nat>)
    requires forall i :: 0 <= i < |log| && log[i].WritesTo(p) && log[i].item.to != [] ==>
                           (Undoable(log[i], losers, bound) <==> LiveAt(log, i) && log[i].item.tid !in done)
    ensures ContentWithout(base, log, p, losers, bound) == Settled(base, log, p, done)
  {
    if log != [] {
      var n := |log| - 1;
      var init, e := log[..n], log[n];
      var done' := if e.item.Commit? then done + {e.item.tid} else done;
      forall i | 0 <= i < n && init[i].WritesTo(p) && init[i].item.to != []
        ensures Undoable(init[i], losers, bound) <==> LiveAt(init, i) && init[i].item.tid !in done'
      {
        assert init + [e] == log;
        LiveAfterAppend(init, e, i);
      }
      WithoutIsSettled(base, init, p, losers, bound, done');
      if e.WritesTo(p) {
        assert LiveAt(log, n);
        OverlayNothing(ContentWithout(base, init, p, losers, bound), e.item.offset, e.item.to);
      }
    }
  }

  /** The lock on a page makes the writes to be undone the last ones on it. */
  lemma UndoableWritesAreLast(log: seq<Entry>, start: nat, tids: seq<nat>, bound: WalIndex, p: PageAddress)
    requires Ascending(log) && LocksHeld(log) && LiveHaveImages(log)
    requires NoReuse(log, start) && forall j :: LiveAt(log, j) ==> start <= j
    requires LowestIndex(Unfinished(log), tids) == Some(bound) && forall t :: t in tids ==> t in Unfinished(log)
    ensures UndoableAreLast(log, p, AsSet(tids), bound)
  {
    forall i, j | 0 <= i < j < |log| && log[i].WritesTo(p) && log[j].WritesTo(p) && Undoable(log[i], AsSet(tids), bound)
      ensures Undoable(log[j], AsSet(tids), bound)
    {
      UndoableIsLive(log, start, tids, bound, i);
      NotCompleted(log, i, j);
      assert LiveAt(log, j);
      assert log[i].index.Before(log[j].index);
    }
  }

  /** An undo takes back the writes that its scan reaches, and no others. */
  lemma UndoTakesBack(base: PageAddress -> seq<byte>, log: seq<Entry>, start: nat, tids: seq<nat>, bound: WalIndex,
                      undone: seq<Entry>, p: PageAddress)
    requires Ascending(log) && Consistent(base, log) && LocksHeld(log) && LiveHaveImages(log)
    requires NoReuse(log, start) && forall j :: LiveAt(log, j) ==> start <= j
    requires LowestIndex(Unfinished(log), tids) == Some(bound) && forall t :: t in tids ==> t in Unfinished(log)
    requires AllRecorded(undone, Compensations(log, AsSet(tids), bound))
    ensures Content(Content(base(p), log, p), undone, p) == ContentWithout(base(p), log, p, AsSet(tids), bound)
  {
    UndoableWritesAreLast(log, start, tids, bound, p);
    UndoInvertsHistory(base, log, p, AsSet(tids), bound);
    ApplyToIsContent(Content(base(p), log, p), Compensations(log, AsSet(tids), bound), undone, p);
  }

  /** When the scan reaches all their writes, that leaves the settled content. */
  lemma ReachedIsSettled(base: PageAddress -> seq<byte>, log: seq<Entry>, start: nat, tids: seq<nat>, bound: WalIndex,
                         p: PageAddress)
    requires Ascending(log) && LiveHaveImages(log)
    requires NoReuse(log, start) && forall j :: LiveAt(log, j) ==> start <= j
    requires LowestIndex(Unfinished(log), tids) == Some(bound) && forall t :: t in tids ==> t in Unfinished(log)
    requires ScanReaches(log, tids) && forall i :: LiveAt(log, i) && log[i].WritesTo(p) ==> log[i].item.tid in tids
    ensures ContentWithout(base(p), log, p, AsSet(tids), bound) == Settled(base(p), log, p, {})
  {
    forall i | 0 <= i < |log| && log[i].WritesTo(p) && log[i].item.to != []
      ensures Undoable(log[i], AsSet(tids), bound) <==> LiveAt(log, i) && log[i].item.tid !in {}
    {
      if Undoable(log[i], AsSet(tids), bound) { UndoableIsLive(log, start, tids, bound, i); }
    }
    WithoutIsSettled(base(p), log, p, AsSet(tids), bound, {});
  }

  // ----- what each step does to settled and visible content -----

  lemma WriteEffect(r: Run, s: Step, p: PageAddress)
    requires Inv(r) && Enabled(r, s) && s.WritePage?
    ensures s.offset + |s.buf| <= |View(r.engine.pages, s.p)|
    ensures var r' := Next(r, s);
            && Settled(r.base(p), HistoryOf(r'), p, {}) == Settled(r.base(p), HistoryOf(r), p, {})
            && View(r'.engine.pages, p) ==
               (if p == s.p then Overlay(View(r.engine.pages, p), s.offset, s.buf) else View(r.engine.pages, p))
            && forall t :: OwnsPage(HistoryOf(r'), t, p) <==> OwnsPage(HistoryOf(r), t, p) || (t == s.t && p == s.p)
  {
    WriteFits(r, s.p);
    WriteShows(r, s, p);
    var e := WriteIsLogged(r, s);
    SettledWrite(r.base(p), HistoryOf(r), e, p);
    OwnsAfterWrite(HistoryOf(r), e, p);
  }

  lemma WriteShows(r: Run, s: Step, p: PageAddress)
    requires r.engine.wal.gens != [] && s.WritePage? && s.offset + |s.buf| <= |View(r.engine.pages, s.p)|
    ensures View(Next(r, s).engine.pages, p) ==
            if p == s.p then Overlay(View(r.engine.pages, p), s.offset, s.buf) else View(r.engine.pages, p)
  {
  }

  lemma WriteIsLogged(r: Run, s: Step) returns (e: Entry)
    requires Inv(r) && Enabled(r, s) && s.WritePage?
    ensures s.offset + |s.buf| <= |View(r.engine.pages, s.p)| && HistoryOf(Next(r, s)) == HistoryOf(r) + [e]
    ensures e.item.Write? && e.item.tid == s.t && e.item.page == s.p
  {
    WriteFits(r, s.p);
    e := WriteEntry(r, s.t, s.p, s.offset, s.buf);
    WriteLogs(r, s.t, s.p, s.offset, s.buf);
    LoggedHistory(r, Next(r, s), e);
  }

  lemma OwnsAfterWrite(log: seq<Entry>, e: Entry, p: PageAddress)
    requires e.item.Write?
    ensures forall t :: OwnsPage(log + [e], t, p) <==> OwnsPage(log, t, p) || (t == e.item.tid && p == e.item.page)
  {
    forall t ensures OwnsPage(log + [e], t, p) <==> OwnsPage(log, t, p) || (t == e.item.tid && p == e.item.page) {
      OwnsAfterAppend(log, e, t, p);
    }
  }

  lemma SettledWrite(base: seq<byte>, log: seq<Entry>, e: Entry, p: PageAddress)
    requires e.item.Write?
    ensures Settled(base, log + [e], p, {}) == Settled(base, log, p, {})
  {
    assert (log + [e])[..|log|] == log;
  }

  lemma OwnsAfterAppend(log: seq<Entry>, e: Entry, t: nat, p: PageAddress)
    ensures OwnsPage(log + [e], t, p) <==> (OwnsPage(log, t, p) && !e.IsCommitOf(t))
                                           || (e.IsWriteBy(t) && e.WritesTo(p))
  {
    var next := log + [e];
    if OwnsPage(next, t, p) {
      var i :| LiveAt(next, i) && next[i].item.tid == t && next[i].item.page == p;
      LiveAfterAppend(log, e, i);
    }
    if OwnsPage(log, t, p) && !e.IsCommitOf(t) {
      var i :| LiveAt(log, i) && log[i].item.tid == t && log[i].item.page == p;
      LiveAfterAppend(log, e, i);
      assert next[i] == log[i];
    }
    if e.IsWriteBy(t) && e.WritesTo(p) {
      LiveAfterAppend(log, e, |log|);
      assert next[|log|] == e;
    }
  }

  lemma CommitEffect(r: Run, t: nat, p: PageAddress)
    requires Inv(r) && Enabled(r, CommitTransaction(t))
    ensures var r', log := Next(r, CommitTransaction(t)), HistoryOf(r);
            && Settled(r.base(p), HistoryOf(r'), p, {}) ==
               (if OwnsPage(log, t, p) then View(r.engine.pages, p) else Settled(r.base(p), log, p, {}))
            && r'.engine.pages == r.engine.pages
            && forall u :: OwnsPage(HistoryOf(r'), u, p) <==> OwnsPage(log, u, p) && u != t
  {
    var r', log := Next(r, CommitTransaction(t)), HistoryOf(r);
    var e := Entry(NextIndex(r.engine.wal), CommitItem(r.engine.wal, t));
    LoggedHistory(r, r', e);
    forall u ensures OwnsPage(HistoryOf(r'), u, p) <==> OwnsPage(log, u, p) && u != t { OwnsAfterAppend(log, e, u, p); }
    assert Settled(r.base(p), HistoryOf(r'), p, {}) == Settled(r.base(p), log, p, {t}) by { assert {} + {t} == {t}; }
    OwnersOnPage(log, t, p);
    if OwnsPage(log, t, p) {
      AllSettled(r.base(p), log, p, {t});
    } else {
      SettledOnlyNeedsOwners(r.base(p), log, p, {t}, {});
    }
  }

  /** A page with an unfinished write of `t` has unfinished writes of `t` only. */
  lemma OwnersOnPage(log: seq<Entry>, t: nat, p: PageAddress)
    requires LocksHeld(log)
    ensures forall i :: LiveAt(log, i) && log[i].WritesTo(p) ==> (OwnsPage(log, t, p) <==> log[i].item.tid == t)
  {
    forall i | LiveAt(log, i) && log[i].WritesTo(p) ensures OwnsPage(log, t, p) <==> log[i].item.tid == t {
      if OwnsPage(log, t, p) {
        var m :| LiveAt(log, m) && log[m].item.tid == t && log[m].item.page == p;
        OneOwner(log, i, m);
      }
    }
  }

  lemma SoleOwner(log: seq<Entry>, t: nat, u: nat, p: PageAddress)
    requires LocksHeld(log) && OwnsPage(log, t, p) && OwnsPage(log, u, p)
    ensures t == u
  {
    var i :| LiveAt(log, i) && log[i].item.tid == t && log[i].item.page == p;
    var j :| LiveAt(log, j) && log[j].item.tid == u && log[j].item.page == p;
    OneOwner(log, i, j);
  }

  lemma OwnsAfterUndo(log: seq<Entry>, undone: seq<Entry>, commits: seq<Entry>, tids: seq<nat>, t: nat, p: PageAddress)
    requires UndoneIsLive(log, undone, tids) && AllCommitted(commits, tids)
    ensures OwnsPage(log + (undone + commits), t, p) <==> OwnsPage(log, t, p) && t !in tids
  {
    var next := log + (undone + commits);
    TailItems(log, undone, commits, tids);
    if OwnsPage(next, t, p) {
      var i :| LiveAt(next, i) && next[i].item.tid == t && next[i].item.page == p;
      LiveAfterUndo(log, undone, commits, tids, i);
    }
    if OwnsPage(log, t, p) && t !in tids {
      var i :| LiveAt(log, i) && log[i].item.tid == t && log[i].item.page == p;
      LiveAfterUndo(log, undone, commits, tids, i);
    }
  }

  /** What an undo of `tids` leaves of page `p`: its content without the writes that the scan reaches. */
  ghost function LeftBy(r: Run, tids: seq<nat>, p: PageAddress): seq<byte> {
    match LowestIndex(Unfinished(HistoryOf(r)), tids)
    case None => Content(r.base(p), HistoryOf(r), p)
    case Some(bound) => ContentWithout(r.base(p), HistoryOf(r), p, AsSet(tids), bound)
  }

  /** Whatever the scan reaches: an undo leaves every page as if exactly the writes that it reaches had never been, and
      what is left of a page of the transaction becomes its settled content. */
  lemma UndoLeaves(r: Run, t: nat, p: PageAddress)
    requires Inv(r) && Enabled(r, UndoTransaction(t))
    ensures var r', log := Next(r, UndoTransaction(t)), HistoryOf(r);
            && View(r'.engine.pages, p) == LeftBy(r, [t], p)
            && (!OwnsPage(log, t, p) ==> View(r'.engine.pages, p) == View(r.engine.pages, p))
            && Settled(r.base(p), HistoryOf(r'), p, {}) ==
               (if OwnsPage(log, t, p) then View(r'.engine.pages, p) else Settled(r.base(p), log, p, {}))
            && forall u :: OwnsPage(HistoryOf(r'), u, p) <==> OwnsPage(log, u, p) && u != t
  {
    LowestIsLeast(Unfinished(HistoryOf(r)), [t]);
    if t !in r.engine.wal.tables.transactions {
      NothingToUndo(r, t);
      TransactionsAreTheLiveOnes(HistoryOf(r));
    } else {
      UndoIsUndoes(r, t);
      var undone, commits := UndoAppends(r, Next(r, UndoTransaction(t)), [t]);
      UndoLeavesAt(r, t, p, undone, commits);
    }
  }

  lemma UndoLeavesAt(r: Run, t: nat, p: PageAddress, undone: seq<Entry>, commits: seq<Entry>)
    requires LogInv(r) && PageInv(r) && SessionInv(r) && r.engine.running
    requires Undoes(r, Next(r, UndoTransaction(t)), [t])
    requires HistoryOf(Next(r, UndoTransaction(t))) == HistoryOf(r) + (undone + commits)
    requires AllRecorded(undone, UndoPlan(r.engine.wal, [t])) && AllCommitted(commits, [t])
    requires UndoneIsLive(HistoryOf(r), undone, [t])
    ensures var r', log := Next(r, UndoTransaction(t)), HistoryOf(r);
            && View(r'.engine.pages, p) == LeftBy(r, [t], p)
            && (!OwnsPage(log, t, p) ==> View(r'.engine.pages, p) == View(r.engine.pages, p))
            && Settled(r.base(p), HistoryOf(r'), p, {}) ==
               (if OwnsPage(log, t, p) then View(r'.engine.pages, p) else Settled(r.base(p), log, p, {}))
            && forall u :: OwnsPage(HistoryOf(r'), u, p) <==> OwnsPage(log, u, p) && u != t
  {
    var r', log := Next(r, UndoTransaction(t)), HistoryOf(r);
    forall u ensures OwnsPage(HistoryOf(r'), u, p) <==> OwnsPage(log, u, p) && u != t {
      OwnsAfterUndo(log, undone, commits, [t], u, p);
    }
    UndoKeepsPages(r, r', t, undone, commits);
    UndoneContent(r, r', t, p, undone);
    if OwnsPage(log, t, p) {
      OwnerUndone(r, r', t, p);
    } else {
      UndoElsewhere(r, undone, commits, t, p);
    }
  }

  lemma UndoneContent(r: Run, r': Run, t: nat, p: PageAddress, undone: seq<Entry>)
    requires LogInv(r) && Undoes(r, r', [t])
    requires AllRecorded(undone, UndoPlan(r.engine.wal, [t]))
    requires View(r.engine.pages, p) == Content(r.base(p), HistoryOf(r), p)
    ensures Content(View(r.engine.pages, p), undone, p) == LeftBy(r, [t], p)
  {
    PlanIsForHistory(r, r', [t]);
    UndoTakesBack(r.base, HistoryOf(r), r.sessionStart, [t], LowestIndex(Unfinished(HistoryOf(r)), [t]).value, undone,
                  p);
  }

  /** A page that nobody owns after its owner's undo is settled. */
  lemma OwnerUndone(r: Run, r': Run, t: nat, p: PageAddress)
    requires LocksHeld(HistoryOf(r)) && PageInv(r') && r'.base == r.base && r'.engine.running
             && OwnsPage(HistoryOf(r), t, p)
    requires forall u :: OwnsPage(HistoryOf(r'), u, p) <==> OwnsPage(HistoryOf(r), u, p) && u != t
    ensures Settled(r.base(p), HistoryOf(r'), p, {}) == View(r'.engine.pages, p)
  {
    forall u ensures !OwnsPage(HistoryOf(r'), u, p) {
      if OwnsPage(HistoryOf(r), u, p) { SoleOwner(HistoryOf(r), t, u, p); }
    }
    NoOwnerIsSettled(r', p);
  }

  lemma {:induction false} WithoutOne(base: seq<byte>, log: seq<Entry>, p: PageAddress, losers: set<nat>,
                                      bound: WalIndex, m: nat)
    requires m < |log| && forall i :: 0 <= i < |log| ==> (Undoable(log[i], losers, bound) <==> i == m)
    ensures ContentWithout(base, log, p, losers, bound) == Content(base, log[..m] + log[m + 1..], p)
  {
    var n := |log| - 1;
    var init, e := log[..n], log[n];
    if m == n {
      assert log[..m] + log[m + 1..] == init;
      NothingUndone(base, init, p, losers, bound);
    } else {
      WithoutOne(base, init, p, losers, bound, m);
      assert log[..m] + log[m + 1..] == (init[..m] + init[m + 1..]) + [e];
      ContentAppend(base, init[..m] + init[m + 1..], e, p);
    }
  }

  /** Exactly one write, the last one, is what an undo of a transaction takes back. */
  lemma UndoTakesBackOneWrite(r: Run, t: nat, m: nat, p: PageAddress)
    requires Inv(r) && Enabled(r, UndoTransaction(t)) && LastLive(HistoryOf(r), m, t)
    ensures var log := HistoryOf(r);
            View(Next(r, UndoTransaction(t)).engine.pages, p) == Content(r.base(p), log[..m] + log[m + 1..], p)
  {
    var log := HistoryOf(r);
    UndoLeaves(r, t, p);
    LastIsLowest(log, t, m);
    OnlyLastIsUndoable(log, r.sessionStart, t, m);
    WithoutOne(r.base(p), log, p, AsSet([t]), log[m].index, m);
  }

  lemma LastIsLowest(log: seq<Entry>, t: nat, m: nat)
    requires LastLive(log, m, t)
    ensures LowestIndex(Unfinished(log), [t]) == Some(log[m].index) && t in Unfinished(log)
  {
    TransactionsAreTheLiveOnes(log);
    LowestIsLeast(Unfinished(log), [t]);
    assert t in [t];
    assert Tracks(log, t, Unfinished(log)[t]);
    var k :| LastLive(log, k, t) && log[k].index == Unfinished(log)[t].lastIndex;
  }

  lemma OnlyLastIsUndoable(log: seq<Entry>, start: nat, t: nat, m: nat)
    requires Ascending(log) && LiveHaveImages(log) && NoReuse(log, start) && forall j :: LiveAt(log, j) ==> start <= j
    requires LastLive(log, m, t)
    ensures forall i :: 0 <= i < |log| ==> (Undoable(log[i], AsSet([t]), log[m].index) <==> i == m)
  {
    LastIsLowest(log, t, m);
    forall i | 0 <= i < |log| ensures Undoable(log[i], AsSet([t]), log[m].index) <==> i == m {
      if Undoable(log[i], AsSet([t]), log[m].index) {
        UndoableIsLive(log, start, [t], log[m].index, i);
        assert LiveBy(log, i, t);
        AtOrAfter(log, m, i);
      }
    }
  }

  lemma UndoEffect(r: Run, t: nat, p: PageAddress)
    requires Inv(r) && Enabled(r, UndoTransaction(t)) && ScanReaches(HistoryOf(r), [t])
    ensures var r', log := Next(r, UndoTransaction(t)), HistoryOf(r);
            && Settled(r.base(p), HistoryOf(r'), p, {}) == Settled(r.base(p), log, p, {})
            && View(r'.engine.pages, p) ==
               (if OwnsPage(log, t, p) then Settled(r.base(p), log, p, {}) else View(r.engine.pages, p))
            && forall u :: OwnsPage(HistoryOf(r'), u, p) <==> OwnsPage(log, u, p) && u != t
  {
    UndoLeaves(r, t, p);
    if OwnsPage(HistoryOf(r), t, p) { LeftIsSettled(r, [t], p); }
  }

  lemma LeftIsSettled(r: Run, tids: seq<nat>, p: PageAddress)
    requires LogInv(r) && NoReuse(HistoryOf(r), r.sessionStart)
    requires forall j :: LiveAt(HistoryOf(r), j) ==> r.sessionStart <= j
    requires ScanReaches(HistoryOf(r), tids)
    requires forall t :: t in tids ==> OwnsPage(HistoryOf(r), t, p) || t in Unfinished(HistoryOf(r))
    requires forall t :: OwnsPage(HistoryOf(r), t, p) ==> t in tids
    requires tids != []
    ensures LeftBy(r, tids, p) == Settled(r.base(p), HistoryOf(r), p, {})
  {
    var log := HistoryOf(r);
    TransactionsAreTheLiveOnes(log);
    LowestIsLeast(Unfinished(log), tids);
    assert tids[0] in tids;
    LiveWritesOwn(log, p);
    ReachedIsSettled(r.base, log, r.sessionStart, tids, LowestIndex(Unfinished(log), tids).value, p);
  }

  /** A page without unfinished writes is settled. */
  lemma NoOwnerIsSettled(r: Run, p: PageAddress)
    requires forall t :: !OwnsPage(HistoryOf(r), t, p)
    ensures Settled(r.base(p), HistoryOf(r), p, {}) == Content(r.base(p), HistoryOf(r), p)
  {
    LiveWritesOwn(HistoryOf(r), p);
    AllSettled(r.base(p), HistoryOf(r), p, {});
  }

  lemma LiveWritesOwn(log: seq<Entry>, p: PageAddress)
    ensures forall i :: LiveAt(log, i) && log[i].WritesTo(p) ==> OwnsPage(log, log[i].item.tid, p)
  {
  }

  lemma UndoElsewhere(r: Run, undone: seq<Entry>, commits: seq<Entry>, t: nat, p: PageAddress)
    requires UndoneIsLive(HistoryOf(r), undone, [t]) && AllCommitted(commits, [t]) && !OwnsPage(HistoryOf(r), t, p)
    ensures Settled(r.base(p), HistoryOf(r) + (undone + commits), p, {}) == Settled(r.base(p), HistoryOf(r), p, {})
    ensures Content(View(r.engine.pages, p), undone, p) == View(r.engine.pages, p)
  {
    var log, tail := HistoryOf(r), undone + commits;
    TailItems(log, undone, commits, [t]);
    assert forall i :: 0 <= i < |tail| ==> tail[i] == (log + tail)[|log| + i];
    assert forall i :: 0 <= i < |undone| ==> undone[i] == tail[i];
    SettledAppend(r.base(p), log, tail, p, {});
    assert CommitsIn(tail) <= {t};
    forall i | LiveAt(log, i) && log[i].WritesTo(p)
      ensures log[i].item.tid in {} + CommitsIn(tail) <==> log[i].item.tid in {} {
      assert OwnsPage(log, log[i].item.tid, p);
    }
    SettledOnlyNeedsOwners(r.base(p), log, p, {} + CommitsIn(tail), {});
    ContentUntouched(View(r.engine.pages, p), undone, p);
  }

  /** Any recovery, of any store that is down: a page comes out, in memory and on disk, as if exactly the writes that
      the scan reaches had never been, if and only if redo and undo reach every byte that is not on the disk. */
  lemma RecoverLeavesIff(r: Run, tids: seq<nat>, p: PageAddress)
    requires Inv(r) && IsDown(r, tids)
    ensures var r' := Next(r, Recover(tids));
            && (View(r'.engine.pages, p) == LeftBy(r, tids, p) <==> RecoveryReaches(r, tids, p))
            && OnDisk(r'.engine.pages, p) == View(r'.engine.pages, p) && |View(r'.engine.pages, p)| == PAGE_BODY_SIZE
            && Content(r.base(p), HistoryOf(r'), p) == LeftBy(r, tids, p)
  {
    var undone, commits := RecoverAppends(r, tids);
    RecoveryIsExactIff(r, tids, p);
    CommitsWriteNothing(r.base(p), HistoryOf(r), undone, commits, tids, p);
    RecoverLeavesAt(r, tids, undone, p);
  }

  lemma RecoverLeavesAt(r: Run, tids: seq<nat>, undone: seq<Entry>, p: PageAddress)
    requires Inv(r) && IsDown(r, tids) && AllRecorded(undone, UndoPlan(Redone(r).engine.wal, tids))
    ensures Content(Content(r.base(p), HistoryOf(r), p), undone, p) == LeftBy(r, tids, p)
  {
    var m, log := Redone(r), HistoryOf(r);
    RedoneKeeps(r, tids);
    if LowestIndex(Unfinished(log), tids).Some? {
      RecoverIsUndoes(r, tids);
      PlanIsForHistory(m, Next(r, Recover(tids)), tids);
      UndoTakesBack(r.base, log, r.sessionStart, tids, LowestIndex(Unfinished(log), tids).value, undone, p);
    } else {
      assert undone == [];
    }
  }

  /** Whatever the scan reaches: a recovery that can restore what is logged leaves every page, in memory and on disk, as
      if exactly the writes that its scan reaches had never been, and nothing unfinished. */
  lemma RecoverLeaves(r: Run, tids: seq<nat>, p: PageAddress)
    requires Inv(r) && Enabled(r, Recover(tids))
    ensures var r' := Next(r, Recover(tids));
            && View(r'.engine.pages, p) == LeftBy(r, tids, p) && OnDisk(r'.engine.pages, p) == LeftBy(r, tids, p)
            && Settled(r.base(p), HistoryOf(r'), p, {}) == LeftBy(r, tids, p)
            && r'.engine.wal.tables.transactions == map[]
            && forall t :: !OwnsPage(HistoryOf(r'), t, p)
  {
    var r' := Next(r, Recover(tids));
    assert RecoveryReaches(r, tids, p);
    RecoverLeavesIff(r, tids, p);
    LosersAreDone(r, tids);
    NoOwnerIsSettled(r', p);
  }

  /** A recovery that reaches every unfinished write leaves each page with exactly what the completed transactions
      had written, in memory and on disk. */
  lemma RecoverEffect(r: Run, tids: seq<nat>, p: PageAddress)
    requires Inv(r) && Enabled(r, Recover(tids)) && ScanReaches(HistoryOf(r), tids)
    ensures var r' := Next(r, Recover(tids));
            && Settled(r.base(p), HistoryOf(r'), p, {}) == Settled(r.base(p), HistoryOf(r), p, {})
            && View(r'.engine.pages, p) == Settled(r.base(p), HistoryOf(r), p, {})
            && OnDisk(r'.engine.pages, p) == View(r'.engine.pages, p)
            && r'.engine.wal.tables.transactions == map[]
            && forall t :: !OwnsPage(HistoryOf(r'), t, p)
  {
    RecoverLeaves(r, tids, p);
    var log := HistoryOf(r);
    TransactionsAreTheLiveOnes(log);
    forall t | t in tids ensures t in Unfinished(log) { assert t in AsSet(tids); }
    forall t | OwnsPage(log, t, p) ensures t in tids { assert t in AsSet(tids); }
    if tids == [] {
      LowestIsLeast(Unfinished(log), tids);
      NoOwnerIsSettled(r, p);
    } else {
      LeftIsSettled(r, tids, p);
    }
  }

  // ----- the refinement -----

  lemma CommitRefinesAt(r: Run, s: Store, t: nat, p: PageAddress)
    requires Inv(r) && Enabled(r, CommitTransaction(t)) && RefinesAt(r, s, p)
    ensures RefinesAt(Next(r, CommitTransaction(t)), StoreStep(r.base, s, CommitTransaction(t)), p)
  {
    CommitEffect(r, t, p);
  }

  lemma UndoRefinesAt(r: Run, s: Store, t: nat, p: PageAddress)
    requires Inv(r) && Enabled(r, UndoTransaction(t)) && RefinesAt(r, s, p) && ScanReaches(HistoryOf(r), [t])
    ensures RefinesAt(Next(r, UndoTransaction(t)), StoreStep(r.base, s, UndoTransaction(t)), p)
  {
    UndoEffect(r, t, p);
    UndoneStore(r.base, s, t, p);
    UndoneRefines(r, Next(r, UndoTransaction(t)), s, StoreStep(r.base, s, UndoTransaction(t)), t, p);
  }

  lemma UndoneStore(base: PageAddress -> seq<byte>, s: Store, t: nat, p: PageAddress)
    ensures var s' := StoreStep(base, s, UndoTransaction(t));
            && Committed(base, s', p) == Committed(base, s, p)
            && Working(base, s', p) == (if Owns(s, t, p) then Committed(base, s, p) else Working(base, s, p))
            && forall u :: Owns(s', u, p) <==> Owns(s, u, p) && u != t
  {
  }

  lemma UndoneRefines(r: Run, r': Run, s: Store, s': Store, t: nat, p: PageAddress)
    requires RefinesAt(r, s, p) && r'.base == r.base && r.engine.running && r'.engine.running
    requires Settled(r.base(p), HistoryOf(r'), p, {}) == Settled(r.base(p), HistoryOf(r), p, {})
    requires View(r'.engine.pages, p) ==
             if OwnsPage(HistoryOf(r), t, p) then Settled(r.base(p), HistoryOf(r), p, {}) else View(r.engine.pages, p)
    requires forall u :: OwnsPage(HistoryOf(r'), u, p) <==> OwnsPage(HistoryOf(r), u, p) && u != t
    requires Committed(r.base, s', p) == Committed(r.base, s, p)
    requires Working(r.base, s', p) == if Owns(s, t, p) then Committed(r.base, s, p) else Working(r.base, s, p)
    requires forall u :: Owns(s', u, p) <==> Owns(s, u, p) && u != t
    ensures RefinesAt(r', s', p)
  {
  }

  /** The writer of a page is the only transaction that owns it. */
  lemma WriterOwns(r: Run, step: Step, u: nat)
    requires Inv(r) && Enabled(r, step) && step.WritePage? && OwnsPage(HistoryOf(r), u, step.p)
    ensures u == step.t
  {
    var i :| LiveAt(HistoryOf(r), i) && HistoryOf(r)[i].item.tid == u && HistoryOf(r)[i].item.page == step.p;
  }

  lemma WriteRefinesThere(r: Run, s: Store, step: Step)
    requires Inv(r) && Enabled(r, step) && step.WritePage? && RefinesAt(r, s, step.p)
    ensures step.offset + |step.buf| <= |View(r.engine.pages, step.p)|
    ensures RefinesAt(Next(r, step), StoreStep(r.base, s, step), step.p)
  {
    WriteEffect(r, step, step.p);
    forall u | OwnsPage(HistoryOf(r), u, step.p) ensures u == step.t { WriterOwns(r, step, u); }
    WrittenRefines(r, Next(r, step), s, StoreStep(r.base, s, step), step.t, step.p);
  }

  lemma WrittenRefines(r: Run, r': Run, s: Store, s': Store, t: nat, p: PageAddress)
    requires RefinesAt(r, s, p) && r'.base == r.base && r'.engine.running
    requires Settled(r.base(p), HistoryOf(r'), p, {}) == Settled(r.base(p), HistoryOf(r), p, {})
    requires Working(r.base, s', p) == View(r'.engine.pages, p) && s'.committed == s.committed
             && s'.owner == s.owner[p := t]
    requires forall u :: OwnsPage(HistoryOf(r'), u, p) <==> u == t
    ensures RefinesAt(r', s', p)
  {
  }

  lemma WriteRefinesElsewhere(r: Run, s: Store, step: Step, p: PageAddress)
    requires Inv(r) && Enabled(r, step) && step.WritePage? && RefinesAt(r, s, p) && p != step.p
    ensures step.offset + |step.buf| <= |View(r.engine.pages, step.p)|
    ensures RefinesAt(Next(r, step), StoreStep(r.base, s, step), p)
  {
    WriteEffect(r, step, p);
  }

  lemma WriteRefinesAt(r: Run, s: Store, step: Step, p: PageAddress)
    requires Inv(r) && Enabled(r, step) && step.WritePage? && RefinesAt(r, s, p) && RefinesAt(r, s, step.p)
    ensures step.offset + |step.buf| <= |View(r.engine.pages, step.p)|
    ensures RefinesAt(Next(r, step), StoreStep(r.base, s, step), p)
  {
    if p == step.p { WriteRefinesThere(r, s, step); } else { WriteRefinesElsewhere(r, s, step, p); }
  }

  lemma CheckpointRefinesAt(r: Run, s: Store, p: PageAddress)
    requires Inv(r) && Enabled(r, LogCheckpoint) && RefinesAt(r, s, p)
    ensures RefinesAt(Next(r, LogCheckpoint), s, p)
  {
    var e := Entry(NextIndex(r.engine.wal), CheckpointItem(r.engine.wal));
    LoggedHistory(r, Next(r, LogCheckpoint), e);
    forall t ensures OwnsPage(HistoryOf(Next(r, LogCheckpoint)), t, p) <==> OwnsPage(HistoryOf(r), t, p) {
      OwnsAfterAppend(HistoryOf(r), e, t, p);
    }
  }

  lemma RecoverRefinesAt(r: Run, s: Store, tids: seq<nat>, p: PageAddress)
    requires Inv(r) && Enabled(r, Recover(tids)) && RefinesAt(r, s, p) && ScanReaches(HistoryOf(r), tids)
    ensures RefinesAt(Next(r, Recover(tids)), s, p)
  {
    RecoverEffect(r, tids, p);
  }

  lemma SameRefinesAt(r: Run, r': Run, s: Store, p: PageAddress)
    requires RefinesAt(r, s, p)
    requires HistoryOf(r') == HistoryOf(r) && r'.base == r.base && r.engine.running && r'.engine.running
    requires View(r'.engine.pages, p) == View(r.engine.pages, p)
    ensures RefinesAt(r', s, p)
  {
  }

  lemma QuietRefinesAt(r: Run, s: Store, step: Step, p: PageAddress)
    requires r.engine.wal.gens != [] && Enabled(r, step) && RefinesAt(r, s, p)
    requires step.Begin? || step.RotateLog? || step.FlushPage? || step.CacheDidFlush?
    ensures RefinesAt(Next(r, step), s, p)
  {
    QuietSays(r, step, p);
    SameRefinesAt(r, Next(r, step), s, p);
  }

  lemma QuietSays(r: Run, step: Step, p: PageAddress)
    requires r.engine.wal.gens != [] && Enabled(r, step)
    requires step.Begin? || step.RotateLog? || step.FlushPage? || step.CacheDidFlush?
    ensures HistoryOf(Next(r, step)) == HistoryOf(r) && Next(r, step).base == r.base
    ensures r.engine.running && Next(r, step).engine.running
    ensures View(Next(r, step).engine.pages, p) == View(r.engine.pages, p)
  {
    if step.RotateLog? { RotateHistory(r); }
  }

  lemma CrashRefinesAt(r: Run, s: Store, p: PageAddress)
    requires r.engine.wal.gens != [] && RefinesAt(r, s, p)
    ensures RefinesAt(Next(r, Crash), StoreStep(r.base, s, Crash), p)
  {
    assert HistoryOf(Next(r, Crash)) == HistoryOf(r);
  }

  /** Every step of the store is a step of the reference machine, as long as undo reaches all it has to undo. */
  lemma StepRefines(r: Run, s: Store, step: Step)
    requires Inv(r) && Enabled(r, step) && FullRollback(r, step) && Refines(r, s)
    ensures step.WritePage? ==> step.offset + |step.buf| <= |View(r.engine.pages, step.p)|
    ensures Refines(Next(r, step), StoreStep(r.base, s, step))
  {
    StepKeeps(r, step);
    forall p ensures RefinesAt(Next(r, step), StoreStep(r.base, s, step), p) {
      assert RefinesAt(r, s, p);
      match step
      case WritePage(_, q, _, _) => assert RefinesAt(r, s, q); WriteRefinesAt(r, s, step, p);
      case CommitTransaction(t) => CommitRefinesAt(r, s, t, p);
      case UndoTransaction(t) => UndoRefinesAt(r, s, t, p);
      case LogCheckpoint => CheckpointRefinesAt(r, s, p);
      case Recover(tids) => RecoverRefinesAt(r, s, tids, p);
      case Begin => QuietRefinesAt(r, s, step, p);
      case RotateLog => QuietRefinesAt(r, s, step, p);
      case FlushPage(_) => QuietRefinesAt(r, s, step, p);
      case CacheDidFlush => QuietRefinesAt(r, s, step, p);
      case Crash => CrashRefinesAt(r, s, p);
      case CrashInRedo(_) => assert HistoryOf(Next(r, step)) == HistoryOf(r);
    }
  }

  // ----- whole runs -----

  ghost predicate CanStep(r: Run, s: Step) {
    && r.engine.wal.gens != [] && Enabled(r, s)
    && (s.WritePage? ==> s.offset + |s.buf| <= |View(r.engine.pages, s.p)|)
    && (s.CrashInRedo? ==> s.scanned <= |Current(r.engine.wal)|)
  }

  ghost predicate CanRun(r: Run, steps: seq<Step>)
    decreases |steps|
  {
    steps == [] || (CanStep(r, steps[0]) && CanRun(Next(r, steps[0]), steps[1..]))
  }

  ghost function After(r: Run, steps: seq<Step>): Run
    requires CanRun(r, steps)
    decreases |steps|
  {
    if steps == [] then r else After(Next(r, steps[0]), steps[1..])
  }

  /** One more step at the end of a run. */
  lemma {:induction false} OneMoreStep(r: Run, steps: seq<Step>, s: Step)
    requires CanRun(r, steps) && CanStep(After(r, steps), s)
    ensures CanRun(r, steps + [s]) && After(r, steps + [s]) == Next(After(r, steps), s)
    decreases |steps|
  {
    var more := steps + [s];
    if steps == [] {
      assert more == [s] && more[1..] == [];
      assert CanRun(Next(r, s), []);
    } else {
      OneMoreStep(Next(r, steps[0]), steps[1..], s);
      assert more[0] == steps[0] && more[1..] == steps[1..] + [s];
    }
  }

  function StoreAfter(base: PageAddress -> seq<byte>, s: Store, steps: seq<Step>): Store
    decreases |steps|
  {
    if steps == [] then s else StoreAfter(base, StoreStep(base, s, steps[0]), steps[1..])
  }

  ghost predicate RollsBackFully(r: Run, steps: seq<Step>)
    requires CanRun(r, steps)
    decreases |steps|
  {
    steps != [] ==> FullRollback(r, steps[0]) && RollsBackFully(Next(r, steps[0]), steps[1..])
  }

  ghost predicate WellSized(disk: map<PageAddress, seq<byte>>) {
    forall p :: p in disk ==> |disk[p]| == PAGE_BODY_SIZE
  }

  function FirstEntry(): Entry {
    Entry(WalIndex(0, FILE_HEADER_SIZE), Checkpoint(map[], map[]))
  }

  lemma StartHistory(disk: map<PageAddress, seq<byte>>)
    ensures var r := Start(disk);
            && HistoryOf(r) == [FirstEntry()] && Current(r.engine.wal) == [FirstEntry()] && QueueOk(r.engine.wal)
            && FirstEntry().index.Before(NextIndex(r.engine.wal))
            && r.archived == [] && r.sessionStart == 0 && r.engine.running && r.engine.active == {}
  {
    var wal := Wal([Generation(0, [], FILE_HEADER_SIZE)], 0, EMPTY);
    assert wal.gens[..0] == [];
    assert Flatten(wal.gens) == [];
    PushExtends(wal, CheckpointItem(wal));
  }

  lemma StartTables()
    ensures Unfinished([FirstEntry()]) == map[] && Recovered([FirstEntry()]) == EMPTY
  {
    SnapshotOfFirst([], FirstEntry(), []);
    assert [] + [FirstEntry()] + [] == [FirstEntry()];
    ReplayAppend(EMPTY, [], FirstEntry());
    assert [] + [FirstEntry()] == [FirstEntry()];
  }

  lemma FirstPage(r: Run, p: PageAddress)
    requires HistoryOf(r) == [FirstEntry()] && r.engine.running
    requires OnDisk(r.engine.pages, p) == r.base(p) && View(r.engine.pages, p) == r.base(p)
    ensures Content(r.base(p), HistoryOf(r), p) == r.base(p)
    ensures DiskCovers(r, p, map[]) && RefinesAt(r, Store(map[], map[], map[]), p)
  {
    ContentUntouched(r.base(p), HistoryOf(r), p);
    AllSettled(r.base(p), HistoryOf(r), p, {});
    DiskCurrent(r, p, map[]);
  }

  lemma StartPage(disk: map<PageAddress, seq<byte>>, p: PageAddress)
    requires WellSized(disk)
    ensures var r := Start(disk);
            && |r.base(p)| == PAGE_BODY_SIZE && OnDisk(r.engine.pages, p) == r.base(p)
            && View(r.engine.pages, p) == r.base(p)
            && Content(r.base(p), HistoryOf(r), p) == r.base(p)
            && DiskCovers(r, p, map[]) && RefinesAt(r, Store(map[], map[], map[]), p)
  {
    StartHistory(disk);
    FirstPage(Start(disk), p);
  }

  lemma FirstLog(r: Run)
    requires HistoryOf(r) == [FirstEntry()] && r.archived == [] && r.sessionStart == 0
    requires QueueOk(r.engine.wal) && FirstEntry().index.Before(NextIndex(r.engine.wal))
    requires r.engine.running && r.engine.active == {}
    ensures LogInv(r) && LockInv(r) && SessionInv(r)
  {
    assert forall i :: !LiveAt([FirstEntry()], i);
  }

  lemma FirstTables(r: Run)
    requires HistoryOf(r) == [FirstEntry()] && r.engine.wal.gens != [] && Current(r.engine.wal) == [FirstEntry()]
    requires r.engine.wal.tables == EMPTY
    ensures TableInv(r)
  {
    StartTables();
  }

  lemma StartLog(disk: map<PageAddress, seq<byte>>)
    ensures LogInv(Start(disk)) && LockInv(Start(disk)) && SessionInv(Start(disk))
  {
    StartHistory(disk);
    FirstLog(Start(disk));
  }

  lemma StartTableInv(disk: map<PageAddress, seq<byte>>)
    ensures TableInv(Start(disk))
  {
    StartHistory(disk);
    FirstTables(Start(disk));
  }

  lemma StartPages(disk: map<PageAddress, seq<byte>>)
    requires WellSized(disk)
    ensures PageInv(Start(disk)) && DirtyInv(Start(disk)) && Refines(Start(disk), Store(map[], map[], map[]))
  {
    var r := Start(disk);
    StartHistory(disk);
    StartTables();
    assert r.engine.wal.tables == EMPTY;
    forall p
      ensures |r.base(p)| == PAGE_BODY_SIZE && OnDisk(r.engine.pages, p) == r.base(p)
              && View(r.engine.pages, p) == r.base(p)
      ensures Content(r.base(p), HistoryOf(r), p) == r.base(p)
      ensures DiskCovers(r, p, map[]) && RefinesAt(r, Store(map[], map[], map[]), p)
    {
      StartPage(disk, p);
    }
  }

  lemma StartKeeps(disk: map<PageAddress, seq<byte>>)
    requires WellSized(disk)
    ensures Inv(Start(disk)) && Refines(Start(disk), Store(map[], map[], map[]))
  {
    StartLog(disk);
    StartTableInv(disk);
    StartPages(disk);
  }

  /** The invariant holds throughout every run, including runs in which undo leaves something behind. */
  lemma {:induction false} EveryRunKeeps(r: Run, steps: seq<Step>)
    requires Inv(r) && CanRun(r, steps)
    ensures Inv(After(r, steps))
    decreases |steps|
  {
    if steps != [] {
      StepKeeps(r, steps[0]);
      EveryRunKeeps(Next(r, steps[0]), steps[1..]);
    }
  }

  /** In every run the queue of generations is ascending and ends at the current one, and it still holds every write
      that a later undo needs: no rotation has deleted a write of an unfinished transaction. */
  lemma EveryRunRetains(disk: map<PageAddress, seq<byte>>, steps: seq<Step>)
    requires WellSized(disk) && CanRun(Start(disk), steps)
    ensures var r := After(Start(disk), steps);
            && QueueOk(r.engine.wal)
            && forall i :: LiveAt(HistoryOf(r), i) ==> Retained(r.engine.wal.gens, HistoryOf(r)[i])
  {
    StartKeeps(disk);
    EveryRunKeeps(Start(disk), steps);
    LiveAreRetained(After(Start(disk), steps));
  }

  lemma LiveAreRetained(r: Run)
    requires LogInv(r)
    ensures forall i :: LiveAt(HistoryOf(r), i) ==> Retained(r.engine.wal.gens, HistoryOf(r)[i])
  {
    forall i | LiveAt(HistoryOf(r), i) ensures Retained(r.engine.wal.gens, HistoryOf(r)[i]) { LiveIsRetained(r, i); }
  }

  lemma LiveIsRetained(r: Run, i: nat)
    requires LogInv(r) && LiveAt(HistoryOf(r), i)
    ensures Retained(r.engine.wal.gens, HistoryOf(r)[i])
  {
    var g := FlattenMember(r.engine.wal.gens, i - |r.archived|);
    assert HistoryOf(r)[i] == Flatten(r.engine.wal.gens)[i - |r.archived|];
  }

  ghost predicate Retained(gens: seq<Generation>, e: Entry) {
    exists g :: 0 <= g < |gens| && e in Entries(gens[g])
  }

  /** In every run, and with any flushes of the cache in it that the log knows nothing of: the transaction table that
      a recovery would rebuild from the current generation lists exactly the unfinished transactions if there is a
      checkpoint in it, and if there is none, if and only if all that were unfinished before have completed in it.
      While the store is up, the dirty-page table that it would rebuild knows every page the one in memory knows,
      from no later an index. */
  lemma EveryRunCanRebuild(disk: map<PageAddress, seq<byte>>, steps: seq<Step>)
    requires WellSized(disk) && CanRun(Start(disk), steps)
    ensures After(Start(disk), steps).engine.wal.gens != [] && TablesAreRebuilt(After(Start(disk), steps))
  {
    StartKeeps(disk);
    EveryRunKeeps(Start(disk), steps);
    TablesCanBeRebuilt(After(Start(disk), steps));
  }

  lemma TablesCanBeRebuilt(r: Run)
    requires LogInv(r) && TableInv(r) && DirtyInv(r)
    ensures TablesAreRebuilt(r)
  {
    if !HasCheckpoint(Current(r.engine.wal)) { RebuiltWithoutCheckpoint(r); }
  }

  lemma RebuiltWithoutCheckpoint(r: Run)
    requires LogInv(r) && !HasCheckpoint(Current(r.engine.wal))
    ensures Recovered(Current(r.engine.wal)).transactions == Unfinished(HistoryOf(r)) <==>
            forall t :: t in Unfinished(Older(r)) ==> Completes(Current(r.engine.wal), t)
  {
    var start := Replay(EMPTY, Older(r));
    SplitHistory(r);
    ReplayConcat(EMPTY, Older(r), Current(r.engine.wal));
    TransactionsAreTheLiveOnes(Older(r));
    OlderGenerations(r);
    forall t | t in start.transactions ensures start.transactions[t].firstGen != r.engine.wal.currentGenNum {
      assert Tracks(Older(r), t, start.transactions[t]);
    }
    NoCheckpointIsExactIff(start, r.engine.wal.currentGenNum, Current(r.engine.wal));
  }

  ghost predicate TablesAreRebuilt(r: Run)
    requires r.engine.wal.gens != []
  {
    var w := r.engine.wal;
    var rebuilt := Recovered(Current(w));
    && (r.engine.running ==> w.tables.transactions == Unfinished(HistoryOf(r)))
    && (HasCheckpoint(Current(w)) ==> rebuilt.transactions == Unfinished(HistoryOf(r)))
    && (!HasCheckpoint(Current(w)) ==>
          (rebuilt.transactions == Unfinished(HistoryOf(r)) <==>
           forall t :: t in Unfinished(Older(r)) ==> Completes(Current(w), t)))
    && (HasCheckpoint(Current(w)) && r.engine.running ==> Dominates(rebuilt.dirtyPages, w.tables.dirtyPages))
  }

  /** Every run refines the reference machine: what is committed stays committed through any number of crashes, what
      is undone or was unfinished at a crash leaves no trace, and readers see the working pages. */
  lemma {:induction false} EveryRunRefines(r: Run, s: Store, steps: seq<Step>)
    requires Inv(r) && CanRun(r, steps) && RollsBackFully(r, steps) && Refines(r, s)
    ensures Refines(After(r, steps), StoreAfter(r.base, s, steps))
    decreases |steps|
  {
    if steps != [] {
      StepKeeps(r, steps[0]);
      StepRefines(r, s, steps[0]);
      EveryRunRefines(Next(r, steps[0]), StoreStep(r.base, s, steps[0]), steps[1..]);
    }
  }

  /** The page store is atomic and durable from its creation on. */
  lemma PageStoreIsAtomic(disk: map<PageAddress, seq<byte>>, steps: seq<Step>)
    requires WellSized(disk) && CanRun(Start(disk), steps) && RollsBackFully(Start(disk), steps)
    ensures Refines(After(Start(disk), steps), StoreAfter(Start(disk).base, Store(map[], map[], map[]), steps))
  {
    StartKeeps(disk);
    EveryRunRefines(Start(disk), Store(map[], map[], map[]), steps);
  }

  /** A transaction with a single unfinished write is always rolled back in full. */
  lemma SingleWriteIsReached(log: seq<Entry>, t: nat)
    requires forall i, j :: LiveBy(log, i, t) && LiveBy(log, j, t) ==> i == j
    ensures ScanReaches(log, [t])
  {
    var lowest := LowestIndex(Unfinished(log), [t]);
    if lowest.Some? {
      var k := BoundIsLive(log, [t], lowest.value);
      assert LiveBy(log, k, t);
      forall i | LiveAt(log, i) && log[i].item.tid in [t] ensures !log[i].index.Before(lowest.value) {
        assert LiveBy(log, i, t);
      }
    }
  }
}
