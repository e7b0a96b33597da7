/** What every run does, exactly. A second reference machine, for all runs, holds the writes that are pending, in order,
    and an undo takes back what the original takes back, going from the newest write to older ones until it has seen one
    of each transaction that it is to undo. What it does not reach is published. There is no log in it, no cache and no
    disk. */
module Ledger {
  import opened Bytes
  import opened WalTypes
  import opened Tables
  import opened History
  import opened WalModel
  import opened Engine
  import opened Invariant
  import opened Steps
  import opened UndoSteps
  import opened RecoverSteps
  import opened Atomicity

  // ----- the machine -----

  datatype Change = Change(tid: nat, page: PageAddress, offset: nat, data: seq<byte>)

  /** The published pages, and the writes of the transactions that are not completed. A page that is not in the map
      is as it was at the start. */
  datatype Book = Book(published: map<PageAddress, seq<byte>>, pending: seq<Change>)

  function Published(base: PageAddress -> seq<byte>, b: Book, p: PageAddress): seq<byte> {
    if p in b.published then b.published[p] else base(p)
  }

  function Apply(page: seq<byte>, changes: seq<Change>, p: PageAddress): seq<byte> {
    if changes == [] then page
    else
      var c, before := changes[|changes| - 1], Apply(page, changes[..|changes| - 1], p);
      if c.page == p then Overlay(before, c.offset, c.data) else before
  }

  /** What a reader sees. */
  function Seen(base: PageAddress -> seq<byte>, b: Book, p: PageAddress): seq<byte> {
    Apply(Published(base, b, p), b.pending, p)
  }

  function Without(changes: seq<Change>, tids: set<nat>): seq<Change> {
    if changes == [] then []
    else
      var c, before := changes[|changes| - 1], Without(changes[..|changes| - 1], tids);
      if c.tid in tids then before else before + [c]
  }

  /** The scan, newest change first: it takes back the changes of `tids`, and stops when `unseen` is empty. */
  function Scan(changes: seq<Change>, unseen: set<nat>, tids: set<nat>): seq<Change> {
    if changes == [] || unseen == {} then changes
    else
      var c := changes[|changes| - 1];
      var before := Scan(changes[..|changes| - 1], unseen - {c.tid}, tids);
      if c.tid in tids then before else before + [c]
  }

  function PagesIn(changes: seq<Change>, tids: set<nat>): set<PageAddress> {
    set i | 0 <= i < |changes| && changes[i].tid in tids :: changes[i].page
  }

  /** Completes `tids`: the pages they have changed are published with the changes in `keep`. */
  function Complete(base: PageAddress -> seq<byte>, b: Book, keep: seq<Change>, tids: set<nat>): Book {
    var pages := PagesIn(b.pending, tids);
    Book(map p | p in b.published.Keys + pages ::
           if p in pages then Apply(Published(base, b, p), keep, p) else Published(base, b, p),
         Without(b.pending, tids))
  }

  function BookStep(base: PageAddress -> seq<byte>, b: Book, step: Step): Book {
    match step
    case WritePage(t, p, offset, buf) => b.(pending := b.pending + [Change(t, p, offset, buf)])
    case CommitTransaction(t) => Complete(base, b, b.pending, {t})
    case UndoTransaction(t) => Complete(base, b, Scan(b.pending, {t}, {t}), {t})
    case Recover(tids) => Complete(base, b, Scan(b.pending, AsSet(tids), AsSet(tids)), AsSet(tids))
    case Begin => b
    case RotateLog => b
    case LogCheckpoint => b
    case FlushPage(_) => b
    case CacheDidFlush => b
    case Crash => b
    case CrashInRedo(_) => b
  }

  function BookAfter(base: PageAddress -> seq<byte>, b: Book, steps: seq<Step>): Book
    decreases |steps|
  {
    if steps == [] then b else BookAfter(base, BookStep(base, b, steps[0]), steps[1..])
  }

  // ----- the pending writes of a log -----

  ghost predicate AllWrites(log: seq<Entry>) {
    forall i :: 0 <= i < |log| ==> log[i].item.Write?
  }

  /** Which entries are dropped: the writes of some transactions, or those that a scan takes back. */
  datatype Filter = ByTid(tids: set<nat>) | ByScan(losers: set<nat>, bound: WalIndex)

  predicate Drops(f: Filter, e: Entry) {
    match f
    case ByTid(tids) => e.item.Write? && e.item.tid in tids
    case ByScan(losers, bound) => Undoable(e, losers, bound)
  }

  /** The other entries, in order. */
  function Dropped(log: seq<Entry>, f: Filter): seq<Entry> {
    if log == [] then []
    else
      var e, before := log[|log| - 1], Dropped(log[..|log| - 1], f);
      if Drops(f, e) then before else before + [e]
  }

  /** The live writes of a log. */
  function Pending(log: seq<Entry>): seq<Entry> {
    if log == [] then []
    else
      var e, before := log[|log| - 1], Pending(log[..|log| - 1]);
      match e.item
      case Write(_, _, _, _, _, _) => before + [e]
      case Commit(t, _) => Dropped(before, ByTid({t}))
      case Checkpoint(_, _) => before
  }

  lemma {:induction false} DroppedIs(log: seq<Entry>, f: Filter)
    ensures forall e :: e in Dropped(log, f) <==> e in log && !Drops(f, e)
    ensures AllWrites(log) ==> AllWrites(Dropped(log, f))
  {
    if log != [] {
      DroppedIs(log[..|log| - 1], f);
      assert log == log[..|log| - 1] + [log[|log| - 1]];
    }
  }

  lemma {:induction false} DroppedAscends(log: seq<Entry>, f: Filter)
    requires Ascending(log)
    ensures Ascending(Dropped(log, f))
  {
    if log != [] {
      var init, e := log[..|log| - 1], log[|log| - 1];
      DroppedAscends(init, f);
      DroppedIs(init, f);
      forall d | d in Dropped(init, f) ensures d.index.Before(e.index) { assert d in init; }
      AscendingAppend(Dropped(init, f), e);
    }
  }

  lemma AscendingAppend(log: seq<Entry>, e: Entry)
    requires Ascending(log) && forall d :: d in log ==> d.index.Before(e.index)
    ensures Ascending(log + [e])
  {
  }

  /** They are the live writes indeed, and in the order of the log. */
  lemma {:induction false} PendingIsLive(log: seq<Entry>)
    ensures AllWrites(Pending(log))
    ensures forall i :: LiveAt(log, i) ==> log[i] in Pending(log)
    ensures forall e :: e in Pending(log) ==> exists i :: LiveAt(log, i) && log[i] == e
    ensures Ascending(log) ==> Ascending(Pending(log))
  {
    if log != [] {
      var n := |log| - 1;
      var init, e := log[..n], log[n];
      assert log == init + [e];
      PendingIsLive(init);
      PendingStep(init, e);
    }
  }

  lemma PendingAppend(init: seq<Entry>, e: Entry)
    ensures e.item.Write? ==> Pending(init + [e]) == Pending(init) + [e]
    ensures e.item.Commit? ==> Pending(init + [e]) == Dropped(Pending(init), ByTid({e.item.tid}))
    ensures e.item.Checkpoint? ==> Pending(init + [e]) == Pending(init)
  {
    assert (init + [e])[..|init|] == init;
  }

  lemma PendingStep(init: seq<Entry>, e: Entry)
    requires AllWrites(Pending(init)) && forall i :: LiveAt(init, i) ==> init[i] in Pending(init)
    requires forall d :: d in Pending(init) ==> exists i :: LiveAt(init, i) && init[i] == d
    requires Ascending(init) ==> Ascending(Pending(init))
    ensures AllWrites(Pending(init + [e]))
    ensures forall i :: LiveAt(init + [e], i) ==> (init + [e])[i] in Pending(init + [e])
    ensures forall d :: d in Pending(init + [e]) ==> exists i :: LiveAt(init + [e], i) && (init + [e])[i] == d
    ensures Ascending(init + [e]) ==> Ascending(Pending(init + [e]))
  {
    var log := init + [e];
    PendingAppend(init, e);
    if e.item.Commit? {
      DroppedIs(Pending(init), ByTid({e.item.tid}));
      if Ascending(Pending(init)) { DroppedAscends(Pending(init), ByTid({e.item.tid})); }
    }
    forall i | LiveAt(log, i) ensures log[i] in Pending(log) {
      LiveAfterAppend(init, e, i);
      if i < |init| { assert log[i] == init[i]; }
    }
    forall d | d in Pending(log) ensures exists i :: LiveAt(log, i) && log[i] == d {
      if d in Pending(init) {
        var i :| LiveAt(init, i) && init[i] == d;
        LiveAfterAppend(init, e, i);
        assert log[i] == d;
      } else {
        LiveAfterAppend(init, e, |init|);
        assert log[|init|] == d;
      }
    }
    if Ascending(log) {
      assert Ascending(init) by { assert forall i :: 0 <= i < |init| ==> log[i] == init[i]; }
      if e.item.Write? {
        forall d | d in Pending(init) ensures d.index.Before(e.index) {
          var i :| LiveAt(init, i) && init[i] == d;
          assert log[i] == d && log[|init|] == e;
        }
        AscendingAppend(Pending(init), e);
      }
    }
  }

  // ----- content is what is settled and what is pending -----

  lemma DroppedAppend(log: seq<Entry>, e: Entry, f: Filter)
    ensures Dropped(log + [e], f) == if Drops(f, e) then Dropped(log, f) else Dropped(log, f) + [e]
  {
    assert (log + [e])[..|log|] == log;
  }

  lemma {:induction false} DroppedTwice(log: seq<Entry>, f: Filter, g: Filter)
    ensures Dropped(Dropped(log, f), g) == Dropped(Dropped(log, g), f)
  {
    if log != [] {
      var init, e := log[..|log| - 1], log[|log| - 1];
      DroppedTwice(init, f, g);
      DroppedAppend(Dropped(init, f), e, g);
      DroppedAppend(Dropped(init, g), e, f);
    }
  }

  lemma {:induction false} DroppedElsewhere(page: seq<byte>, log: seq<Entry>, f: Filter, p: PageAddress)
    requires forall e :: e in log && Drops(f, e) ==> !e.WritesTo(p)
    ensures Content(page, Dropped(log, f), p) == Content(page, log, p)
  {
    if log != [] {
      var init, e := log[..|log| - 1], log[|log| - 1];
      assert log == init + [e];
      DroppedElsewhere(page, init, f, p);
      ContentAppend(page, Dropped(init, f), e, p);
    }
  }

  ghost predicate UndoableIsLiveIn(log: seq<Entry>, losers: set<nat>, bound: WalIndex) {
    forall i :: 0 <= i < |log| && Undoable(log[i], losers, bound) ==> LiveAt(log, i)
  }

  lemma UndoableInPrefix(log: seq<Entry>, losers: set<nat>, bound: WalIndex)
    requires log != [] && UndoableIsLiveIn(log, losers, bound)
    ensures UndoableIsLiveIn(log[..|log| - 1], losers, bound)
  {
    var n := |log| - 1;
    assert log == log[..n] + [log[n]];
    forall i | 0 <= i < n && Undoable(log[..n][i], losers, bound) ensures LiveAt(log[..n], i) {
      LiveInPrefix(log[..n], [log[n]], i);
    }
  }

  /** The content without the writes that a scan takes back is the settled content, with the other pending writes. */
  lemma {:induction false} WithoutIsKept(base: seq<byte>, log: seq<Entry>, p: PageAddress, losers: set<nat>,
                                         bound: WalIndex)
    requires LocksHeld(log) && UndoableIsLiveIn(log, losers, bound)
    ensures ContentWithout(base, log, p, losers, bound)
         == Content(Settled(base, log, p, {}), Dropped(Pending(log), ByScan(losers, bound)), p)
  {
    if log != [] {
      var n := |log| - 1;
      var init, e := log[..n], log[n];
      assert log == init + [e];
      assert LocksHeld(init) by { LocksHeldPrefix(init, e); }
      UndoableInPrefix(log, losers, bound);
      WithoutIsKept(base, init, p, losers, bound);
      KeptStep(base, init, e, p, losers, bound);
    }
  }

  lemma KeptStep(base: seq<byte>, init: seq<Entry>, e: Entry, p: PageAddress, losers: set<nat>, bound: WalIndex)
    requires LocksHeld(init) && UndoableIsLiveIn(init + [e], losers, bound)
    requires ContentWithout(base, init, p, losers, bound)
          == Content(Settled(base, init, p, {}), Dropped(Pending(init), ByScan(losers, bound)), p)
    ensures ContentWithout(base, init + [e], p, losers, bound)
         == Content(Settled(base, init + [e], p, {}), Dropped(Pending(init + [e]), ByScan(losers, bound)), p)
  {
    PendingAppend(init, e);
    WithoutAppend(base, init, e, p, losers, bound);
    SettledOne(base, init, e, p);
    if e.item.Write? {
      DroppedAppend(Pending(init), e, ByScan(losers, bound));
      ContentAppend(Settled(base, init, p, {}), Dropped(Pending(init), ByScan(losers, bound)), e, p);
    } else if e.item.Commit? {
      CommitKeeps(base, init, e, p, losers, bound);
    }
  }

  lemma WithoutAppend(base: seq<byte>, init: seq<Entry>, e: Entry, p: PageAddress, losers: set<nat>, bound: WalIndex)
    ensures ContentWithout(base, init + [e], p, losers, bound) ==
            if Undoable(e, losers, bound) then ContentWithout(base, init, p, losers, bound)
            else Patch(ContentWithout(base, init, p, losers, bound), e, p)
  {
    assert (init + [e])[..|init|] == init;
  }

  lemma SettledOne(base: seq<byte>, init: seq<Entry>, e: Entry, p: PageAddress)
    ensures Settled(base, init + [e], p, {}) == Settled(base, init, p, if e.item.Commit? then {e.item.tid} else {})
  {
    assert (init + [e])[..|init|] == init;
    if e.item.Commit? { assert {} + {e.item.tid} == {e.item.tid}; }
  }

  lemma LocksHeldPrefix(init: seq<Entry>, e: Entry)
    requires LocksHeld(init + [e])
    ensures LocksHeld(init)
  {
    assert forall i :: 0 <= i < |init| ==> (init + [e])[i] == init[i];
  }

  lemma CommitKeeps(base: seq<byte>, init: seq<Entry>, e: Entry, p: PageAddress, losers: set<nat>, bound: WalIndex)
    requires LocksHeld(init) && e.item.Commit? && UndoableIsLiveIn(init + [e], losers, bound)
    requires ContentWithout(base, init, p, losers, bound)
          == Content(Settled(base, init, p, {}), Dropped(Pending(init), ByScan(losers, bound)), p)
    ensures ContentWithout(base, init, p, losers, bound)
         == Content(Settled(base, init, p, {e.item.tid}),
                    Dropped(Dropped(Pending(init), ByTid({e.item.tid})), ByScan(losers, bound)), p)
  {
    DroppedTwice(Pending(init), ByTid({e.item.tid}), ByScan(losers, bound));
    if OwnsPage(init, e.item.tid, p) {
      CommittedIsNotUndoable(init, e, p, losers, bound);
      NothingUndone(base, init, p, losers, bound);
      OwnersOnPage(init, e.item.tid, p);
      AllSettled(base, init, p, {e.item.tid});
      NothingLeft(Settled(base, init, p, {e.item.tid}), init, e.item.tid, p, ByScan(losers, bound));
    } else {
      NothingOwned(base, init, e.item.tid, p, ByScan(losers, bound));
    }
  }

  /** On a page of `t` nothing is pending but what `t` has written. */
  lemma NothingLeft(page: seq<byte>, init: seq<Entry>, t: nat, p: PageAddress, f: Filter)
    requires LocksHeld(init) && OwnsPage(init, t, p)
    ensures Content(page, Dropped(Dropped(Pending(init), f), ByTid({t})), p) == page
  {
    var left := Dropped(Dropped(Pending(init), f), ByTid({t}));
    PendingIsLive(init);
    OwnersOnPage(init, t, p);
    DroppedIs(Pending(init), f);
    DroppedIs(Dropped(Pending(init), f), ByTid({t}));
    forall i | 0 <= i < |left| ensures !left[i].WritesTo(p) {
      assert left[i] in left;
      assert left[i] in Pending(init);
      var k :| LiveAt(init, k) && init[k] == left[i];
    }
    ContentUntouched(page, left, p);
  }

  /** On any other page nothing of `t` is pending. */
  lemma NothingOwned(base: seq<byte>, init: seq<Entry>, t: nat, p: PageAddress, f: Filter)
    requires LocksHeld(init) && !OwnsPage(init, t, p)
    ensures Settled(base, init, p, {t}) == Settled(base, init, p, {})
    ensures Content(Settled(base, init, p, {}), Dropped(Dropped(Pending(init), f), ByTid({t})), p)
         == Content(Settled(base, init, p, {}), Dropped(Pending(init), f), p)
  {
    LiveWritesOwn(init, p);
    PendingIsLive(init);
    DroppedIs(Pending(init), f);
    SettledOnlyNeedsOwners(base, init, p, {t}, {});
    DroppedElsewhere(Settled(base, init, p, {}), Dropped(Pending(init), f), ByTid({t}), p);
  }

  lemma CommittedIsNotUndoable(init: seq<Entry>, e: Entry, p: PageAddress, losers: set<nat>, bound: WalIndex)
    requires LocksHeld(init) && e.item.Commit? && UndoableIsLiveIn(init + [e], losers, bound)
             && OwnsPage(init, e.item.tid, p)
    ensures forall i :: 0 <= i < |init| && init[i].WritesTo(p) ==> !Undoable(init[i], losers, bound)
  {
    OwnersOnPage(init, e.item.tid, p);
    forall i | 0 <= i < |init| && init[i].WritesTo(p) ensures !Undoable(init[i], losers, bound) {
      assert (init + [e])[i] == init[i];
      LiveAfterAppend(init, e, i);
    }
  }

  // ----- entries and changes -----

  function ChangeOf(e: Entry): Change
    requires e.item.Write?
  {
    Change(e.item.tid, e.item.page, e.item.offset, e.item.to)
  }

  ghost function Changes(log: seq<Entry>): (r: seq<Change>)
    requires AllWrites(log)
    ensures |r| == |log| && forall i :: 0 <= i < |r| ==> r[i] == ChangeOf(log[i])
  {
    seq(|log|, i requires 0 <= i < |log| => ChangeOf(log[i]))
  }

  lemma {:induction false} ApplyIsContent(page: seq<byte>, log: seq<Entry>, p: PageAddress)
    requires AllWrites(log)
    ensures Apply(page, Changes(log), p) == Content(page, log, p)
  {
    if log != [] {
      var n := |log| - 1;
      ApplyIsContent(page, log[..n], p);
      assert Changes(log)[..n] == Changes(log[..n]);
    }
  }

  lemma {:induction false} WithoutIsDropped(log: seq<Entry>, tids: set<nat>)
    requires AllWrites(log)
    ensures AllWrites(Dropped(log, ByTid(tids))) && Without(Changes(log), tids) == Changes(Dropped(log, ByTid(tids)))
  {
    DroppedIs(log, ByTid(tids));
    if log != [] {
      var n := |log| - 1;
      WithoutIsDropped(log[..n], tids);
      assert Changes(log)[..n] == Changes(log[..n]);
    }
  }

  lemma {:induction false} DroppedNone(log: seq<Entry>, f: Filter)
    requires forall i :: 0 <= i < |log| ==> !Drops(f, log[i])
    ensures Dropped(log, f) == log
  {
    if log != [] { DroppedNone(log[..|log| - 1], f); }
  }

  // ----- the scan -----

  /** `pending[j]` is where the scan stops: the last write of its transaction, and no transaction has its last write
      before it. */
  ghost predicate StopsAt(pending: seq<Entry>, tids: set<nat>, j: nat)
    requires AllWrites(pending)
  {
    && j < |pending| && pending[j].item.tid in tids
    && (forall k :: j < k < |pending| ==> pending[k].item.tid != pending[j].item.tid)
    && (forall t :: t in tids ==> HasFrom(pending, t, j))
  }

  ghost predicate HasFrom(pending: seq<Entry>, t: nat, j: nat)
    requires AllWrites(pending)
  {
    exists k :: j <= k < |pending| && pending[k].item.tid == t
  }

  /** The transactions that have no write from place `n` on. */
  ghost predicate Unseen(pending: seq<Entry>, n: nat, unseen: set<nat>, tids: set<nat>)
    requires AllWrites(pending)
  {
    forall t :: t in unseen <==> t in tids && forall k :: n <= k < |pending| ==> pending[k].item.tid != t
  }

  ghost predicate Scanned(pending: seq<Entry>, unseen: set<nat>, tids: set<nat>, f: Filter) {
    && AllWrites(pending) && AllWrites(Dropped(pending, f))
    && Scan(Changes(pending), unseen, tids) == Changes(Dropped(pending, f))
  }

  lemma {:induction false} ScanIsDropped(pending: seq<Entry>, n: nat, unseen: set<nat>, tids: set<nat>, j: nat)
    requires AllWrites(pending) && Ascending(pending) && StopsAt(pending, tids, j) && n <= |pending|
    requires forall k :: 0 <= k < |pending| ==> pending[k].item.from.Some?
    requires Unseen(pending, n, unseen, tids)
    ensures Scanned(pending[..n], unseen, tids, ByScan(tids, pending[j].index))
  {
    if unseen == {} {
      NothingAhead(pending, n, unseen, tids, j);
      ScanEnds(pending[..n], tids, ByScan(tids, pending[j].index));
    } else {
      StillAhead(pending, n, unseen, tids, j);
      ScanIsDropped(pending, n - 1, unseen - {pending[n - 1].item.tid}, tids, j);
      PrefixStep(pending, n);
      ScanStep(pending[..n - 1], pending[n - 1], unseen, tids, ByScan(tids, pending[j].index));
    }
  }

  lemma PrefixStep(log: seq<Entry>, n: nat)
    requires 0 < n <= |log|
    ensures log[..n] == log[..n - 1] + [log[n - 1]]
  {
  }

  lemma ScanEnds(pending: seq<Entry>, tids: set<nat>, f: Filter)
    requires AllWrites(pending) && forall i :: 0 <= i < |pending| ==> !Drops(f, pending[i])
    ensures Scanned(pending, {}, tids, f)
  {
    DroppedNone(pending, f);
  }

  lemma ChangesAppend(log: seq<Entry>, e: Entry)
    requires AllWrites(log) && e.item.Write?
    ensures AllWrites(log + [e]) && Changes(log + [e]) == Changes(log) + [ChangeOf(e)]
  {
  }

  lemma ScanStep(init: seq<Entry>, e: Entry, unseen: set<nat>, tids: set<nat>, f: Filter)
    requires e.item.Write? && unseen != {} && (Drops(f, e) <==> e.item.tid in tids)
    requires Scanned(init, unseen - {e.item.tid}, tids, f)
    ensures Scanned(init + [e], unseen, tids, f)
  {
    DroppedAppend(init, e, f);
    ChangesAppend(init, e);
    if !Drops(f, e) { ChangesAppend(Dropped(init, f), e); }
    assert (Changes(init) + [ChangeOf(e)])[..|init|] == Changes(init);
  }

  lemma NothingAhead(pending: seq<Entry>, n: nat, unseen: set<nat>, tids: set<nat>, j: nat)
    requires AllWrites(pending) && Ascending(pending) && StopsAt(pending, tids, j) && n <= |pending|
    requires Unseen(pending, n, unseen, tids) && unseen == {}
    ensures n <= j && forall i :: 0 <= i < n ==> !Drops(ByScan(tids, pending[j].index), pending[i])
  {
    assert pending[j].item.tid !in unseen;
  }

  lemma StillAhead(pending: seq<Entry>, n: nat, unseen: set<nat>, tids: set<nat>, j: nat)
    requires AllWrites(pending) && Ascending(pending) && StopsAt(pending, tids, j) && n <= |pending|
    requires forall k :: 0 <= k < |pending| ==> pending[k].item.from.Some?
    requires Unseen(pending, n, unseen, tids) && unseen != {}
    ensures j < n && Unseen(pending, n - 1, unseen - {pending[n - 1].item.tid}, tids)
    ensures Drops(ByScan(tids, pending[j].index), pending[n - 1]) <==> pending[n - 1].item.tid in tids
  {
    var t :| t in unseen;
    assert HasFrom(pending, t, j);
    var k :| j <= k < |pending| && pending[k].item.tid == t;
    assert k < n;
    forall u ensures u in unseen - {pending[n - 1].item.tid} <==>
                     u in tids && forall i :: n - 1 <= i < |pending| ==> pending[i].item.tid != u
    {
      if u in tids && u in unseen && u != pending[n - 1].item.tid {
        assert forall i :: n <= i < |pending| ==> pending[i].item.tid != u;
      }
    }
  }

  /** The bound of the original's undo is where the scan stops. */
  lemma BoundIsStop(log: seq<Entry>, tids: seq<nat>, bound: WalIndex) returns (j: nat)
    requires Ascending(log) && LowestIndex(Unfinished(log), tids) == Some(bound)
    requires forall t :: t in tids ==> t in Unfinished(log)
    ensures AllWrites(Pending(log)) && StopsAt(Pending(log), AsSet(tids), j) && Pending(log)[j].index == bound
  {
    PendingIsLive(log);
    var t, m := BoundIsLast(log, tids, bound);
    assert log[m] in Pending(log);
    j :| 0 <= j < |Pending(log)| && Pending(log)[j] == log[m];
    forall k | j < k < |Pending(log)| ensures Pending(log)[k].item.tid != t {
      assert Pending(log)[k] in Pending(log);
      var i :| LiveAt(log, i) && log[i] == Pending(log)[k];
      LaterIsNotLast(log, m, i, t);
    }
    forall u | u in AsSet(tids) ensures HasFrom(Pending(log), u, j) { LastIsFrom(log, tids, bound, u, j); }
  }

  lemma BoundIsLast(log: seq<Entry>, tids: seq<nat>, bound: WalIndex) returns (t: nat, m: nat)
    requires LowestIndex(Unfinished(log), tids) == Some(bound)
    ensures t in tids && LastLive(log, m, t) && log[m].index == bound
  {
    LowestIsLeast(Unfinished(log), tids);
    t :| t in tids && t in Unfinished(log) && Unfinished(log)[t].lastIndex == bound;
    TransactionsAreTheLiveOnes(log);
    assert Tracks(log, t, Unfinished(log)[t]);
    m :| LastLive(log, m, t) && log[m].index == bound;
  }

  lemma LaterIsNotLast(log: seq<Entry>, m: nat, i: nat, t: nat)
    requires Ascending(log) && LastLive(log, m, t) && LiveAt(log, i) && log[m].index.Before(log[i].index)
    ensures log[i].item.tid != t
  {
    AtOrAfter(log, m, i);
    assert LiveBy(log, i, log[i].item.tid);
  }

  lemma LastIsFrom(log: seq<Entry>, tids: seq<nat>, bound: WalIndex, u: nat, j: nat)
    requires Ascending(log) && LowestIndex(Unfinished(log), tids) == Some(bound) && u in tids && u in Unfinished(log)
    requires j < |Pending(log)| && Pending(log)[j].index == bound
    ensures AllWrites(Pending(log)) && HasFrom(Pending(log), u, j)
  {
    PendingIsLive(log);
    var i := LastAtOrAbove(log, tids, bound, u);
    assert log[i] in Pending(log);
    var k :| 0 <= k < |Pending(log)| && Pending(log)[k] == log[i];
    AtOrAfter(Pending(log), j, k);
  }

  lemma LastAtOrAbove(log: seq<Entry>, tids: seq<nat>, bound: WalIndex, u: nat) returns (i: nat)
    requires LowestIndex(Unfinished(log), tids) == Some(bound) && u in tids && u in Unfinished(log)
    ensures LiveBy(log, i, u) && !log[i].index.Before(bound)
  {
    LowestIsLeast(Unfinished(log), tids);
    TransactionsAreTheLiveOnes(log);
    assert Tracks(log, u, Unfinished(log)[u]);
    i :| LastLive(log, i, u) && log[i].index == Unfinished(log)[u].lastIndex;
  }

  // ----- the machine follows the store -----

  ghost predicate BookIs(r: Run, b: Book) {
    var log := HistoryOf(r);
    && AllWrites(Pending(log)) && b.pending == Changes(Pending(log))
    && forall p :: Published(r.base, b, p) == Settled(r.base(p), log, p, {})
  }

  lemma PagesInIs(log: seq<Entry>, tids: set<nat>, p: PageAddress)
    requires AllWrites(Pending(log))
    ensures p in PagesIn(Changes(Pending(log)), tids) <==> exists t :: t in tids && OwnsPage(log, t, p)
  {
    PendingIsLive(log);
    var pending := Pending(log);
    if p in PagesIn(Changes(pending), tids) {
      var i :| 0 <= i < |pending| && Changes(pending)[i].tid in tids && Changes(pending)[i].page == p;
      assert pending[i] in pending;
      var k :| LiveAt(log, k) && log[k] == pending[i];
      assert OwnsPage(log, log[k].item.tid, p);
    }
    if t :| t in tids && OwnsPage(log, t, p) {
      var k :| LiveAt(log, k) && log[k].item.tid == t && log[k].item.page == p;
      assert log[k] in pending;
      var i :| 0 <= i < |pending| && pending[i] == log[k];
      assert Changes(pending)[i].tid in tids && Changes(pending)[i].page == p;
    }
  }

  ghost predicate OwnedBy(log: seq<Entry>, tids: set<nat>, p: PageAddress) {
    exists t :: t in tids && OwnsPage(log, t, p)
  }

  /** Settled content when `tids` are completed, with `keep` left of what was pending. */
  ghost predicate Settles(r: Run, r': Run, keep: seq<Entry>, tids: set<nat>) {
    forall p :: Settled(r.base(p), HistoryOf(r'), p, {}) ==
                if OwnedBy(HistoryOf(r), tids, p) then Content(Settled(r.base(p), HistoryOf(r), p, {}), keep, p)
                else Settled(r.base(p), HistoryOf(r), p, {})
  }

  /** Completing `tids`, with `keep` left of what was pending. */
  lemma CompleteIs(r: Run, r': Run, b: Book, keep: seq<Entry>, tids: set<nat>)
    requires BookIs(r, b) && r'.base == r.base && AllWrites(keep)
    requires Pending(HistoryOf(r')) == Dropped(Pending(HistoryOf(r)), ByTid(tids)) && Settles(r, r', keep, tids)
    ensures BookIs(r', Complete(r.base, b, Changes(keep), tids))
  {
    var b' := Complete(r.base, b, Changes(keep), tids);
    WithoutIsDropped(Pending(HistoryOf(r)), tids);
    forall p ensures Published(r.base, b', p) == Settled(r.base(p), HistoryOf(r'), p, {}) {
      PagesInIs(HistoryOf(r), tids, p);
      assert Published(r.base, b, p) == Settled(r.base(p), HistoryOf(r), p, {});
      ApplyIsContent(Published(r.base, b, p), keep, p);
    }
  }

  lemma SeenIsView(r: Run, b: Book, p: PageAddress)
    requires Inv(r) && BookIs(r, b) && r.engine.running
    ensures Seen(r.base, b, p) == View(r.engine.pages, p)
    ensures Content(Settled(r.base(p), HistoryOf(r), p, {}), Pending(HistoryOf(r)), p) == View(r.engine.pages, p)
  {
    var log := HistoryOf(r);
    var none := WalIndex(0, 0);
    WithoutIsKept(r.base(p), log, p, {}, none);
    NothingUndone(r.base(p), log, p, {}, none);
    DroppedNone(Pending(log), ByScan({}, none));
    assert Published(r.base, b, p) == Settled(r.base(p), log, p, {});
    ApplyIsContent(Published(r.base, b, p), Pending(log), p);
  }

  // What the tail of an undo makes of the pending writes.

  lemma {:induction false} WritesArePending(log: seq<Entry>, writes: seq<Entry>)
    requires AllWrites(writes)
    ensures Pending(log + writes) == Pending(log) + writes
  {
    if writes == [] {
      assert log + writes == log && Pending(log) + writes == Pending(log);
    } else {
      var init, e := writes[..|writes| - 1], writes[|writes| - 1];
      WritesArePending(log, init);
      assert log + writes == (log + init) + [e] && Pending(log) + writes == (Pending(log) + init) + [e];
      PendingAppend(log + init, e);
    }
  }

  lemma {:induction false} DroppedUnion(log: seq<Entry>, a: set<nat>, b: set<nat>)
    ensures Dropped(Dropped(log, ByTid(a)), ByTid(b)) == Dropped(log, ByTid(a + b))
  {
    if log != [] {
      var init, e := log[..|log| - 1], log[|log| - 1];
      DroppedUnion(init, a, b);
      DroppedAppend(Dropped(init, ByTid(a)), e, ByTid(b));
    }
  }

  lemma {:induction false} CommitsDrop(log: seq<Entry>, commits: seq<Entry>, tids: seq<nat>)
    requires AllCommitted(commits, tids)
    ensures Pending(log + commits) == Dropped(Pending(log), ByTid(AsSet(tids)))
  {
    if commits == [] {
      assert log + commits == log;
      DroppedNone(Pending(log), ByTid(AsSet(tids)));
    } else {
      var n := |commits| - 1;
      CommitsDrop(log, commits[..n], tids[..n]);
      assert log + commits == (log + commits[..n]) + [commits[n]];
      PendingAppend(log + commits[..n], commits[n]);
      DroppedUnion(Pending(log), AsSet(tids[..n]), {tids[n]});
      AsSetAppend(tids);
    }
  }

  lemma AsSetAppend(tids: seq<nat>)
    requires tids != []
    ensures AsSet(tids) == AsSet(tids[..|tids| - 1]) + {tids[|tids| - 1]}
  {
    assert tids == tids[..|tids| - 1] + [tids[|tids| - 1]];
  }

  lemma {:induction false} DroppedTail(log: seq<Entry>, tail: seq<Entry>, f: Filter)
    requires forall i :: 0 <= i < |tail| ==> Drops(f, tail[i])
    ensures Dropped(log + tail, f) == Dropped(log, f)
  {
    if tail == [] {
      assert log + tail == log;
    } else {
      var n := |tail| - 1;
      DroppedTail(log, tail[..n], f);
      assert log + tail == (log + tail[..n]) + [tail[n]];
      DroppedAppend(log + tail[..n], tail[n], f);
    }
  }

  lemma UndoDrops(log: seq<Entry>, undone: seq<Entry>, commits: seq<Entry>, tids: seq<nat>)
    requires UndoneIsLive(log, undone, tids) && AllCommitted(commits, tids)
    ensures Pending(log + (undone + commits)) == Dropped(Pending(log), ByTid(AsSet(tids)))
  {
    assert log + (undone + commits) == (log + undone) + commits;
    WritesArePending(log, undone);
    CommitsDrop(log + undone, commits, tids);
    DroppedTail(Pending(log), undone, ByTid(AsSet(tids)));
  }

  // The steps.

  lemma WriteIs(r: Run, b: Book, s: Step)
    requires Inv(r) && CanStep(r, s) && s.WritePage? && BookIs(r, b)
    ensures BookIs(Next(r, s), BookStep(r.base, b, s))
  {
    var e, log := WriteEntry(r, s.t, s.p, s.offset, s.buf), HistoryOf(r);
    LoggedHistory(r, Next(r, s), e);
    PendingAppend(log, e);
    ChangesAppend(Pending(log), e);
    forall p ensures Published(r.base, b, p) == Settled(r.base(p), HistoryOf(Next(r, s)), p, {}) {
      WriteEffect(r, s, p);
    }
  }

  lemma SameBook(r: Run, r': Run, b: Book)
    requires BookIs(r, b) && r'.base == r.base && HistoryOf(r') == HistoryOf(r)
    ensures BookIs(r', b)
  {
    forall p ensures Published(r'.base, b, p) == Settled(r'.base(p), HistoryOf(r'), p, {}) {
      assert Published(r.base, b, p) == Settled(r.base(p), HistoryOf(r), p, {});
    }
  }

  /** The steps that log no items. */
  lemma QuietIs(r: Run, b: Book, s: Step)
    requires Inv(r) && CanStep(r, s) && BookIs(r, b)
    requires s.Begin? || s.RotateLog? || s.FlushPage? || s.CacheDidFlush? || s.Crash? || s.CrashInRedo?
    ensures BookIs(Next(r, s), BookStep(r.base, b, s))
  {
    QuietHistory(r, s);
    SameBook(r, Next(r, s), b);
  }

  lemma QuietHistory(r: Run, s: Step)
    requires r.engine.wal.gens != [] && Enabled(r, s)
    requires s.Begin? || s.RotateLog? || s.FlushPage? || s.CacheDidFlush? || s.Crash? || s.CrashInRedo?
    ensures HistoryOf(Next(r, s)) == HistoryOf(r) && Next(r, s).base == r.base
  {
    if s.RotateLog? { RotateHistory(r); }
  }

  lemma CheckpointIs(r: Run, b: Book)
    requires Inv(r) && CanStep(r, LogCheckpoint) && BookIs(r, b)
    ensures BookIs(Next(r, LogCheckpoint), b)
  {
    var e := Entry(NextIndex(r.engine.wal), CheckpointItem(r.engine.wal));
    LoggedHistory(r, Next(r, LogCheckpoint), e);
    PendingAppend(HistoryOf(r), e);
    forall p ensures Published(r.base, b, p) == Settled(r.base(p), HistoryOf(Next(r, LogCheckpoint)), p, {}) {
      assert Published(r.base, b, p) == Settled(r.base(p), HistoryOf(r), p, {});
    }
  }

  lemma CommitIs(r: Run, b: Book, t: nat)
    requires Inv(r) && CanStep(r, CommitTransaction(t)) && BookIs(r, b)
    ensures BookIs(Next(r, CommitTransaction(t)), BookStep(r.base, b, CommitTransaction(t)))
  {
    CommitPending(r, t);
    CommitSettles(r, b, t);
    CompleteIs(r, Next(r, CommitTransaction(t)), b, Pending(HistoryOf(r)), {t});
  }

  lemma CommitPending(r: Run, t: nat)
    requires Inv(r) && Enabled(r, CommitTransaction(t))
    ensures Pending(HistoryOf(Next(r, CommitTransaction(t)))) == Dropped(Pending(HistoryOf(r)), ByTid({t}))
  {
    var e := Entry(NextIndex(r.engine.wal), CommitItem(r.engine.wal, t));
    LoggedHistory(r, Next(r, CommitTransaction(t)), e);
    PendingAppend(HistoryOf(r), e);
  }

  lemma CommitSettles(r: Run, b: Book, t: nat)
    requires Inv(r) && Enabled(r, CommitTransaction(t)) && BookIs(r, b)
    ensures Settles(r, Next(r, CommitTransaction(t)), Pending(HistoryOf(r)), {t})
  {
    forall p ensures Settled(r.base(p), HistoryOf(Next(r, CommitTransaction(t))), p, {}) ==
                     if OwnedBy(HistoryOf(r), {t}, p)
                     then Content(Settled(r.base(p), HistoryOf(r), p, {}), Pending(HistoryOf(r)), p)
                     else Settled(r.base(p), HistoryOf(r), p, {})
    {
      CommitSettlesAt(r, b, t, p);
    }
  }

  lemma CommitSettlesAt(r: Run, b: Book, t: nat, p: PageAddress)
    requires Inv(r) && Enabled(r, CommitTransaction(t)) && BookIs(r, b)
    ensures Settled(r.base(p), HistoryOf(Next(r, CommitTransaction(t))), p, {}) ==
            if OwnedBy(HistoryOf(r), {t}, p)
            then Content(Settled(r.base(p), HistoryOf(r), p, {}), Pending(HistoryOf(r)), p)
            else Settled(r.base(p), HistoryOf(r), p, {})
  {
    CommitEffect(r, t, p);
    SeenIsView(r, b, p);
  }

  /** What is left of the pending writes by the original's scan is what the machine's scan leaves, and makes up the
      content that the original leaves. */
  lemma KeptIs(r: Run, b: Book, tids: seq<nat>) returns (keep: seq<Entry>)
    requires LogInv(r) && SessionInv(r) && BookIs(r, b) && forall t :: t in tids ==> t in Unfinished(HistoryOf(r))
    requires tids != []
    ensures AllWrites(keep) && Changes(keep) == Scan(b.pending, AsSet(tids), AsSet(tids))
    ensures forall p :: LeftBy(r, tids, p) == Content(Settled(r.base(p), HistoryOf(r), p, {}), keep, p)
  {
    var log := HistoryOf(r);
    LowestIsLeast(Unfinished(log), tids);
    assert tids[0] in tids;
    var bound := LowestIndex(Unfinished(log), tids).value;
    var j := BoundIsStop(log, tids, bound);
    PendingHasImages(log);
    PendingAscends(log);
    ScanIsDropped(Pending(log), |Pending(log)|, AsSet(tids), AsSet(tids), j);
    assert Pending(log)[..|Pending(log)|] == Pending(log);
    keep := Dropped(Pending(log), ByScan(AsSet(tids), bound));
    forall i | 0 <= i < |log| && Undoable(log[i], AsSet(tids), bound) ensures LiveAt(log, i) {
      UndoableIsLive(log, r.sessionStart, tids, bound, i);
    }
    forall p ensures LeftBy(r, tids, p) == Content(Settled(r.base(p), log, p, {}), keep, p) {
      WithoutIsKept(r.base(p), log, p, AsSet(tids), bound);
    }
  }

  lemma PendingHasImages(log: seq<Entry>)
    requires LiveHaveImages(log)
    ensures AllWrites(Pending(log)) && forall k :: 0 <= k < |Pending(log)| ==> Pending(log)[k].item.from.Some?
  {
    PendingIsLive(log);
    forall k | 0 <= k < |Pending(log)| ensures Pending(log)[k].item.from.Some? {
      assert Pending(log)[k] in Pending(log);
    }
  }

  lemma PendingAscends(log: seq<Entry>)
    requires Ascending(log)
    ensures Ascending(Pending(log))
  {
    PendingIsLive(log);
  }

  lemma UndoIs(r: Run, b: Book, t: nat)
    requires Inv(r) && CanStep(r, UndoTransaction(t)) && BookIs(r, b)
    ensures BookIs(Next(r, UndoTransaction(t)), BookStep(r.base, b, UndoTransaction(t)))
  {
    if t in r.engine.wal.tables.transactions {
      UndoSomethingIs(r, b, t);
    } else {
      NothingToUndo(r, t);
      NothingPending(HistoryOf(r), t);
      NothingCompleted(r, Next(r, UndoTransaction(t)), b, t);
    }
  }

  lemma UndoSomethingIs(r: Run, b: Book, t: nat)
    requires Inv(r) && CanStep(r, UndoTransaction(t)) && BookIs(r, b) && t in Unfinished(HistoryOf(r))
    ensures BookIs(Next(r, UndoTransaction(t)), Complete(r.base, b, Scan(b.pending, {t}, {t}), {t}))
  {
    var keep := KeptIs(r, b, [t]);
    UndoPending(r, t);
    SetOfOne(t);
    UndoSettles(r, t, keep);
    CompleteIs(r, Next(r, UndoTransaction(t)), b, keep, {t});
  }

  lemma UndoPending(r: Run, t: nat)
    requires Inv(r) && Enabled(r, UndoTransaction(t)) && t in Unfinished(HistoryOf(r))
    ensures Pending(HistoryOf(Next(r, UndoTransaction(t)))) == Dropped(Pending(HistoryOf(r)), ByTid({t}))
  {
    UndoIsUndoes(r, t);
    var undone, commits := UndoAppends(r, Next(r, UndoTransaction(t)), [t]);
    UndoDrops(HistoryOf(r), undone, commits, [t]);
    SetOfOne(t);
  }

  lemma UndoSettles(r: Run, t: nat, keep: seq<Entry>)
    requires Inv(r) && Enabled(r, UndoTransaction(t))
    requires forall p :: LeftBy(r, [t], p) == Content(Settled(r.base(p), HistoryOf(r), p, {}), keep, p)
    ensures Settles(r, Next(r, UndoTransaction(t)), keep, {t})
  {
    forall p ensures Settled(r.base(p), HistoryOf(Next(r, UndoTransaction(t))), p, {}) ==
                     if OwnedBy(HistoryOf(r), {t}, p) then Content(Settled(r.base(p), HistoryOf(r), p, {}), keep, p)
                     else Settled(r.base(p), HistoryOf(r), p, {})
    {
      UndoSettlesAt(r, t, p);
    }
  }

  lemma UndoSettlesAt(r: Run, t: nat, p: PageAddress)
    requires Inv(r) && Enabled(r, UndoTransaction(t))
    ensures Settled(r.base(p), HistoryOf(Next(r, UndoTransaction(t))), p, {}) ==
            if OwnedBy(HistoryOf(r), {t}, p) then LeftBy(r, [t], p) else Settled(r.base(p), HistoryOf(r), p, {})
  {
    UndoLeaves(r, t, p);
  }

  lemma SetOfOne(t: nat)
    ensures AsSet([t]) == {t}
  {
  }

  lemma NothingPending(log: seq<Entry>, t: nat)
    requires t !in Unfinished(log)
    ensures AllWrites(Pending(log)) && forall i :: 0 <= i < |Pending(log)| ==> Pending(log)[i].item.tid != t
    ensures forall p :: !OwnsPage(log, t, p)
  {
    PendingIsLive(log);
    TransactionsAreTheLiveOnes(log);
    forall i | 0 <= i < |Pending(log)| ensures Pending(log)[i].item.tid != t { assert Pending(log)[i] in Pending(log); }
  }

  lemma {:induction false} ScanNone(changes: seq<Change>, unseen: set<nat>, tids: set<nat>)
    requires forall i :: 0 <= i < |changes| ==> changes[i].tid !in tids
    ensures Scan(changes, unseen, tids) == changes
  {
    if changes != [] { ScanNone(changes[..|changes| - 1], unseen - {changes[|changes| - 1].tid}, tids); }
  }

  lemma NothingCompleted(r: Run, r': Run, b: Book, t: nat)
    requires BookIs(r, b) && r'.base == r.base && HistoryOf(r') == HistoryOf(r)
    requires AllWrites(Pending(HistoryOf(r)))
    requires forall i :: 0 <= i < |Pending(HistoryOf(r))| ==> Pending(HistoryOf(r))[i].item.tid != t
    requires forall p :: !OwnsPage(HistoryOf(r), t, p)
    ensures BookIs(r', Complete(r.base, b, Scan(b.pending, {t}, {t}), {t}))
  {
    ScanNone(b.pending, {t}, {t});
    DroppedNone(Pending(HistoryOf(r)), ByTid({t}));
    CompleteIs(r, r', b, Pending(HistoryOf(r)), {t});
  }

  lemma RecoverIs(r: Run, b: Book, tids: seq<nat>)
    requires Inv(r) && CanStep(r, Recover(tids)) && BookIs(r, b)
    ensures BookIs(Next(r, Recover(tids)), BookStep(r.base, b, Recover(tids)))
  {
    RecoverPending(r, tids);
    RedoneKeeps(r, tids);
    var keep := RecoverKept(r, b, tids);
    RecoverSettles(r, tids, keep);
    CompleteIs(r, Next(r, Recover(tids)), b, keep, AsSet(tids));
  }

  lemma RecoverSettles(r: Run, tids: seq<nat>, keep: seq<Entry>)
    requires Inv(r) && Enabled(r, Recover(tids))
    requires forall p :: LeftBy(r, tids, p) ==
                         if OwnedBy(HistoryOf(r), AsSet(tids), p)
                         then Content(Settled(r.base(p), HistoryOf(r), p, {}), keep, p)
                         else Settled(r.base(p), HistoryOf(r), p, {})
    ensures Settles(r, Next(r, Recover(tids)), keep, AsSet(tids))
  {
    forall p ensures Settled(r.base(p), HistoryOf(Next(r, Recover(tids))), p, {}) == LeftBy(r, tids, p) {
      RecoverLeaves(r, tids, p);
    }
  }

  lemma RecoverPending(r: Run, tids: seq<nat>)
    requires Inv(r) && Enabled(r, Recover(tids))
    ensures Pending(HistoryOf(Next(r, Recover(tids)))) == Dropped(Pending(HistoryOf(r)), ByTid(AsSet(tids)))
  {
    var undone, commits := RecoverAppends(r, tids);
    UndoDrops(HistoryOf(r), undone, commits, tids);
  }

  lemma AllAreLosers(log: seq<Entry>, tids: seq<nat>)
    requires Enumerates(tids, Unfinished(log))
    ensures forall t :: t in tids ==> t in Unfinished(log)
    ensures forall t, p :: OwnsPage(log, t, p) ==> t in AsSet(tids)
  {
    TransactionsAreTheLiveOnes(log);
    forall t | t in tids ensures t in Unfinished(log) { assert t in AsSet(tids); }
  }

  lemma RecoverKept(r: Run, b: Book, tids: seq<nat>) returns (keep: seq<Entry>)
    requires LogInv(r) && SessionInv(r) && BookIs(r, b) && Enumerates(tids, Unfinished(HistoryOf(r)))
    ensures AllWrites(keep) && Changes(keep) == Scan(b.pending, AsSet(tids), AsSet(tids))
    ensures forall p :: LeftBy(r, tids, p) ==
                        if OwnedBy(HistoryOf(r), AsSet(tids), p)
                        then Content(Settled(r.base(p), HistoryOf(r), p, {}), keep, p)
                        else Settled(r.base(p), HistoryOf(r), p, {})
  {
    var log := HistoryOf(r);
    AllAreLosers(log, tids);
    if tids == [] {
      keep := Pending(log);
      LowestIsLeast(Unfinished(log), tids);
    } else {
      keep := KeptIs(r, b, tids);
    }
    forall p ensures LeftBy(r, tids, p) ==
                     if OwnedBy(log, AsSet(tids), p) then Content(Settled(r.base(p), log, p, {}), keep, p)
                     else Settled(r.base(p), log, p, {})
    {
      if !OwnedBy(log, AsSet(tids), p) { UnownedIsSettled(r, tids, p); }
    }
  }

  lemma UnownedIsSettled(r: Run, tids: seq<nat>, p: PageAddress)
    requires LogInv(r) && SessionInv(r) && forall t :: t in tids ==> t in Unfinished(HistoryOf(r))
    requires forall t :: !OwnsPage(HistoryOf(r), t, p)
    ensures LeftBy(r, tids, p) == Settled(r.base(p), HistoryOf(r), p, {})
  {
    var log := HistoryOf(r);
    NoOwnerIsSettled(r, p);
    if LowestIndex(Unfinished(log), tids).Some? {
      var bound := LowestIndex(Unfinished(log), tids).value;
      forall i | 0 <= i < |log| && log[i].WritesTo(p) ensures !Undoable(log[i], AsSet(tids), bound) {
        LiveWritesOwn(log, p);
        if Undoable(log[i], AsSet(tids), bound) { UndoableIsLive(log, r.sessionStart, tids, bound, i); }
      }
      NothingUndone(r.base(p), log, p, AsSet(tids), bound);
    }
  }

  lemma StepIs(r: Run, b: Book, s: Step)
    requires Inv(r) && CanStep(r, s) && BookIs(r, b)
    ensures BookIs(Next(r, s), BookStep(r.base, b, s))
  {
    match s
    case WritePage(_, _, _, _) => WriteIs(r, b, s);
    case CommitTransaction(t) => CommitIs(r, b, t);
    case UndoTransaction(t) => UndoIs(r, b, t);
    case Recover(tids) => RecoverIs(r, b, tids);
    case LogCheckpoint => CheckpointIs(r, b);
    case RotateLog => QuietIs(r, b, s);
    case Begin => QuietIs(r, b, s);
    case FlushPage(_) => QuietIs(r, b, s);
    case CacheDidFlush => QuietIs(r, b, s);
    case Crash => QuietIs(r, b, s);
    case CrashInRedo(_) => QuietIs(r, b, s);
  }

  // ----- whole runs -----

  lemma {:induction false} RunIs(r: Run, b: Book, steps: seq<Step>)
    requires Inv(r) && CanRun(r, steps) && BookIs(r, b)
    ensures Inv(After(r, steps)) && BookIs(After(r, steps), BookAfter(r.base, b, steps))
            && After(r, steps).base == r.base
    decreases |steps|
  {
    if steps != [] {
      StepKeeps(r, steps[0]);
      StepIs(r, b, steps[0]);
      RunIs(Next(r, steps[0]), BookStep(r.base, b, steps[0]), steps[1..]);
    }
  }

  /** Every run, whatever its undos and recoveries reach, does what the machine does: while the store is up, every page
      that is read is as the machine has it, and the settled content of every page is the published one. */
  lemma EveryRunIsBooked(disk: map<PageAddress, seq<byte>>, steps: seq<Step>, p: PageAddress)
    requires WellSized(disk) && CanRun(Start(disk), steps)
    ensures var r, b := After(Start(disk), steps), BookAfter(Start(disk).base, Book(map[], []), steps);
            && Settled(r.base(p), HistoryOf(r), p, {}) == Published(Start(disk).base, b, p)
            && (r.engine.running ==> View(r.engine.pages, p) == Seen(Start(disk).base, b, p))
  {
    StartKeeps(disk);
    StartIsBooked(disk);
    RunIs(Start(disk), Book(map[], []), steps);
    RunIsSeen(After(Start(disk), steps), BookAfter(Start(disk).base, Book(map[], []), steps), p);
  }

  lemma RunIsSeen(r: Run, b: Book, p: PageAddress)
    requires Inv(r) && BookIs(r, b)
    ensures Settled(r.base(p), HistoryOf(r), p, {}) == Published(r.base, b, p)
    ensures r.engine.running ==> View(r.engine.pages, p) == Seen(r.base, b, p)
  {
    if r.engine.running { SeenIsView(r, b, p); }
  }

  lemma StartIsBooked(disk: map<PageAddress, seq<byte>>)
    requires WellSized(disk)
    ensures BookIs(Start(disk), Book(map[], []))
  {
    StartHistory(disk);
    PendingAppend([], FirstEntry());
    assert [] + [FirstEntry()] == [FirstEntry()];
    forall p ensures Published(Start(disk).base, Book(map[], []), p) ==
                     Settled(Start(disk).base(p), HistoryOf(Start(disk)), p, {}) {
      StartPage(disk, p);
    }
  }
}
