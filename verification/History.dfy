/** Redo and undo. */
module History {
  // What a log means for the contents of the pages, and why redo and undo compute the right contents.

  import opened Bytes
  import opened WalTypes
  import opened Tables

  // ----- contents -----

  function Patch(page: seq<byte>, e: Entry, p: PageAddress): (r: seq<byte>)
    ensures |r| == |page|
  {
    if e.WritesTo(p) then Overlay(page, e.item.offset, e.item.to) else page
  }

  /** The content of page `p` once every write in `log` has been applied to `base`, in log order. */
  function Content(base: seq<byte>, log: seq<Entry>, p: PageAddress): (r: seq<byte>)
    ensures |r| == |base|
  {
    if log == [] then base else Patch(Content(base, log[..|log| - 1], p), log[|log| - 1], p)
  }

  lemma ContentAppend(base: seq<byte>, log: seq<Entry>, e: Entry, p: PageAddress)
    ensures Content(base, log + [e], p) == Patch(Content(base, log, p), e, p)
  {
    assert (log + [e])[..|log|] == log;
  }

  lemma {:induction false} ContentConcat(base: seq<byte>, a: seq<Entry>, b: seq<Entry>, p: PageAddress)
    ensures Content(base, a + b, p) == Content(Content(base, a, p), b, p)
  {
    if b == [] {
      assert a + b == a;
    } else {
      var n := |b| - 1;
      ContentConcat(base, a, b[..n], p);
      assert (a + b)[..|a + b| - 1] == a + b[..n];
    }
  }

  lemma {:induction false} ContentUntouched(base: seq<byte>, log: seq<Entry>, p: PageAddress)
    requires forall i :: 0 <= i < |log| ==> !log[i].WritesTo(p)
    ensures Content(base, log, p) == base
  {
    if log != [] { ContentUntouched(base, log[..|log| - 1], p); }
  }

  // ----- redo -----

  ghost predicate SetsByte(e: Entry, p: PageAddress, i: nat) {
    e.WritesTo(p) && e.item.offset <= i < e.item.offset + |e.item.to|
  }

  /** Some write in `log` sets byte `i` of page `p`. */
  ghost predicate Sets(log: seq<Entry>, p: PageAddress, i: nat) {
    exists k :: 0 <= k < |log| && SetsByte(log[k], p, i)
  }

  /** A log determines the bytes it sets, whatever they were before, and leaves the others alone. */
  lemma {:induction false} ByteOfContent(x: seq<byte>, y: seq<byte>, log: seq<Entry>, p: PageAddress, i: nat)
    requires |x| == |y| && i < |x|
    ensures Sets(log, p, i) ==> Content(x, log, p)[i] == Content(y, log, p)[i]
    ensures !Sets(log, p, i) ==> Content(x, log, p)[i] == x[i]
  {
    if log != [] {
      var n := |log| - 1;
      var init, e := log[..n], log[n];
      ByteOfContent(x, y, init, p, i);
      assert forall k :: 0 <= k < n ==> init[k] == log[k];
      assert Sets(log, p, i) <==> Sets(init, p, i) || SetsByte(e, p, i);
    }
  }

  /** Redo is exact precisely when the disk already holds, in every byte that is not replayed, what the history
      had put there before the replay starts. */
  lemma RedoIsExactIff(base: seq<byte>, disk: seq<byte>, log: seq<Entry>, start: nat, p: PageAddress)
    requires start <= |log| && |disk| == |base|
    ensures Content(disk, log[start..], p) == Content(base, log, p)
       <==> (forall i :: 0 <= i < |base| && !Sets(log[start..], p, i) ==> disk[i] == Content(base, log[..start], p)[i])
  {
    var tail, before := log[start..], Content(base, log[..start], p);
    assert log == log[..start] + tail;
    ContentConcat(base, log[..start], tail, p);
    forall i: nat | i < |base|
      ensures Sets(tail, p, i) ==> Content(disk, tail, p)[i] == Content(before, tail, p)[i]
      ensures !Sets(tail, p, i) ==> Content(disk, tail, p)[i] == disk[i] && Content(before, tail, p)[i] == before[i]
    {
      ByteOfContent(disk, before, tail, p, i);
      ByteOfContent(before, disk, tail, p, i);
    }
    if Content(disk, tail, p) == Content(before, tail, p) {
      forall i | 0 <= i < |base| && !Sets(tail, p, i) ensures disk[i] == before[i] {
        assert Content(disk, tail, p)[i] == Content(before, tail, p)[i];
      }
    }
  }

  /** Byte by byte, `disk` holds what some prefix of the history, no shorter than `start`, made of page `p`. */
  ghost predicate ReflectsFrom(base: seq<byte>, disk: seq<byte>, log: seq<Entry>, start: nat, p: PageAddress) {
    |disk| == |base| && forall i :: 0 <= i < |base| ==> ByteReflects(base, disk, log, start, p, i)
  }

  ghost predicate ByteReflects(base: seq<byte>, disk: seq<byte>, log: seq<Entry>, start: nat, p: PageAddress, i: nat)
    requires i < |base| == |disk|
  {
    exists k :: start <= k <= |log| && disk[i] == Content(base, log[..k], p)[i]
  }

  /** A page that reflects a history reflects every longer one. */
  lemma ReflectsMore(base: seq<byte>, disk: seq<byte>, log: seq<Entry>, tail: seq<Entry>, start: nat, p: PageAddress)
    requires ReflectsFrom(base, disk, log, start, p)
    ensures ReflectsFrom(base, disk, log + tail, start, p)
  {
    forall i: nat | i < |base| ensures ByteReflects(base, disk, log + tail, start, p, i) {
      assert ByteReflects(base, disk, log, start, p, i);
      var k :| start <= k <= |log| && disk[i] == Content(base, log[..k], p)[i];
      assert (log + tail)[..k] == log[..k];
    }
  }

  lemma ReflectsNow(base: seq<byte>, log: seq<Entry>, p: PageAddress)
    ensures ReflectsFrom(base, Content(base, log, p), log, |log|, p)
  {
    assert log[..|log|] == log;
    assert forall i: nat :: i < |base| ==> ByteReflects(base, Content(base, log, p), log, |log|, p, i);
  }

  /** Redo repeats history: however many of the replayed writes the disk already held, and even if different bytes of
      it come from different moments, replaying all of them gives the latest content. */
  lemma RedoRepeatsHistory(base: seq<byte>, disk: seq<byte>, log: seq<Entry>, start: nat, p: PageAddress)
    requires start <= |log| && ReflectsFrom(base, disk, log, start, p)
    ensures Content(disk, log[start..], p) == Content(base, log, p)
  {
    forall i: nat | i < |base| && !Sets(log[start..], p, i)
      ensures disk[i] == Content(base, log[..start], p)[i]
    {
      assert ByteReflects(base, disk, log, start, p, i);
      var k :| start <= k <= |log| && disk[i] == Content(base, log[..k], p)[i];
      var mid := log[start..k];
      assert log[..k] == log[..start] + mid;
      ContentConcat(base, log[..start], mid, p);
      SetsInPart(log, start, k, p, i);
      ByteOfContent(Content(base, log[..start], p), Content(base, log[..start], p), mid, p, i);
    }
    RedoIsExactIff(base, disk, log, start, p);
  }

  lemma SetsInPart(log: seq<Entry>, start: nat, end: nat, p: PageAddress, i: nat)
    requires start <= end <= |log|
    ensures Sets(log[start..end], p, i) ==> Sets(log[start..], p, i)
  {
    assert forall m :: 0 <= m < end - start ==> log[start..end][m] == log[start..][m];
  }

  /** A redo interrupted anywhere leaves a disk from which a fresh redo still succeeds: no byte goes back further
      than it was, or than the place that the redo had come to. */
  lemma InterruptedRedo(base: seq<byte>, disk: seq<byte>, log: seq<Entry>, from: nat, start: nat, done: nat,
                        p: PageAddress)
    requires start <= done <= |log| && ReflectsFrom(base, disk, log, from, p)
    ensures ReflectsFrom(base, Content(disk, log[start..done], p), log, if from < done then from else done, p)
  {
    var mid := log[start..done];
    assert log[..done] == log[..start] + mid;
    ContentConcat(base, log[..start], mid, p);
    var least := if from < done then from else done;
    forall i: nat | i < |base| ensures ByteReflects(base, Content(disk, mid, p), log, least, p, i) {
      ByteOfContent(disk, Content(base, log[..start], p), mid, p, i);
      if Sets(mid, p, i) {
        assert Content(disk, mid, p)[i] == Content(base, log[..done], p)[i];
      } else {
        assert ByteReflects(base, disk, log, from, p, i);
      }
    }
  }

  // ----- undo -----

  /** The write that undoes a logged write: its before-image goes back. */
  datatype Compensation = Compensation(tid: nat, page: PageAddress, offset: nat, to: seq<byte>)

  /** The entries the undo scan acts on. */
  predicate Undoable(e: Entry, losers: set<nat>, bound: WalIndex) {
    e.item.Write? && e.item.tid in losers && e.item.from.Some? && !e.index.Before(bound)
  }

  function Inverse(e: Entry): Compensation
    requires e.item.Write? && e.item.from.Some?
  {
    Compensation(e.item.tid, e.item.page, e.item.offset, e.item.from.value)
  }

  /** The undo scan: backwards from the end of the log, up to the first entry before `bound`. */
  function Compensations(log: seq<Entry>, losers: set<nat>, bound: WalIndex): seq<Compensation> {
    if log == [] then []
    else
      var e := log[|log| - 1];
      if e.index.Before(bound) then []
      else (if Undoable(e, losers, bound) then [Inverse(e)] else []) + Compensations(log[..|log| - 1], losers, bound)
  }

  function ApplyTo(page: seq<byte>, comps: seq<Compensation>, p: PageAddress): (r: seq<byte>)
    ensures |r| == |page|
    decreases |comps|
  {
    if comps == [] then page
    else ApplyTo(if comps[0].page == p then Overlay(page, comps[0].offset, comps[0].to) else page, comps[1..], p)
  }

  /** Every logged before-image is the bytes the write replaced, and every write lies within its page. */
  ghost predicate Consistent(base: PageAddress -> seq<byte>, log: seq<Entry>) {
    forall i :: 0 <= i < |log| ==> TrueImage(base, log, i)
  }

  ghost predicate TrueImage(base: PageAddress -> seq<byte>, log: seq<Entry>, i: nat)
    requires i < |log|
  {
    var item := log[i].item;
    item.Write? ==>
      && item.offset + |item.to| <= |base(item.page)|
      && (item.from.Some? ==>
            item.from.value == Content(base(item.page), log[..i], item.page)[item.offset..item.offset + |item.to|])
  }

  lemma ConsistentPrefix(base: PageAddress -> seq<byte>, log: seq<Entry>, n: nat)
    requires n <= |log| && Consistent(base, log)
    ensures Consistent(base, log[..n])
  {
    forall i | 0 <= i < n ensures TrueImage(base, log[..n], i) {
      assert TrueImage(base, log, i);
      assert log[..n][..i] == log[..i];
    }
  }

  /** The content of `p` as if the writes the scan acts on had never happened. */
  function ContentWithout(base: seq<byte>, log: seq<Entry>, p: PageAddress, losers: set<nat>,
                          bound: WalIndex): seq<byte> {
    if log == [] then base
    else
      var e, before := log[|log| - 1], ContentWithout(base, log[..|log| - 1], p, losers, bound);
      if Undoable(e, losers, bound) then before else Patch(before, e, p)
  }

  /** What the lock on page `p` guarantees the scan: once it has a write to undo on `p`, all later writes to `p`
      are to be undone as well. */
  ghost predicate UndoableAreLast(log: seq<Entry>, p: PageAddress, losers: set<nat>, bound: WalIndex) {
    forall i, j :: 0 <= i < j < |log| && log[i].WritesTo(p) && log[j].WritesTo(p) && Undoable(log[i], losers, bound)
                   ==> Undoable(log[j], losers, bound)
  }

  /** Undo inverts history: the before-images, newest first, leave each page as if the undone writes had never
      happened, however the writes to the different pages were interleaved. */
  lemma {:induction false} UndoInvertsHistory(base: PageAddress -> seq<byte>, log: seq<Entry>, p: PageAddress,
                                              losers: set<nat>, bound: WalIndex)
    requires Ascending(log) && Consistent(base, log) && UndoableAreLast(log, p, losers, bound)
    ensures ApplyTo(Content(base(p), log, p), Compensations(log, losers, bound), p)
         == ContentWithout(base(p), log, p, losers, bound)
  {
    if log != [] {
      var n := |log| - 1;
      var init, e := log[..n], log[n];
      ConsistentPrefix(base, log, n);
      var before := Content(base(p), init, p);
      if e.index.Before(bound) {
        assert forall i :: 0 <= i < |log| ==> !Undoable(log[i], losers, bound);
        NothingUndone(base(p), log, p, losers, bound);
      } else if Undoable(e, losers, bound) {
        UndoInvertsHistory(base, init, p, losers, bound);
        var rest := Compensations(init, losers, bound);
        assert Compensations(log, losers, bound)[1..] == rest;
        if e.WritesTo(p) {
          assert TrueImage(base, log, n);
          OverlayInverse(before, e.item.offset, e.item.to);
        }
      } else if e.WritesTo(p) {
        assert forall i :: 0 <= i < n && init[i].WritesTo(p) ==> !Undoable(init[i], losers, bound);
        CompensationsElsewhere(init, p, losers, bound);
        NothingApplied(Content(base(p), log, p), Compensations(init, losers, bound), p);
        assert Compensations(log, losers, bound) == Compensations(init, losers, bound);
        NothingUndone(base(p), log, p, losers, bound);
      } else {
        UndoInvertsHistory(base, init, p, losers, bound);
        assert Compensations(log, losers, bound) == Compensations(init, losers, bound);
      }
    }
  }

  lemma {:induction false} NothingUndone(base: seq<byte>, log: seq<Entry>, p: PageAddress, losers: set<nat>,
                                         bound: WalIndex)
    requires forall i :: 0 <= i < |log| && log[i].WritesTo(p) ==> !Undoable(log[i], losers, bound)
    ensures ContentWithout(base, log, p, losers, bound) == Content(base, log, p)
  {
    if log != [] { NothingUndone(base, log[..|log| - 1], p, losers, bound); }
  }

  lemma {:induction false} CompensationsElsewhere(log: seq<Entry>, p: PageAddress, losers: set<nat>, bound: WalIndex)
    requires forall i :: 0 <= i < |log| && log[i].WritesTo(p) ==> !Undoable(log[i], losers, bound)
    ensures forall k :: 0 <= k < |Compensations(log, losers, bound)| ==> Compensations(log, losers, bound)[k].page != p
  {
    if log != [] { CompensationsElsewhere(log[..|log| - 1], p, losers, bound); }
  }

  lemma {:induction false} NothingApplied(page: seq<byte>, comps: seq<Compensation>, p: PageAddress)
    requires forall k :: 0 <= k < |comps| ==> comps[k].page != p
    ensures ApplyTo(page, comps, p) == page
  {
    if comps != [] { NothingApplied(page, comps[1..], p); }
  }

  /** Every compensation undoes a write that is in the log. */
  lemma {:induction false} CompensationsComeFromTheLog(log: seq<Entry>, losers: set<nat>, bound: WalIndex, k: nat)
    returns (i: nat)
    requires k < |Compensations(log, losers, bound)|
    ensures i < |log| && Undoable(log[i], losers, bound) && Inverse(log[i]) == Compensations(log, losers, bound)[k]
  {
    var n := |log| - 1;
    var here := if Undoable(log[n], losers, bound) then [Inverse(log[n])] else [];
    if k < |here| {
      i := n;
    } else {
      i := CompensationsComeFromTheLog(log[..n], losers, bound, k - |here|);
    }
  }

  // ----- what the completed transactions wrote -----

  /** The content of `p` under the writes of completed transactions only: a write counts when a commit of its
      transaction follows it in the log, or when its transaction is one of `done`. */
  function Settled(base: seq<byte>, log: seq<Entry>, p: PageAddress, done: set<nat>): (r: seq<byte>)
    ensures |r| == |base|
    decreases |log|
  {
    if log == [] then base
    else
      var e, init := log[|log| - 1], log[..|log| - 1];
      match e.item
      case Commit(tid, _) => Settled(base, init, p, done + {tid})
      case Write(tid, _, _, _, _, _) =>
        var before := Settled(base, init, p, done);
        if tid in done then Patch(before, e, p) else before
      case Checkpoint(_, _) => Settled(base, init, p, done)
  }

  /** The lock discipline, read off the log: between writes of two transactions to one page, the first completes. */
  ghost predicate LocksHeld(log: seq<Entry>) {
    forall i, j :: 0 <= i < j < |log| && log[i].item.Write? && log[j].WritesTo(log[i].item.page)
                   && log[i].item.tid != log[j].item.tid
                   ==> CommittedBetween(log, i, j)
  }

  ghost predicate CommittedBetween(log: seq<Entry>, i: nat, j: nat)
    requires i < j < |log| && log[i].item.Write?
  {
    exists k :: i < k < j && log[k].IsCommitOf(log[i].item.tid)
  }

  /** With every write settled, nothing is missing from the content. */
  lemma {:induction false} AllSettled(base: seq<byte>, log: seq<Entry>, p: PageAddress, done: set<nat>)
    requires forall i :: 0 <= i < |log| && log[i].WritesTo(p) && LiveAt(log, i) ==> log[i].item.tid in done
    ensures Settled(base, log, p, done) == Content(base, log, p)
  {
    if log != [] {
      var n := |log| - 1;
      var init, e := log[..n], log[n];
      var done' := if e.item.Commit? then done + {e.item.tid} else done;
      forall i | 0 <= i < n && init[i].WritesTo(p) && LiveAt(init, i) ensures init[i].item.tid in done' {
        assert log[i] == init[i];
        assert LiveAt(log, i) || e.IsCommitOf(log[i].item.tid);
      }
      AllSettled(base, init, p, done');
      if e.WritesTo(p) { assert LiveAt(log, n); }
    }
  }
}
