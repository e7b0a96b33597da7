/** The slots of the page cache, and the map from the addresses of cached pages to them. */
module PageCache {
  import opened Bytes
  import opened WalTypes
  import R = Replacer

  type Body = s: seq<byte> | |s| == PAGE_BODY_SIZE witness ZeroPage()

  /** A slot of the buffer: the header and the body of a page. */
  datatype Slot = Slot(generation: nat, offset: nat, dirty: bool, body: Body)

  const ZERO_SLOT := Slot(0, 0, false, ZeroPage())

  datatype Eviction = Nothing | Evicted(page: PageAddress) | Panic

  // ----- looking for another victim -----

  /** The new page waits at place `p` of the queue, clear, and a victim that is put back will be put behind it. */
  ghost predicate Waits<T>(s: R.Caches<T>, page: T, victim: T, p: nat) {
    && p < |R.Queue(s)| && R.Queue(s)[p] == R.ClockItem(page, false)
    && (p >= |s.recent| ==> victim in s.frequentHistory.itemSet)
  }

  /** Where the new page stands in the queue once it has replaced the first victim. */
  ghost function PlaceOf<T>(s: R.Caches<T>, page: T): nat
    requires R.Shaped(s) && R.IsFull(s)
  {
    R.EvictedShape(s);
    if page in R.Evicted(s).frequentHistory.itemSet then s.size - 1 else |R.Evicted(s).recent|
  }

  lemma FirstWaits<T>(s: R.Caches<T>, page: T)
    requires R.Shaped(s) && R.IsFull(s)
    ensures Waits(R.Replaced(s, page), page, R.Victim(s).value, PlaceOf(s, page))
  {
    R.EvictedShape(s);
  }

  /** Where the new page moves to when a victim is put back. */
  ghost function MovesTo<T>(s: R.Caches<T>, p: nat): nat {
    var k := R.FirstClear(R.Queue(s));
    if k < p then p - k - 1 else 0
  }

  /** When the victim is put back, either the new page is the next victim, or it moves up past the next victim and all
      items in front of that, and what was between them stays as it was. */
  lemma WaitMoves<T>(s: R.Caches<T>, page: T, victim: T, p: nat)
    requires R.Shaped(s) && R.IsFull(s) && Waits(s, page, victim, p)
    ensures var q, k := R.Queue(s), R.FirstClear(R.Queue(s));
            && k <= p && R.Victim(s) == Some(q[k].value)
            && (k < p ==>
                  && Waits(R.Replaced(s, victim), page, q[k].value, p - k - 1)
                  && R.Queue(R.Replaced(s, victim))[..p - k - 1] == q[k + 1..p])
  {
    if R.FirstClear(R.Queue(s)) < p {
      WaitsEvicted(s, page, victim, p);
      R.EvictedShape(s);
      var e := R.Evicted(s);
      InsertedBehind(if R.InHistory(e, victim) then e else R.HistoryTrimmed(e), victim, MovesTo(s, p));
    }
  }

  /** The new page after the eviction, before the old victim is put back. */
  lemma WaitsEvicted<T>(s: R.Caches<T>, page: T, victim: T, p: nat)
    requires R.Shaped(s) && R.IsFull(s) && Waits(s, page, victim, p) && R.FirstClear(R.Queue(s)) < p
    ensures var q, k, e := R.Queue(s), R.FirstClear(R.Queue(s)), R.Evicted(s);
            && p - k - 1 < |R.Queue(e)| && R.Queue(e)[..p - k - 1] == q[k + 1..p] && R.Queue(e)[p - k - 1] == q[p]
            && (p - k - 1 >= |e.recent| ==> victim in e.frequentHistory.itemSet)
            && q[k].value in e.frequentHistory.itemSet
  {
    R.EvictedQueue(s);
    RemainingAhead(R.Queue(s), p);
  }

  lemma RemainingAhead<T>(q: seq<R.ClockItem<T>>, p: nat)
    requires R.FirstClear(q) < p < |q|
    ensures var k := R.FirstClear(q);
            && p - k - 1 < |R.Remaining(q)|
            && R.Remaining(q)[..p - k - 1] == q[k + 1..p] && R.Remaining(q)[p - k - 1] == q[p]
  {
  }

  /** A value that is put in behind a place leaves the queue up to that place as it is. */
  lemma InsertedBehind<T>(s: R.Caches<T>, value: T, p: nat)
    requires p < |R.Queue(s)| && (p < |s.recent| || value in s.frequentHistory.itemSet)
    ensures var next := R.Inserted(s, value);
            R.Queue(next)[..p + 1] == R.Queue(s)[..p + 1] && (p >= |next.recent| ==> p >= |s.recent|)
  {
  }

  // ----- what the search comes to -----

  type Indices = map<PageAddress, nat>

  /** The page has a slot, and a guard is held on it. */
  ghost predicate InUse(page: PageAddress, indices: Indices, locked: set<nat>) {
    page in indices && indices[page] in locked
  }

  /** The first of the clear items in front of place `p` whose slot is not in use. If that has no slot, or if there is
      none and the search arrives at the page that is being stored, it panics. */
  ghost function Search(q: seq<R.ClockItem<PageAddress>>, p: nat, indices: Indices, locked: set<nat>): Eviction
    requires p <= |q|
  {
    if p == 0 then Panic
    else if q[0].referenced || InUse(q[0].value, indices, locked) then Search(q[1..], p - 1, indices, locked)
    else if q[0].value in indices then Evicted(q[0].value)
    else Panic
  }

  /** The outcome of making room for a page that is not cached. */
  ghost function Outcome(s: R.Caches<PageAddress>, page: PageAddress, indices: Indices, locked: set<nat>): Eviction
    requires R.Shaped(s)
  {
    if R.Victim(s).None? then Nothing
    else
      FirstWaits(s, page);
      Rest(R.Replaced(s, page), R.Victim(s).value, PlaceOf(s, page), indices, locked)
  }

  /** What is still to come when `candidate` is the victim. */
  ghost function Rest(s: R.Caches<PageAddress>, candidate: PageAddress, p: nat, indices: Indices,
                                  locked: set<nat>): Eviction
  {
    if candidate !in indices then Panic
    else if indices[candidate] !in locked then Evicted(candidate)
    else if p <= |R.Queue(s)| then Search(R.Queue(s), p, indices, locked)
    else Nothing
  }

  /** Every clear item in front of place `p` is in use. */
  ghost predicate AllInUse(q: seq<R.ClockItem<PageAddress>>, p: nat, indices: Indices, locked: set<nat>)
    requires p <= |q|
  {
    forall j :: 0 <= j < p && !q[j].referenced ==> InUse(q[j].value, indices, locked)
  }

  /** The item at place `m` is clear, and has no slot. */
  ghost predicate IsLost(q: seq<R.ClockItem<PageAddress>>, m: nat, indices: Indices)
    requires m < |q|
  {
    !q[m].referenced && q[m].value !in indices
  }

  lemma {:induction false} SearchPanicsIff(q: seq<R.ClockItem<PageAddress>>, p: nat, indices: Indices, locked: set<nat>)
    requires p <= |q|
    ensures Search(q, p, indices, locked) == Panic <==>
            exists m :: 0 <= m <= p && AllInUse(q, m, indices, locked) && (m == p || IsLost(q, m, indices))
  {
    if p == 0 {
      assert AllInUse(q, 0, indices, locked);
    } else if q[0].referenced || InUse(q[0].value, indices, locked) {
      SearchPanicsIff(q[1..], p - 1, indices, locked);
      SkipsFirst(q, p, indices, locked);
    } else {
      assert AllInUse(q, 0, indices, locked);
      assert IsLost(q, 0, indices) <==> q[0].value !in indices;
    }
  }

  /** A first item that is passed over does not matter. */
  lemma SkipsFirst(q: seq<R.ClockItem<PageAddress>>, p: nat, indices: Indices, locked: set<nat>)
    requires 0 < p <= |q| && (q[0].referenced || InUse(q[0].value, indices, locked))
    ensures (exists m :: 0 <= m <= p && AllInUse(q, m, indices, locked) && (m == p || IsLost(q, m, indices))) <==>
            exists m :: 0 <= m <= p - 1 && AllInUse(q[1..], m, indices, locked)
                        && (m == p - 1 || IsLost(q[1..], m, indices))
  {
    if m :| 0 <= m <= p && AllInUse(q, m, indices, locked) && (m == p || IsLost(q, m, indices)) {
      if m > 0 {
        assert forall j :: 0 <= j < m - 1 ==> q[1..][j] == q[j + 1];
        assert AllInUse(q[1..], m - 1, indices, locked);
      }
    }
    if m :| 0 <= m <= p - 1 && AllInUse(q[1..], m, indices, locked) && (m == p - 1 || IsLost(q[1..], m, indices)) {
      assert forall j :: 0 < j < m + 1 ==> q[j] == q[1..][j - 1];
      assert AllInUse(q, m + 1, indices, locked);
    }
  }

  /** Making room panics if and only if the cache is full, and the first victim has no slot; or it is in use, and so are
      the cached pages with a clear bit that come next, up to the new page or to one that has no slot. A page that was
      referenced does not help, even if its slot is free: it has lost its bit, but stands behind the new page. */
  lemma StorePanicsIff(s: R.Caches<PageAddress>, page: PageAddress, indices: Indices, locked: set<nat>)
    requires R.Shaped(s)
    ensures Outcome(s, page, indices, locked) == Panic <==>
            && R.Victim(s).Some?
            && (R.Victim(s).value in indices ==>
                  && indices[R.Victim(s).value] in locked && PlaceOf(s, page) <= |R.Queue(R.Replaced(s, page))|
                  && var q, p := R.Queue(R.Replaced(s, page)), PlaceOf(s, page);
                  exists m :: 0 <= m <= p && AllInUse(q, m, indices, locked) && (m == p || IsLost(q, m, indices)))
  {
    if R.Victim(s).Some? {
      FirstWaits(s, page);
      SearchPanicsIff(R.Queue(R.Replaced(s, page)), PlaceOf(s, page), indices, locked);
    }
  }

  /** While every page in the clocks has its slot, it panics if and only if the cache is full, the first victim is in
      use, and so is every other page that stands in front of the new one with a clear bit. */
  lemma WholePanicsIff(s: R.Caches<PageAddress>, page: PageAddress, indices: Indices, locked: set<nat>)
    requires R.Ok(s) && indices.Keys == R.Residents(s) && page !in indices
    ensures Outcome(s, page, indices, locked) == Panic <==>
            && R.Victim(s).Some? && InUse(R.Victim(s).value, indices, locked)
            && PlaceOf(s, page) <= |R.Queue(R.Replaced(s, page))|
            && AllInUse(R.Queue(R.Replaced(s, page)), PlaceOf(s, page), indices, locked)
  {
    StorePanicsIff(s, page, indices, locked);
    if R.Victim(s).Some? {
      R.ReplacedResidents(s, page);
      FirstWaits(s, page);
      NoneIsLost(R.Replaced(s, page), page, PlaceOf(s, page), R.Victim(s).value, indices);
    }
  }

  lemma NoneIsLost(s: R.Caches<PageAddress>, page: PageAddress, p: nat, victim: PageAddress, indices: Indices)
    requires R.Ok(s) && p < |R.Queue(s)| && R.Queue(s)[p].value == page
             && R.Residents(s) == indices.Keys - {victim} + {page}
    ensures forall m :: 0 <= m < p ==> !IsLost(R.Queue(s), m, indices)
  {
    forall m | 0 <= m < p ensures R.Queue(s)[m].value in indices {
      assert R.Values(R.Queue(s))[m] in R.Residents(s) && R.Values(R.Queue(s))[m] != R.Values(R.Queue(s))[p];
    }
  }

  lemma {:induction false} SearchSkips(q: seq<R.ClockItem<PageAddress>>, p: nat, k: nat, indices: Indices,
                                       locked: set<nat>)
    requires k <= p <= |q| && forall j :: 0 <= j < k ==> q[j].referenced
    ensures Search(q, p, indices, locked) == Search(q[k..], p - k, indices, locked)
  {
    if k == 0 {
      assert q[0..] == q;
    } else {
      SearchSkips(q[1..], p - 1, k - 1, indices, locked);
      assert q[1..][k - 1..] == q[k..];
    }
  }

  lemma {:induction false} SearchLooksAhead(q: seq<R.ClockItem<PageAddress>>, q': seq<R.ClockItem<PageAddress>>, p: nat,
                                            indices: Indices, locked: set<nat>)
    requires p <= |q| && p <= |q'| && q[..p] == q'[..p]
    ensures Search(q, p, indices, locked) == Search(q', p, indices, locked)
  {
    if p > 0 {
      assert q[0] == q[..p][0] && q'[0] == q'[..p][0];
      assert q[1..][..p - 1] == q[..p][1..] && q'[1..][..p - 1] == q'[..p][1..];
      SearchLooksAhead(q[1..], q'[1..], p - 1, indices, locked);
    }
  }

  lemma SearchMoves(q: seq<R.ClockItem<PageAddress>>, k: nat, p: nat, next: seq<R.ClockItem<PageAddress>>,
                    indices: Indices,
                    locked: set<nat>)
    requires k == R.FirstClear(q) <= p < |q|
    requires k < p ==> p - k - 1 <= |next| && next[..p - k - 1] == q[k + 1..p]
    ensures k == p ==> Search(q, p, indices, locked) == Panic
    ensures k < p ==>
              Search(q, p, indices, locked) ==
              if InUse(q[k].value, indices, locked) then Search(next, p - k - 1, indices, locked)
              else if q[k].value in indices then Evicted(q[k].value)
              else Panic
  {
    SearchSkips(q, p, k, indices, locked);
    if k < p {
      assert q[k..][1..] == q[k + 1..] && q[k + 1..][..p - k - 1] == q[k + 1..p];
      SearchLooksAhead(q[k + 1..], next, p - k - 1, indices, locked);
    }
  }

  // ----- the search as it goes -----

  /** `candidate` has been taken out of what was in the clocks, and `page` put in. */
  ghost predicate Retrying(s: R.Caches<PageAddress>, all: multiset<PageAddress>, indices: Indices, page: PageAddress,
                                       candidate: PageAddress, p: nat) {
    && R.Shaped(s) && R.IsFull(s) && page !in indices
    && multiset(R.Values(R.Queue(s))) + multiset{candidate} == all + multiset{page}
    && (candidate in indices ==> Waits(s, page, candidate, p))
  }

  lemma RetryStarts(s: R.Caches<PageAddress>, indices: Indices, page: PageAddress)
    requires R.Shaped(s) && R.Victim(s).Some? && page !in indices
    ensures Retrying(R.Replaced(s, page), multiset(R.Values(R.Queue(s))), indices, page, R.Victim(s).value,
                     PlaceOf(s, page))
  {
    R.ReplacedCount(s, page);
    FirstWaits(s, page);
  }

  lemma RetryMoves(s: R.Caches<PageAddress>, all: multiset<PageAddress>, indices: Indices, page: PageAddress,
                               candidate: PageAddress, p: nat)
    requires Retrying(s, all, indices, page, candidate, p) && candidate in indices
    ensures R.Victim(s).Some?
    ensures Retrying(R.Replaced(s, candidate), all, indices, page, R.Victim(s).value, MovesTo(s, p))
    ensures R.Victim(s).value !in indices || MovesTo(s, p) < p
  {
    R.ReplacedCount(s, candidate);
    WaitMoves(s, page, candidate, p);
    CountMoves(multiset(R.Values(R.Queue(s))), multiset(R.Values(R.Queue(R.Replaced(s, candidate)))),
               all + multiset{page},
               candidate, R.Victim(s).value);
  }

  lemma CountMoves(a: multiset<PageAddress>, b: multiset<PageAddress>, all: multiset<PageAddress>, out: PageAddress,
                   next: PageAddress)
    requires a + multiset{out} == all && b + multiset{next} == a + multiset{out}
    ensures b + multiset{next} == all
  {
  }

  /** Putting back a victim that is in use does not change what the search comes to. */
  lemma RestStays(s: R.Caches<PageAddress>, page: PageAddress, candidate: PageAddress, p: nat, indices: Indices,
                              locked: set<nat>)
    requires R.Shaped(s) && R.IsFull(s) && Waits(s, page, candidate, p) && page !in indices
    requires InUse(candidate, indices, locked)
    ensures Rest(R.Replaced(s, candidate), R.Victim(s).value, MovesTo(s, p), indices, locked)
         == Rest(s, candidate, p, indices, locked)
  {
    WaitMoves(s, page, candidate, p);
    SearchMoves(R.Queue(s), R.FirstClear(R.Queue(s)), p, R.Queue(R.Replaced(s, candidate)), indices, locked);
  }

  // ----- how little it takes -----

  /** When every cached page has been referenced and the new page is not in the history, the search panics as soon as
      the first victim is in use, however many other slots are free. */
  lemma AllReferencedPanics(s: R.Caches<PageAddress>, page: PageAddress, indices: Indices, locked: set<nat>)
    requires R.Shaped(s) && R.IsFull(s) && !R.InHistory(s, page) && page !in indices
    requires forall j :: 0 <= j < |R.Queue(s)| ==> R.Queue(s)[j].referenced
    ensures R.Victim(s) == Some(R.Queue(s)[0].value)
    ensures var first := R.Queue(s)[0].value;
            Outcome(s, page, indices, locked) ==
            if first in indices && indices[first] !in locked then Evicted(first) else Panic
  {
    R.EvictedShape(s);
    FirstWaits(s, page);
    if page != R.Queue(s)[0].value { assert PlaceOf(s, page) == 0; }
  }

  /** A page that is in the clocks without a slot, as one that could not be read, makes the search panic when its turn
      comes, even if no page is in use at all. */
  lemma LostVictimPanics(s: R.Caches<PageAddress>, page: PageAddress, indices: Indices)
    requires R.Shaped(s) && R.Victim(s).Some? && R.Victim(s).value !in indices
    ensures Outcome(s, page, indices, {}) == Panic
  {
  }

  /** A panic although a slot is free: in a cache of two slots two pages are stored and read, the guard on the first is
      still held, and a third page is to be stored. */
  lemma PanicsWithAFreeSlot(a: PageAddress, b: PageAddress, c: PageAddress)
    requires a != b && b != c && c != a
    ensures var none := R.Empty<PageAddress>(2);
            && R.Ok(none) && R.Ok(R.Replaced(none, a))
            && var s := R.Accessed(R.Accessed(R.Replaced(R.Replaced(none, a), b), a), b);
            && R.Ok(s) && R.Residents(s) == {a, b}
            && Outcome(s, c, map[a := 0, b := 1], {0}) == Panic
  {
    var none := R.Empty<PageAddress>(2);
    TwoStored(none, a, b);
    var two := R.Replaced(R.Replaced(none, a), b);
    TwoRead(two, a, b);
    assert R.Values(R.Queue(none)) == [] && R.Values(R.Queue(R.Replaced(none, a))) == [a];
    BothReferenced(R.Accessed(R.Accessed(two, a), b), a, b, c);
  }

  lemma BothReferenced(s: R.Caches<PageAddress>, a: PageAddress, b: PageAddress, c: PageAddress)
    requires a != b && b != c && c != a && R.Ok(s)
    requires s == R.Empty(2).(recent := [R.ClockItem(a, true), R.ClockItem(b, true)])
    ensures R.Residents(s) == {a, b} && Outcome(s, c, map[a := 0, b := 1], {0}) == Panic
  {
    assert R.Queue(s) == [R.ClockItem(a, true), R.ClockItem(b, true)];
    assert R.Values(R.Queue(s)) == [a, b];
    AllReferencedPanics(s, c, map[a := 0, b := 1], {0});
  }

  lemma TwoStored(s: R.Caches<PageAddress>, a: PageAddress, b: PageAddress)
    requires a != b && s == R.Empty(2)
    ensures R.Ok(s) && R.Replaced(s, a) == R.Empty(2).(recent := [R.ClockItem(a, false)]) && R.Ok(R.Replaced(s, a))
    ensures R.Replaced(R.Replaced(s, a), b) == R.Empty(2).(recent := [R.ClockItem(a, false), R.ClockItem(b, false)])
  {
    assert R.Replaced(s, a) == R.Empty(2).(recent := [R.ClockItem(a, false)]);
  }

  lemma TwoRead(s: R.Caches<PageAddress>, a: PageAddress, b: PageAddress)
    requires a != b && s == R.Empty(2).(recent := [R.ClockItem(a, false), R.ClockItem(b, false)])
    ensures R.Ok(s) && R.Ok(R.Accessed(s, a))
    ensures R.Accessed(R.Accessed(s, a), b) == R.Empty(2).(recent := [R.ClockItem(a, true), R.ClockItem(b, true)])
    ensures R.Ok(R.Accessed(R.Accessed(s, a), b))
  {
    ReadAt(s, 0, a);
    ReadAt(R.Accessed(s, a), 1, b);
  }

  lemma ReadAt<T>(s: R.Caches<T>, i: nat, value: T)
    requires R.Ok(s) && i < |s.recent| && s.recent[i].value == value
    ensures R.Accessed(s, value) == s.(recent := s.recent[i := R.ClockItem(value, true)])
    ensures R.Ok(R.Accessed(s, value))
  {
    R.AccessedResidents(s, value);
    assert R.Values(s.recent)[i] == value;
    forall j | 0 <= j < i ensures s.recent[j].value != value {
      assert R.Values(R.Queue(s))[j] != R.Values(R.Queue(s))[i];
    }
    R.TouchedAt(s.recent, i, value);
  }

  // ----- the map to the slots -----

  /** Every page has a filled slot of its own, and those that were scrapped are no page's. */
  ghost predicate SlotsOk(indices: Indices, scrapped: seq<nat>, numFilled: nat) {
    && (forall p :: p in indices ==> indices[p] < numFilled)
    && (forall p, q :: p in indices && q in indices && indices[p] == indices[q] ==> p == q)
    && (forall i :: 0 <= i < |scrapped| ==> scrapped[i] < numFilled && scrapped[i] !in indices.Values)
    && (forall i, j :: 0 <= i < j < |scrapped| ==> scrapped[i] != scrapped[j])
  }

  /** `page` takes the place of `victim`. */
  ghost predicate TakesPlace(before: Indices, after: Indices, page: PageAddress, victim: PageAddress) {
    victim in before && after == (before - {victim})[page := before[victim]]
  }

  lemma TakesPlaceIsOk(before: Indices, after: Indices, page: PageAddress, victim: PageAddress, scrapped: seq<nat>,
                       numFilled: nat)
    requires SlotsOk(before, scrapped, numFilled) && page !in before && TakesPlace(before, after, page, victim)
    ensures SlotsOk(after, scrapped, numFilled) && after.Keys == before.Keys - {victim} + {page}
  {
    assert after.Keys == before.Keys - {victim} + {page};
    forall v | v in after.Values ensures v in before.Values {
      var p :| p in after && after[p] == v;
      assert before[if p == page then victim else p] == v;
    }
  }

  lemma NewSlotIsOk(before: Indices, page: PageAddress, scrapped: seq<nat>, numFilled: nat)
    requires SlotsOk(before, scrapped, numFilled) && page !in before
    ensures SlotsOk(before[page := numFilled], scrapped, numFilled + 1)
    ensures before[page := numFilled].Keys == before.Keys + {page}
  {
    assert before[page := numFilled].Keys == before.Keys + {page};
  }

  lemma ScrappedIsOk(before: Indices, page: PageAddress, scrapped: seq<nat>, numFilled: nat)
    requires SlotsOk(before, scrapped, numFilled) && page in before
    ensures SlotsOk(before - {page}, scrapped + [before[page]], numFilled)
  {
    var after := before - {page};
    forall v | v in after.Values ensures v in before.Values && v != before[page] {
      var p :| p in after && after[p] == v;
    }
  }

  lemma NothingMeansRoom(s: R.Caches<PageAddress>, page: PageAddress, indices: Indices, locked: set<nat>)
    requires R.Shaped(s) && Outcome(s, page, indices, locked) == Nothing
    ensures R.Victim(s).None? && |R.Queue(s)| < s.size
  {
    if R.Victim(s).Some? {
      FirstWaits(s, page);
      SearchIsNever(R.Queue(R.Replaced(s, page)), PlaceOf(s, page), indices, locked);
    }
  }

  lemma {:induction false} SearchIsNever(q: seq<R.ClockItem<PageAddress>>, p: nat, indices: Indices, locked: set<nat>)
    requires p <= |q|
    ensures Search(q, p, indices, locked) != Nothing
  {
    if p > 0 { SearchIsNever(q[1..], p - 1, indices, locked); }
  }

  /** A page stays in the clocks when another is taken out of them. */
  lemma OthersStay(before: multiset<PageAddress>, after: multiset<PageAddress>, page: PageAddress, out: PageAddress,
                   p: PageAddress)
    requires after + multiset{out} == before + multiset{page} && (p in before || p == page) && p != out
    ensures p in after
  {
    assert p in before + multiset{page};
    assert p in after + multiset{out};
  }

  lemma DistinctIff<T>(s: seq<T>)
    ensures R.Distinct(s) <==> forall v :: multiset(s)[v] <= 1
  {
    if R.Distinct(s) {
      forall v ensures multiset(s)[v] <= 1 { AtMostOnce(s, v); }
    } else {
      var i, j :| 0 <= i < j < |s| && s[i] == s[j];
      assert s == s[..j] + [s[j]] + s[j + 1..] && s[..j][i] == s[i];
      assert s[i] in multiset(s[..j]);
      assert multiset(s)[s[i]] >= 2;
    }
  }

  lemma {:induction false} AtMostOnce<T>(s: seq<T>, v: T)
    requires R.Distinct(s)
    ensures multiset(s)[v] <= 1
  {
    if s != [] {
      var n := |s| - 1;
      AtMostOnce(s[..n], v);
      assert s == s[..n] + [s[n]];
      if v == s[n] { assert v !in s[..n]; }
    }
  }

  /** Without duplicates before, there are none after one page has taken the place of another. */
  lemma StaysDistinct(before: seq<PageAddress>, after: seq<PageAddress>, page: PageAddress, out: multiset<PageAddress>)
    requires R.Distinct(before) && page !in before && multiset(after) + out == multiset(before) + multiset{page}
    ensures R.Distinct(after)
  {
    DistinctIff(before);
    forall v ensures multiset(after)[v] <= 1 {
      assert multiset(after)[v] <= (multiset(before) + multiset{page})[v];
      if v == page { assert multiset(before)[v] == 0; }
    }
    DistinctIff(after);
  }

  function View(indices: Indices, slots: seq<Slot>): map<PageAddress, Slot>
    requires forall p :: p in indices ==> indices[p] < |slots|
  {
    map p | p in indices :: slots[indices[p]]
  }

  /** `victim` is no longer there, and `page` is, with what was in the victim's slot; all else looks as before. */
  ghost predicate HasLeft(before: map<PageAddress, Slot>, after: map<PageAddress, Slot>, page: PageAddress,
                          victim: PageAddress) {
    victim in before && after == (before - {victim})[page := before[victim]]
  }

  lemma ViewTakesPlace(before: Indices, after: Indices, slots: seq<Slot>, page: PageAddress, victim: PageAddress)
    requires (forall p :: p in before ==> before[p] < |slots|) && TakesPlace(before, after, page, victim)
    ensures (forall p :: p in after ==> after[p] < |slots|)
    ensures HasLeft(View(before, slots), View(after, slots), page, victim)
  {
  }

  lemma ViewGrows(before: Indices, after: Indices, slots: seq<Slot>, page: PageAddress)
    requires (forall p :: p in before ==> before[p] < |slots|)
    requires page in after && after[page] < |slots| && after == before[page := after[page]]
    ensures (forall p :: p in after ==> after[p] < |slots|)
    ensures View(after, slots) == View(before, slots)[page := slots[after[page]]]
  {
  }

  // ----- flushing -----

  /** What a flush writes: the pages of the list that are cached and dirty, in the order of the list. */
  function FlushOps(list: seq<PageAddress>, cached: map<PageAddress, Slot>): seq<(PageAddress, Slot)> {
    if list == [] then []
    else
      var n := |list| - 1;
      FlushOps(list[..n], cached)
      + if list[n] in cached && cached[list[n]].dirty then [(list[n], cached[list[n]])] else []
  }

  ghost predicate Flushes(ops: seq<(PageAddress, Slot)>, p: PageAddress) {
    exists k :: 0 <= k < |ops| && ops[k].0 == p
  }

  /** A flush writes a page if and only if it is on the list, is cached, and is dirty; and then as it is cached. */
  lemma {:induction false} FlushedIff(list: seq<PageAddress>, cached: map<PageAddress, Slot>, p: PageAddress)
    ensures Flushes(FlushOps(list, cached), p) <==> p in list && p in cached && cached[p].dirty
    ensures forall k :: 0 <= k < |FlushOps(list, cached)| ==>
                          var (page, slot) := FlushOps(list, cached)[k];
                          page in cached && slot == cached[page] && slot.dirty
  {
    if list != [] {
      var n := |list| - 1;
      FlushedIff(list[..n], cached, p);
      assert list == list[..n] + [list[n]];
      var init, ops := FlushOps(list[..n], cached), FlushOps(list, cached);
      assert forall k :: 0 <= k < |init| ==> ops[k] == init[k];
      if list[n] in cached && cached[list[n]].dirty { assert ops[|init|].0 == list[n]; }
    }
  }

  /** The cached pages after a flush: those on the list are clean. */
  function Cleaned(cached: map<PageAddress, Slot>, list: seq<PageAddress>): map<PageAddress, Slot> {
    map p | p in cached :: if p in list then cached[p].(dirty := false) else cached[p]
  }

  /** Flushing what was flushed already writes nothing. */
  lemma {:induction false} CleanedAgain(part: seq<PageAddress>, list: seq<PageAddress>, cached: map<PageAddress, Slot>)
    requires forall p :: p in part ==> p in list
    ensures FlushOps(part, Cleaned(cached, list)) == []
  {
    if part != [] { CleanedAgain(part[..|part| - 1], list, cached); }
  }

  class PageCache {
    const slots: array<Slot>
    var numFilled: nat
    var indices: map<PageAddress, nat>
    var scrapped: seq<nat>           // slots that were given up
    var dirtyList: seq<PageAddress>  // pages that were stored since the last flush
    const maxNumDirty: nat
    const replacer: R.CacheReplacer<PageAddress>

    /** Cached pages are in the clocks of the replacer, which hold as many items as there are filled slots. A page
        may be in the clocks more than once, or without having a slot. */
    ghost predicate Valid()
      reads this, replacer
    {
      && R.Shaped(replacer.Model()) && replacer.size == slots.Length
      && numFilled == |R.Queue(replacer.Model())| <= slots.Length
      && (forall p :: p in indices ==> p in R.Values(R.Queue(replacer.Model())))
      && SlotsOk(indices, scrapped, numFilled)
    }

    /** No page was ever given up: the cached pages are the residents, each once. */
    ghost predicate Whole()
      reads this, replacer
    {
      Valid() && R.Ok(replacer.Model()) && indices.Keys == R.Residents(replacer.Model()) && scrapped == []
    }

    /** The pages as their readers see them. */
    ghost function Cached(): map<PageAddress, Slot>
      requires Valid()
      reads this, replacer, slots
    {
      View(indices, slots[..])
    }

    constructor (numPages: nat, maxNumDirty: nat)
      ensures indices == map[] && scrapped == [] && dirtyList == [] && slots.Length == numPages && fresh(slots)
              && fresh(replacer)
      ensures this.maxNumDirty == maxNumDirty && replacer.Model() == R.Empty(numPages)
      ensures numPages >= 1 ==> Whole()
    {
      slots := new Slot[numPages](_ => ZERO_SLOT);
      this.maxNumDirty := maxNumDirty;
      numFilled, indices, scrapped, dirtyList := 0, map[], [], [];
      replacer := new R.CacheReplacer(numPages);
      new;
      assert R.Queue(replacer.Model()) == [];
    }

    /** Makes room for a page. Victims whose slot is in use are put back, and the next one is looked at. */
    method EvictFor(page: PageAddress, locked: set<nat>) returns (r: Eviction)
      requires R.Shaped(replacer.Model()) && page !in indices
      modifies replacer
      ensures r == Outcome(old(replacer.Model()), page, indices, locked) && R.Shaped(replacer.Model())
      ensures r == Nothing ==> replacer.Model() == R.Replaced(old(replacer.Model()), page)
      ensures r.Evicted? ==>
                && r.page in indices && indices[r.page] !in locked && R.IsFull(replacer.Model())
                && multiset(R.Values(R.Queue(replacer.Model()))) + multiset{r.page} ==
                   multiset(R.Values(R.Queue(old(replacer.Model())))) + multiset{page}
    {
      ghost var s, p, all := replacer.Model(), 0, multiset(R.Values(R.Queue(replacer.Model())));
      ghost var outcome := Outcome(s, page, indices, locked);
      if R.Victim(s).Some? {
        RetryStarts(s, indices, page);
        p := PlaceOf(s, page);
      }
      var maybe := replacer.EvictReplace(page);
      s := replacer.Model();
      while maybe.Some?
        invariant s == replacer.Model() && R.Shaped(s)
        invariant maybe.Some? ==>
                    && Retrying(s, all, indices, page, maybe.value, p)
                    && Rest(s, maybe.value, p, indices, locked) == outcome
        invariant maybe.None? ==> s == R.Replaced(old(replacer.Model()), page) && outcome == Nothing
        decreases if maybe.Some? && maybe.value in indices then 1 else 0, p
      {
        if maybe.value !in indices { return Panic; }
        if indices[maybe.value] !in locked { return Evicted(maybe.value); }
        RetryMoves(s, all, indices, page, maybe.value, p);
        RestStays(s, page, maybe.value, p, indices, locked);
        p := MovesTo(s, p);
        maybe := replacer.EvictReplace(maybe.value);
        s := replacer.Model();
      }
      r := Nothing;
    }

    /** The slot for a page that is about to be filled. One that was scrapped is taken before any other, but the page
        then does not count as cached. A panic leaves the cache in no particular state. */
    method GetStoreIndex(page: PageAddress, locked: set<nat>) returns (r: Option<nat>, ghost outcome: Eviction)
      requires Valid()
      modifies this`numFilled, this`indices, this`scrapped, replacer
      ensures r.None? <==> page !in old(indices) && old(scrapped) == [] && outcome == Panic
      ensures r.Some? ==> Valid()
      ensures page in old(indices) ==> r == Some(old(indices)[page])
      ensures page in old(indices) || old(scrapped) != [] ==>
                indices == old(indices) && replacer.Model() == old(replacer.Model())
      ensures page !in old(indices) && old(scrapped) != [] ==>
                r == Some(old(scrapped)[|old(scrapped)| - 1]) && scrapped == old(scrapped)[..|old(scrapped)| - 1]
      ensures page in old(indices) || old(scrapped) == [] ==> scrapped == old(scrapped)
      ensures page !in old(indices) && old(scrapped) == [] ==>
                && outcome == Outcome(old(replacer.Model()), page, old(indices), locked)
                && (outcome == Nothing ==>
                      && r == Some(old(numFilled)) && indices == old(indices)[page := old(numFilled)]
                      && replacer.Model() == R.Replaced(old(replacer.Model()), page))
                && (outcome.Evicted? ==>
                      && TakesPlace(old(indices), indices, page, outcome.page) && r == Some(indices[page])
                      && r.value !in locked)
      ensures old(Whole()) && r.Some? ==> Whole()
    {
      outcome := Nothing;
      if page in indices { return Some(indices[page]), Nothing; }
      if scrapped != [] {
        var last := |scrapped| - 1;
        r := Some(scrapped[last]);
        scrapped := scrapped[..last];
        return;
      }
      ghost var s, before := replacer.Model(), indices;
      var evicted := EvictFor(page, locked);
      outcome := evicted;
      match evicted
      case Panic => return None, outcome;
      case Evicted(e) =>
        var index := indices[e];
        indices := (indices - {e})[page := index];
        TakesPlaceIsOk(before, indices, page, e, scrapped, numFilled);
        PlaceTaken(s, replacer.Model(), before, indices, page, e);
        return Some(index), outcome;
      case Nothing =>
        NothingMeansRoom(s, page, indices, locked);
        NewSlotIsOk(indices, page, scrapped, numFilled);
        PlaceAdded(s, indices, page);
        var index := numFilled;
        numFilled := numFilled + 1;
        indices := indices[page := index];
        return Some(index), outcome;
    }

    /** Gives up the slot of a page that could not be read. The replacer is not told. */
    method Scrap(page: PageAddress)
      requires Valid()
      modifies this`indices, this`scrapped
      ensures Valid() && Cached() == old(Cached()) - {page} && replacer.Model() == old(replacer.Model())
      ensures indices == old(indices) - {page}
      ensures scrapped == old(scrapped) + (if page in old(indices) then [old(indices)[page]] else [])
    {
      if page in indices {
        ScrappedIsOk(indices, page, scrapped, numFilled);
        scrapped := scrapped + [indices[page]];
        indices := indices - {page};
      }
    }

    method GetLoadIndex(page: PageAddress) returns (r: Option<nat>)
      requires Valid()
      modifies replacer
      ensures Valid() && r == (if page in indices then Some(indices[page]) else None) && Cached() == old(Cached())
      ensures old(Whole()) ==> Whole()
    {
      if page !in indices { return None; }
      R.AccessedShape(replacer.Model(), page);
      var found := replacer.Access(page);
      r := Some(indices[page]);
    }

    /** Gives a page a slot, with what was in it before. The pages that stay cached look as they did. The page is put
        on the list of dirty pages first, and a flush is asked for when the list has become long. */
    method Store(page: PageAddress, locked: set<nat>) returns (r: Option<nat>, flush: bool, ghost outcome: Eviction)
      requires Valid()
      modifies this`numFilled, this`indices, this`scrapped, this`dirtyList, replacer
      ensures dirtyList == old(dirtyList) + [page] && (flush <==> |dirtyList| >= maxNumDirty)
      ensures r.None? <==> page !in old(indices) && old(scrapped) == [] && outcome == Panic
      ensures page !in old(indices) && old(scrapped) == [] ==>
                outcome == Outcome(old(replacer.Model()), page, old(indices), locked)
      ensures r.Some? ==> Valid() && (page in indices <==> page in old(indices) || old(scrapped) == [])
      ensures r.Some? && page in indices ==> indices[page] == r.value
      ensures page in old(indices) || old(scrapped) != [] ==>
                Cached() == old(Cached()) && indices == old(indices) && replacer.Model() == old(replacer.Model())
      ensures scrapped == if page in old(indices) || old(scrapped) == [] then old(scrapped)
                          else old(scrapped)[..|old(scrapped)| - 1]
      ensures page !in old(indices) && old(scrapped) == [] && outcome == Nothing ==>
                && Cached() == old(Cached())[page := slots[r.value]] && indices == old(indices)[page := r.value]
                && replacer.Model() == R.Replaced(old(replacer.Model()), page)
      ensures page !in old(indices) && old(scrapped) == [] && outcome.Evicted? ==>
                HasLeft(old(Cached()), Cached(), page, outcome.page)
      ensures old(Whole()) && r.Some? ==> Whole()
    {
      dirtyList := dirtyList + [page];
      flush := |dirtyList| >= maxNumDirty;
      ghost var before, had := indices, scrapped != [];
      r, outcome := GetStoreIndex(page, locked);
      if r.Some? && page !in before && !had {
        if outcome.Evicted? {
          ViewTakesPlace(before, indices, slots[..], page, outcome.page);
        } else {
          ViewGrows(before, indices, slots[..], page);
        }
      }
    }

    /** What the holder of a write guard does. No other page is touched. */
    method Write(page: PageAddress, offset: nat, data: seq<byte>, index: WalIndex)
      requires Valid() && page in indices && offset + |data| <= PAGE_BODY_SIZE
      modifies slots
      ensures Valid()
      ensures var was := old(Cached())[page];
              Cached() ==
              old(Cached())[page := Slot(index.generation, index.offset, true, Overlay(was.body, offset, data))]
    {
      var slot := slots[indices[page]];
      slots[indices[page]] := Slot(index.generation, index.offset, true, Overlay(slot.body, offset, data));
    }

    /** Fills the slot of a page that was just given one; only the body is set. */
    method Fill(page: PageAddress, body: Body)
      requires Valid() && page in indices
      modifies slots
      ensures Valid() && Cached() == old(Cached())[page := old(Cached())[page].(body := body)]
    {
      slots[indices[page]] := slots[indices[page]].(body := body);
    }

    method Read(page: PageAddress, offset: nat, length: nat) returns (data: seq<byte>)
      requires Valid() && page in indices && offset + length <= PAGE_BODY_SIZE
      ensures data == Cached()[page].body[offset..offset + length]
    {
      data := slots[indices[page]].body[offset..offset + length];
    }

    /** The pages of the list that are cached and dirty. */
    method DirtyPages() returns (ops: seq<(PageAddress, Slot)>)
      requires Valid()
      ensures ops == FlushOps(dirtyList, Cached())
    {
      ops := [];
      for i := 0 to |dirtyList|
        invariant ops == FlushOps(dirtyList[..i], Cached())
      {
        assert dirtyList[..i + 1][..i] == dirtyList[..i];
        var page := dirtyList[i];
        if page in indices && slots[indices[page]].dirty {
          ops := ops + [(page, slots[indices[page]])];
        }
      }
      assert dirtyList[..|dirtyList|] == dirtyList;
    }

    /** Writes out the dirty pages of the list, and marks them clean. `written` says whether the writes succeed; if
        they do not, the list stays as it is, but the marks are gone all the same. */
    method Flush(written: bool) returns (ops: seq<(PageAddress, Slot)>)
      requires Valid()
      modifies this`dirtyList, slots
      ensures Valid() && ops == FlushOps(old(dirtyList), old(Cached()))
      ensures Cached() == Cleaned(old(Cached()), old(dirtyList))
      ensures dirtyList == if written then [] else old(dirtyList)
    {
      ops := DirtyPages();
      OpsAreDirty(dirtyList, Cached());
      CleanListed(ops);
      if written { dirtyList := []; }
    }

    method CleanListed(ops: seq<(PageAddress, Slot)>)
      requires Valid() && ops == FlushOps(dirtyList, Cached()) && forall k :: 0 <= k < |ops| ==> ops[k].0 in indices
      modifies slots
      ensures Valid() && Cached() == Cleaned(old(Cached()), dirtyList)
    {
      ghost var cached := Cached();
      OpsAreDirty(dirtyList, cached);
      Clean(ops);
      assert Cached().Keys == cached.Keys;
    }

    method Clean(ops: seq<(PageAddress, Slot)>)
      requires Valid() && forall k :: 0 <= k < |ops| ==> ops[k].0 in indices
      modifies slots
      ensures Valid() && forall p :: p in indices ==>
                                       Cached()[p] ==
                                       if Flushes(ops, p) then old(Cached())[p].(dirty := false) else old(Cached())[p]
    {
      for i := 0 to |ops|
        invariant Valid()
        invariant forall p :: p in indices ==>
                                slots[indices[p]] ==
                                if Flushes(ops[..i], p) then old(slots[indices[p]]).(dirty := false)
                                else old(slots[indices[p]])
      {
        MoreFlushed(ops, i);
        var at := indices[ops[i].0];
        slots[at] := slots[at].(dirty := false);
      }
      assert ops[..|ops|] == ops;
    }
  }

  lemma MoreFlushed(ops: seq<(PageAddress, Slot)>, i: nat)
    requires i < |ops|
    ensures forall p :: Flushes(ops[..i + 1], p) <==> Flushes(ops[..i], p) || p == ops[i].0
  {
    forall p ensures Flushes(ops[..i + 1], p) <==> Flushes(ops[..i], p) || p == ops[i].0 {
      assert forall k :: 0 <= k < i ==> ops[..i + 1][k] == ops[..i][k];
      assert ops[..i + 1][i] == ops[i];
      if Flushes(ops[..i], p) {
        var k :| 0 <= k < i && ops[..i][k].0 == p;
        assert ops[..i + 1][k].0 == p;
      }
    }
  }

  lemma OpsAreDirty(list: seq<PageAddress>, cached: map<PageAddress, Slot>)
    ensures forall p :: p in cached ==>
                          Cleaned(cached, list)[p] ==
                          if Flushes(FlushOps(list, cached), p) then cached[p].(dirty := false) else cached[p]
    ensures forall k :: 0 <= k < |FlushOps(list, cached)| ==> FlushOps(list, cached)[k].0 in cached
  {
    forall p | p in cached
      ensures Cleaned(cached, list)[p] ==
              if Flushes(FlushOps(list, cached), p) then cached[p].(dirty := false) else cached[p]
    {
      FlushedIff(list, cached, p);
    }
    FlushedIff(list, cached, PageAddress(0, 0));
  }

  /** The clocks and the map after a page has taken the place of another. */
  lemma PlaceTaken(s: R.Caches<PageAddress>, next: R.Caches<PageAddress>, before: Indices, after: Indices,
                                                            page: PageAddress, victim: PageAddress)
    requires R.Shaped(s) && R.Shaped(next) && page !in before && TakesPlace(before, after, page, victim)
    requires multiset(R.Values(R.Queue(next))) + multiset{victim} == multiset(R.Values(R.Queue(s))) + multiset{page}
    requires forall p :: p in before ==> p in R.Values(R.Queue(s))
    ensures |R.Queue(next)| == |R.Queue(s)| && forall p :: p in after ==> p in R.Values(R.Queue(next))
    ensures R.Ok(s) && before.Keys == R.Residents(s) ==> R.Ok(next) && after.Keys == R.Residents(next)
  {
    var a, b := R.Values(R.Queue(s)), R.Values(R.Queue(next));
    assert |multiset(b) + multiset{victim}| == |b| + 1 && |multiset(a) + multiset{page}| == |a| + 1;
    forall p | p in after ensures p in b {
      if p != victim { OthersStay(multiset(a), multiset(b), page, victim, p); }
    }
    if R.Ok(s) && before.Keys == R.Residents(s) {
      StaysDistinct(a, b, page, multiset{victim});
      SameResidents(a, b, before, after, page, victim);
    }
  }

  lemma SameResidents(a: seq<PageAddress>, b: seq<PageAddress>, before: Indices, after: Indices, page: PageAddress,
                      victim: PageAddress)
    requires multiset(b) + multiset{victim} == multiset(a) + multiset{page} && R.Distinct(a)
    requires TakesPlace(before, after, page, victim) && page !in before && before.Keys == (set v | v in a)
    ensures after.Keys == (set v | v in b)
  {
    DistinctIff(a);
    forall v ensures v in b <==> v in after {
      assert v in b <==> multiset(b)[v] > 0;
      assert (multiset(b) + multiset{victim})[v] == (multiset(a) + multiset{page})[v];
    }
  }

  lemma AllAreIn(a: seq<PageAddress>, b: seq<PageAddress>, page: PageAddress)
    requires multiset(b) == multiset(a) + multiset{page}
    ensures page in b && forall p :: p in a ==> p in b
  {
    forall p | p in a || p == page ensures p in b { assert p in multiset(a) + multiset{page}; }
  }

  lemma PlaceAdded(s: R.Caches<PageAddress>, before: Indices, page: PageAddress)
    requires R.Shaped(s) && R.Victim(s).None? && page !in before
    requires forall p :: p in before ==> p in R.Values(R.Queue(s))
    ensures |R.Queue(R.Replaced(s, page))| == |R.Queue(s)| + 1
    ensures forall p :: p in before || p == page ==> p in R.Values(R.Queue(R.Replaced(s, page)))
    ensures R.Ok(s) && before.Keys == R.Residents(s) ==>
              R.Ok(R.Replaced(s, page)) && R.Residents(R.Replaced(s, page)) == before.Keys + {page}
  {
    R.ReplacedCount(s, page);
    AllAreIn(R.Values(R.Queue(s)), R.Values(R.Queue(R.Replaced(s, page))), page);
    if R.Ok(s) && before.Keys == R.Residents(s) { R.ReplacedResidents(s, page); }
  }

  // ----- pages that are lost -----

  /** A page is written after a flush: however often the cache is flushed, the page is not written out. */
  method WriteAfterFlush(c: PageCache, page: PageAddress, data: seq<byte>, index: WalIndex)
    returns (second: seq<(PageAddress, Slot)>)
    requires c.Valid() && page in c.indices && |data| <= PAGE_BODY_SIZE
    modifies c`dirtyList, c.slots
    ensures c.Valid() && page in c.indices && second == [] && c.dirtyList == []
    ensures c.Cached()[page].dirty && c.Cached()[page].body[..|data|] == data
  {
    var _ := c.Flush(true);
    c.Write(page, 0, data, index);
    second := c.Flush(true);
  }

  /** The writes of a flush fail: the next flush does not try them again. */
  method FlushAfterFailure(c: PageCache) returns (second: seq<(PageAddress, Slot)>)
    requires c.Valid()
    modifies c`dirtyList, c.slots
    ensures c.Valid() && second == []
  {
    CleanedAgain(c.dirtyList, c.dirtyList, c.Cached());
    var _ := c.Flush(false);
    second := c.Flush(true);
  }

  lemma FirstStored(a: PageAddress)
    ensures var s := R.Empty<PageAddress>(2);
            && R.Shaped(s) && R.Victim(s) == None && R.Shaped(R.Replaced(s, a)) && R.Victim(R.Replaced(s, a)) == None
            && R.Replaced(s, a) == s.(recent := [R.ClockItem(a, false)])
  {
    assert R.Replaced(R.Empty(2), a) == R.Empty(2).(recent := [R.ClockItem(a, false)]);
  }

  lemma FirstIsVictim(s: R.Caches<PageAddress>, a: PageAddress, c: PageAddress)
    requires s == R.Empty(2).(recent := [R.ClockItem(a, false), R.ClockItem(c, false)])
    ensures R.Shaped(s) && R.Victim(s) == Some(a)
  {
    assert R.Queue(s) == [R.ClockItem(a, false), R.ClockItem(c, false)];
  }

  method StoreWithRoom(cache: PageCache, page: PageAddress)
    requires cache.Valid() && page !in cache.indices && cache.scrapped == [] && R.Victim(cache.replacer.Model()).None?
    modifies cache`numFilled, cache`indices, cache`scrapped, cache`dirtyList, cache.replacer
    ensures cache.Valid() && cache.scrapped == [] && cache.indices.Keys == old(cache.indices).Keys + {page}
    ensures cache.replacer.Model() == R.Replaced(old(cache.replacer.Model()), page)
  {
    var _, _, _ := cache.Store(page, {});
  }

  /** A page is stored, cannot be read, and is given up; another is stored, and is not cached then. */
  method ScrapAndStore(cache: PageCache, a: PageAddress, b: PageAddress)
    requires cache.Valid() && cache.indices == map[] && cache.scrapped == [] && a != b
    requires R.Victim(cache.replacer.Model()).None?
    modifies cache`numFilled, cache`indices, cache`scrapped, cache`dirtyList, cache.replacer
    ensures cache.Valid() && cache.indices == map[] && cache.scrapped == []
    ensures cache.replacer.Model() == R.Replaced(old(cache.replacer.Model()), a)
  {
    StoreWithRoom(cache, a);
    cache.Scrap(a);
    assert cache.indices == map[];
    var _, _, _ := cache.Store(b, {});
  }

  /** In a cache of two slots, storing a page panics after that as soon as both are filled, although no page is in
      use. */
  method ScrapThenPanic(a: PageAddress, b: PageAddress, c: PageAddress, d: PageAddress)
    returns (cached: bool, r: Option<nat>)
    requires a != b && a != c && a != d && b != c && b != d && c != d
    ensures !cached && r == None
  {
    var cache := new PageCache(2, 1);
    FirstStored(a);
    ScrapAndStore(cache, a, b);
    cached := b in cache.indices;
    TwoStored(R.Empty(2), a, c);
    r := FillAndStore(cache, a, c, d);
  }

  method FillAndStore(cache: PageCache, a: PageAddress, c: PageAddress, d: PageAddress) returns (r: Option<nat>)
    requires a != c && a != d && c != d && cache.Valid() && cache.indices == map[] && cache.scrapped == []
    requires R.Victim(cache.replacer.Model()).None?
    requires R.Replaced(cache.replacer.Model(), c) ==
             R.Empty(2).(recent := [R.ClockItem(a, false), R.ClockItem(c, false)])
    modifies cache`numFilled, cache`indices, cache`scrapped, cache`dirtyList, cache.replacer
    ensures r == None
  {
    StoreWithRoom(cache, c);
    FirstIsVictim(cache.replacer.Model(), a, c);
    LostVictimPanics(cache.replacer.Model(), d, cache.indices);
    var index, _, _ := cache.Store(d, {});
    r := index;
  }
}
