/** The cache replacer. */
module Replacer {
  // Two clocks of residents, and the histories of what they dropped. The values that the replacer computes are given in
  // closed form here; the class below arrives at them item by item.

  import opened WalTypes

  datatype ClockItem<T> = ClockItem(value: T, referenced: bool)

  /** A queue, with the set kept beside it. */
  datatype LruList<T> = LruList(items: seq<T>, itemSet: set<T>)

  datatype Caches<T> = Caches(
    recent: seq<ClockItem<T>>, recentHistory: LruList<T>,
    frequent: seq<ClockItem<T>>, frequentHistory: LruList<T>,
    recentTarget: nat, size: nat)

  // ----- clocks -----

  function Values<T>(q: seq<ClockItem<T>>): (r: seq<T>)
    ensures |r| == |q| && forall i :: 0 <= i < |q| ==> r[i] == q[i].value
  {
    seq(|q|, i requires 0 <= i < |q| => q[i].value)
  }

  function Cleared<T>(q: seq<ClockItem<T>>): (r: seq<ClockItem<T>>)
    ensures |r| == |q| && forall i :: 0 <= i < |q| ==> r[i] == ClockItem(q[i].value, false)
  {
    seq(|q|, i requires 0 <= i < |q| => ClockItem(q[i].value, false))
  }

  function NumReferenced<T>(q: seq<ClockItem<T>>): nat {
    if q == [] then 0 else (if q[0].referenced then 1 else 0) + NumReferenced(q[1..])
  }

  /** The place of the first item whose bit is clear, or the length if there is none. */
  function FirstClear<T>(q: seq<ClockItem<T>>): (k: nat)
    ensures k <= |q| && (k < |q| ==> !q[k].referenced) && forall j :: 0 <= j < k ==> q[j].referenced
  {
    if q == [] || !q[0].referenced then 0 else 1 + FirstClear(q[1..])
  }

  lemma {:induction false} NumReferencedConcat<T>(p: seq<ClockItem<T>>, q: seq<ClockItem<T>>)
    ensures NumReferenced(p + q) == NumReferenced(p) + NumReferenced(q)
  {
    if p == [] {
      assert p + q == q;
    } else {
      assert (p + q)[1..] == p[1..] + q;
      NumReferencedConcat(p[1..], q);
    }
  }

  /** Moving a referenced head to the end of a clock, clear, leaves one referenced item less. */
  lemma RequeueLosesOne<T>(p: seq<ClockItem<T>>, q: seq<ClockItem<T>>)
    requires p != [] && p[0].referenced
    ensures NumReferenced(p[1..]) + NumReferenced(q + [ClockItem(p[0].value, false)]) + 1 ==
            NumReferenced(p) + NumReferenced(q)
  {
    var item := ClockItem(p[0].value, false);
    NumReferencedConcat(q, [item]);
    assert NumReferenced([item]) == 0;
  }

  // ----- what evict does while the target size of `recent` is 0 -----

  function Queue<T>(s: Caches<T>): seq<ClockItem<T>> {
    s.recent + s.frequent
  }

  function VictimIndex<T>(q: seq<ClockItem<T>>): nat
    requires q != []
  {
    if FirstClear(q) < |q| then FirstClear(q) else 0
  }

  /** What is left of both clocks, in order: the items after the victim, and the items that were passed over, clear. */
  function Remaining<T>(q: seq<ClockItem<T>>): seq<ClockItem<T>>
    requires q != []
  {
    var k := FirstClear(q);
    if k < |q| then q[k + 1..] + Cleared(q[..k]) else Cleared(q[1..])
  }

  function Enqueue<T>(h: LruList<T>, value: T): LruList<T> {
    LruList(h.items + [value], h.itemSet + {value})
  }

  function Dequeue<T>(h: LruList<T>): LruList<T> {
    if h.items == [] then h else LruList(h.items[1..], h.itemSet - {h.items[0]})
  }

  function Evicted<T>(s: Caches<T>): Caches<T>
    requires Queue(s) != []
  {
    var q := Queue(s);
    var k := FirstClear(q);
    var left := if k < |s.recent| then |s.recent| - k - 1 else 0;
    s.(recent := Remaining(q)[..left], frequent := Remaining(q)[left..],
    frequentHistory := Enqueue(s.frequentHistory, q[VictimIndex(q)].value))
  }

  ghost predicate InHistory<T>(s: Caches<T>, value: T) {
    value in s.recentHistory.itemSet || value in s.frequentHistory.itemSet
  }

  ghost predicate IsFull<T>(s: Caches<T>) {
    |s.recent| + |s.frequent| >= s.size
  }

  ghost function HistoryTrimmed<T>(s: Caches<T>): Caches<T> {
    if |s.recent| + |s.recentHistory.items| >= s.size
    then s.(recentHistory := Dequeue(s.recentHistory))
    else if |Queue(s)| + |s.recentHistory.items| + |s.frequentHistory.items| >= s.size * 2
      then s.(frequentHistory := Dequeue(s.frequentHistory))
      else s
  }

  /** A value that was dropped lately goes to `frequent`, any other to `recent`. */
  ghost function Inserted<T>(s: Caches<T>, value: T): Caches<T> {
    if value in s.frequentHistory.itemSet
    then s.(frequent := s.frequent + [ClockItem(value, false)])
    else s.(recent := s.recent + [ClockItem(value, false)])
  }

  ghost function Replaced<T>(s: Caches<T>, value: T): Caches<T>
    requires Shaped(s)
  {
    if !IsFull(s) then Inserted(s, value)
    else if InHistory(Evicted(s), value) then Inserted(Evicted(s), value)
    else Inserted(HistoryTrimmed(Evicted(s)), value)
  }

  ghost function Victim<T>(s: Caches<T>): Option<T>
    requires Shaped(s)
  {
    if IsFull(s) then Some(Queue(s)[VictimIndex(Queue(s))].value) else None
  }

  function Touched<T(==)>(q: seq<ClockItem<T>>, value: T): (r: seq<ClockItem<T>>)
    ensures |r| == |q| && Values(r) == Values(q)
  {
    if q == [] then []
    else if q[0].value == value then [ClockItem(value, true)] + q[1..]
    else [q[0]] + Touched(q[1..], value)
  }

  function Accessed<T(==)>(s: Caches<T>, value: T): Caches<T> {
    if value in Values(s.recent) then s.(recent := Touched(s.recent, value))
    else s.(frequent := Touched(s.frequent, value))
  }

  // ----- states that can be reached -----

  ghost predicate Distinct<T>(s: seq<T>) {
    forall i, j :: 0 <= i < j < |s| ==> s[i] != s[j]
  }

  ghost function Residents<T>(s: Caches<T>): set<T> {
    set v | v in Values(Queue(s))
  }

  /** Nothing ever reaches the recent history, and so the target stays 0. */
  ghost predicate Shaped<T>(s: Caches<T>) {
    && s.size >= 1 && |s.recent| + |s.frequent| <= s.size
    && s.recentHistory == LruList([], {}) && s.recentTarget == 0
    && (s.frequentHistory.items != [] ==> IsFull(s)) && HistoryOk(s.frequentHistory)
  }

  /** Moreover, no value is in a clock twice, or in both: no resident was stored again. */
  ghost predicate Ok<T>(s: Caches<T>) {
    Shaped(s) && Distinct(Values(Queue(s)))
  }

  function Empty<T>(size: nat): Caches<T> {
    Caches([], LruList([], {}), [], LruList([], {}), 0, size)
  }

  // ----- evicting -----

  /** Where the items that remain were before. */
  function Source<T>(q: seq<ClockItem<T>>, i: nat): (j: nat)
    requires i < |q| - 1
    ensures j < |q| && j != VictimIndex(q)
  {
    var k := FirstClear(q);
    if k == |q| then i + 1 else if i < |q| - k - 1 then k + 1 + i else i - (|q| - k - 1)
  }

  function Target<T>(q: seq<ClockItem<T>>, j: nat): (i: nat)
    requires j < |q| && j != VictimIndex(q)
    ensures i < |q| - 1
  {
    var k := FirstClear(q);
    if k == |q| then j - 1 else if j > k then j - k - 1 else j + (|q| - k - 1)
  }

  lemma RemainingAt<T>(q: seq<ClockItem<T>>, i: nat)
    requires i < |q| - 1
    ensures |Remaining(q)| == |q| - 1 && Remaining(q)[i].value == q[Source(q, i)].value
    ensures Remaining(q)[i].referenced == (q[Source(q, i)].referenced && Source(q, i) > FirstClear(q))
    ensures Target(q, Source(q, i)) == i
  {
  }

  lemma TargetIs<T>(q: seq<ClockItem<T>>, j: nat)
    requires j < |q| && j != VictimIndex(q)
    ensures Source(q, Target(q, j)) == j
  {
  }

  lemma RemainingValues<T>(q: seq<ClockItem<T>>)
    requires q != [] && Distinct(Values(q))
    ensures |Remaining(q)| == |q| - 1 && Distinct(Values(Remaining(q)))
    ensures forall v :: v in Values(Remaining(q)) <==> v in Values(q) && v != q[VictimIndex(q)].value
  {
    var from, to, victim := Values(q), Values(Remaining(q)), q[VictimIndex(q)].value;
    assert |to| == |q| - 1;
    forall i: nat | i < |to| ensures to[i] == from[Source(q, i)] && Target(q, Source(q, i)) == i {
      RemainingAt(q, i);
    }
    assert from[VictimIndex(q)] == victim;
    forall v ensures v in to <==> v in from && v != victim {
      if v in to {
        var i: nat :| i < |to| && to[i] == v;
        assert from[Source(q, i)] == v;
      }
      if v in from && v != victim {
        var j: nat :| j < |q| && from[j] == v;
        TargetIs(q, j);
        assert to[Target(q, j)] == v;
      }
    }
  }

  /** Eviction takes the victim out of the residents and keeps every other. */
  lemma EvictedResidents<T>(s: Caches<T>)
    requires Queue(s) != [] && Distinct(Values(Queue(s)))
    ensures Queue(Evicted(s)) == Remaining(Queue(s)) && |Queue(Evicted(s))| == |Queue(s)| - 1
    ensures Distinct(Values(Queue(Evicted(s))))
    ensures var victim := Queue(s)[VictimIndex(Queue(s))].value;
            victim in Residents(s) && Residents(Evicted(s)) == Residents(s) - {victim}
  {
    EvictedQueue(s);
    VictimLeaves(Queue(s), Queue(Evicted(s)));
  }

  lemma VictimLeaves<T>(q: seq<ClockItem<T>>, next: seq<ClockItem<T>>)
    requires q != [] && Distinct(Values(q)) && next == Remaining(q)
    ensures |next| == |q| - 1 && Distinct(Values(next))
    ensures var victim := q[VictimIndex(q)].value;
            victim in (set v | v in Values(q)) && (set v | v in Values(next)) == (set v | v in Values(q)) - {victim}
  {
    RemainingValues(q);
    assert Values(q)[VictimIndex(q)] == q[VictimIndex(q)].value;
  }

  lemma EvictedQueue<T>(s: Caches<T>)
    requires Queue(s) != []
    ensures Queue(Evicted(s)) == Remaining(Queue(s))
  {
    assert |Remaining(Queue(s))| == |Queue(s)| - 1;
  }

  ghost predicate HistoryOk<T>(h: LruList<T>) {
    forall v :: v in h.itemSet ==> v in h.items
  }

  lemma HistoryStaysOk<T>(h: LruList<T>, value: T)
    requires HistoryOk(h)
    ensures HistoryOk(Enqueue(h, value)) && HistoryOk(Dequeue(h))
  {
    if h.items != [] {
      forall v | v in Dequeue(h).itemSet ensures v in h.items[1..] {
        var i :| 0 <= i < |h.items| && h.items[i] == v;
        assert h.items[1..][i - 1] == v;
      }
    }
  }

  /** The victim had a clear bit if any resident had one, and then every item that was passed over had been referenced
      and loses its bit; the others keep theirs. */
  lemma SecondChance<T>(s: Caches<T>, j: nat)
    requires Ok(s) && IsFull(s) && j < |Queue(s)|
    ensures !Queue(s)[j].referenced ==>
              VictimIndex(Queue(s)) <= j && !Queue(s)[VictimIndex(Queue(s))].referenced
    ensures j < VictimIndex(Queue(s)) ==> Queue(s)[j].referenced
    ensures j != VictimIndex(Queue(s)) ==>
              ClockItem(Queue(s)[j].value, Queue(s)[j].referenced && j > FirstClear(Queue(s))) in Queue(Evicted(s))
  {
    var q := Queue(s);
    if j != VictimIndex(q) {
      EvictedResidents(s);
      TargetIs(q, j);
      RemainingAt(q, Target(q, j));
      assert Remaining(q)[Target(q, j)] in Remaining(q);
    }
  }

  lemma InsertedResidents<T>(s: Caches<T>, value: T)
    requires Distinct(Values(Queue(s))) && value !in Residents(s)
    ensures |Queue(Inserted(s, value))| == |Queue(s)| + 1 && Distinct(Values(Queue(Inserted(s, value))))
    ensures Residents(Inserted(s, value)) == Residents(s) + {value}
  {
    var q := Queue(s);
    var at := if value in s.frequentHistory.itemSet then |q| else |s.recent|;
    assert Queue(Inserted(s, value)) == q[..at] + [ClockItem(value, false)] + q[at..];
    assert Values(Queue(Inserted(s, value))) == Values(q)[..at] + [value] + Values(q)[at..];
    InsertedValue(Values(q), at, value);
  }

  lemma InsertedValue<T>(s: seq<T>, at: nat, value: T)
    requires Distinct(s) && at <= |s| && value !in s
    ensures Distinct(s[..at] + [value] + s[at..])
    ensures forall v :: v in s[..at] + [value] + s[at..] <==> v in s || v == value
  {
    assert s == s[..at] + s[at..];
  }

  /** What every eviction leaves, whatever is in the clocks. */
  lemma EvictedShape<T>(s: Caches<T>)
    requires Shaped(s) && IsFull(s)
    ensures Queue(s) != [] && Queue(Evicted(s)) == Remaining(Queue(s)) && |Queue(Evicted(s))| == s.size - 1
    ensures HistoryTrimmed(Evicted(s)).recent == Evicted(s).recent
            && HistoryTrimmed(Evicted(s)).frequent == Evicted(s).frequent
    ensures HistoryTrimmed(Evicted(s)).recentHistory == s.recentHistory
    ensures HistoryOk(Evicted(s).frequentHistory) && HistoryOk(HistoryTrimmed(Evicted(s)).frequentHistory)
  {
    EvictedQueue(s);
    HistoryStaysOk(s.frequentHistory, Victim(s).value);
    HistoryStaysOk(Evicted(s).frequentHistory, Victim(s).value);
  }

  lemma EvictedIsOk<T>(s: Caches<T>)
    requires Ok(s) && IsFull(s)
    ensures Queue(s) != [] && |Queue(Evicted(s))| == s.size - 1 && Distinct(Values(Queue(Evicted(s))))
    ensures Residents(Evicted(s)) == Residents(s) - {Victim(s).value}
    ensures HistoryTrimmed(Evicted(s)).recent == Evicted(s).recent
            && HistoryTrimmed(Evicted(s)).frequent == Evicted(s).frequent
    ensures HistoryTrimmed(Evicted(s)).recentHistory == s.recentHistory
    ensures HistoryOk(Evicted(s).frequentHistory) && HistoryOk(HistoryTrimmed(Evicted(s)).frequentHistory)
  {
    EvictedResidents(s);
    EvictedShape(s);
  }

  // ----- counting what is in the clocks -----

  lemma RemainingCount<T>(q: seq<ClockItem<T>>)
    requires q != []
    ensures multiset(Values(q)) == multiset(Values(Remaining(q))) + multiset{q[VictimIndex(q)].value}
  {
    RemainingOrder(q);
    OneOut(Values(q), VictimIndex(q));
  }

  lemma RemainingOrder<T>(q: seq<ClockItem<T>>)
    requires q != []
    ensures var k, v := VictimIndex(q), Values(q); Values(Remaining(q)) == v[k + 1..] + v[..k]
  {
    var k, v := VictimIndex(q), Values(q);
    assert |Remaining(q)| == |v[k + 1..] + v[..k]|;
    forall i | 0 <= i < |q| - 1 ensures Values(Remaining(q))[i] == (v[k + 1..] + v[..k])[i] { RemainingAt(q, i); }
  }

  lemma OneOut<T>(s: seq<T>, k: nat)
    requires k < |s|
    ensures multiset(s) == multiset(s[k + 1..] + s[..k]) + multiset{s[k]}
  {
    assert s == s[..k] + [s[k]] + s[k + 1..];
  }

  lemma InsertedCount<T>(s: Caches<T>, value: T)
    ensures multiset(Values(Queue(Inserted(s, value)))) == multiset(Values(Queue(s))) + multiset{value}
    ensures |Queue(Inserted(s, value))| == |Queue(s)| + 1
  {
    var q := Queue(s);
    var at := if value in s.frequentHistory.itemSet then |q| else |s.recent|;
    assert Queue(Inserted(s, value)) == q[..at] + [ClockItem(value, false)] + q[at..];
    assert Values(Queue(Inserted(s, value))) == Values(q)[..at] + [value] + Values(q)[at..];
    InsertedOnce(Values(q), at, value);
  }

  lemma InsertedOnce<T>(s: seq<T>, at: nat, value: T)
    requires at <= |s|
    ensures multiset(s[..at] + [value] + s[at..]) == multiset(s) + multiset{value}
  {
    assert s == s[..at] + s[at..];
  }

  /** Whether or not the value was there before: it is there once more, and the victim once less. */
  lemma ReplacedCount<T>(s: Caches<T>, value: T)
    requires Shaped(s)
    ensures Shaped(Replaced(s, value))
    ensures Victim(s).None? ==>
              && |Queue(Replaced(s, value))| == |Queue(s)| + 1
              && multiset(Values(Queue(Replaced(s, value)))) == multiset(Values(Queue(s))) + multiset{value}
    ensures Victim(s).Some? ==>
              && IsFull(Replaced(s, value)) && |Queue(Replaced(s, value))| == |Queue(s)|
              && Victim(s).value in Values(Queue(s))
              && multiset(Values(Queue(Replaced(s, value)))) + multiset{Victim(s).value} ==
                 multiset(Values(Queue(s))) + multiset{value}
  {
    if IsFull(s) {
      EvictedShape(s);
      var e := if InHistory(Evicted(s), value) then Evicted(s) else HistoryTrimmed(Evicted(s));
      RemainingCount(Queue(s));
      assert Queue(e) == Remaining(Queue(s));
      InsertedCount(e, value);
      assert Values(Queue(s))[VictimIndex(Queue(s))] == Victim(s).value;
    } else {
      InsertedCount(s, value);
    }
  }

  /** A miss adds the value and drops the victim; there is a victim exactly if the cache was full. */
  lemma ReplacedResidents<T>(s: Caches<T>, value: T)
    requires Ok(s) && value !in Residents(s)
    ensures Ok(Replaced(s, value))
    ensures Victim(s).Some? <==> |Residents(s)| == s.size
    ensures Victim(s).Some? ==> Victim(s).value in Residents(s)
    ensures Residents(Replaced(s, value)) ==
            Residents(s) - (if Victim(s).Some? then {Victim(s).value} else {}) + {value}
  {
    DistinctCount(Values(Queue(s)));
    if IsFull(s) {
      EvictedIsOk(s);
      FullReplaced(s, value, if InHistory(Evicted(s), value) then Evicted(s) else HistoryTrimmed(Evicted(s)));
    } else {
      InsertedResidents(s, value);
    }
  }

  lemma FullReplaced<T>(s: Caches<T>, value: T, e: Caches<T>)
    requires Ok(s) && IsFull(s) && value !in Residents(s)
    requires e == if InHistory(Evicted(s), value) then Evicted(s) else HistoryTrimmed(Evicted(s))
    ensures Ok(Replaced(s, value)) && Residents(Replaced(s, value)) == Residents(s) - {Victim(s).value} + {value}
    ensures Victim(s).value in Residents(s)
  {
    EvictedIsOk(s);
    EvictedResidents(s);
    assert Queue(e) == Queue(Evicted(s));
    InsertedResidents(e, value);
  }

  lemma {:induction false} DistinctCount<T>(s: seq<T>)
    requires Distinct(s)
    ensures |set v | v in s| == |s|
  {
    if s != [] {
      var all, rest := (set v | v in s), (set v | v in s[1..]);
      assert forall i :: 0 <= i < |s[1..]| ==> s[1..][i] == s[i + 1];
      DistinctCount(s[1..]);
      assert s == [s[0]] + s[1..];
      assert all == rest + {s[0]};
    }
  }

  lemma ResidentCount<T>(s: Caches<T>)
    requires Ok(s)
    ensures |Residents(s)| <= s.size
  {
    DistinctCount(Values(Queue(s)));
  }

  lemma AccessedResidents<T>(s: Caches<T>, value: T)
    requires Ok(s)
    ensures Ok(Accessed(s, value)) && Residents(Accessed(s, value)) == Residents(s)
  {
    assert Values(Queue(Accessed(s, value))) == Values(Queue(s));
  }

  lemma AccessedShape<T>(s: Caches<T>, value: T)
    requires Shaped(s)
    ensures Shaped(Accessed(s, value)) && Values(Queue(Accessed(s, value))) == Values(Queue(s))
  {
  }

  // ----- the bound on the history -----

  ghost function TrackedCount<T>(s: Caches<T>): nat {
    |s.recent| + |s.frequent| + |s.recentHistory.items| + |s.frequentHistory.items|
  }

  /** The bound that the comments of the original state, of twice the size for clocks and histories together, survives a
      miss exactly if the value is not in the history while the bound is used up. */
  lemma HistoryBoundIsKeptIff<T>(s: Caches<T>, value: T)
    requires Ok(s) && value !in Residents(s) && TrackedCount(s) <= 2 * s.size
    ensures TrackedCount(Replaced(s, value)) <= 2 * s.size <==> !(InHistory(s, value) && TrackedCount(s) == 2 * s.size)
  {
    if IsFull(s) { EvictedIsOk(s); }
  }

  // ----- runs -----

  datatype Use<T> = Access(value: T) | Miss(value: T)

  ghost function After<T>(s: Caches<T>, u: Use<T>): Caches<T>
    requires Ok(s)
  {
    match u
    case Access(v) => Accessed(s, v)
    case Miss(v) => Replaced(s, v)
  }

  ghost predicate Allowed<T>(s: Caches<T>, u: Use<T>) {
    u.Miss? ==> u.value !in Residents(s)
  }

  ghost predicate StepAt<T>(states: seq<Caches<T>>, uses: seq<Use<T>>, i: nat)
    requires i < |uses| < |states|
  {
    Allowed(states[i], uses[i]) && (Ok(states[i]) ==> states[i + 1] == After(states[i], uses[i]))
  }

  /** States a new replacer goes through when only values that are not resident are stored. */
  ghost predicate IsRun<T>(size: nat, states: seq<Caches<T>>, uses: seq<Use<T>>) {
    && size >= 1 && |states| == |uses| + 1 && states[0] == Empty(size)
    && forall i: nat :: i < |uses| ==> StepAt(states, uses, i)
  }

  lemma RunExtends<T>(size: nat, states: seq<Caches<T>>, uses: seq<Use<T>>, u: Use<T>)
    requires IsRun(size, states, uses) && Ok(states[|uses|]) && Allowed(states[|uses|], u)
    ensures IsRun(size, states + [After(states[|uses|], u)], uses + [u])
  {
    var states', uses' := states + [After(states[|uses|], u)], uses + [u];
    forall i: nat | i < |uses'| ensures StepAt(states', uses', i) {
      if i < |uses| { assert StepAt(states, uses, i); }
    }
  }

  /** How often a value was stored, and how often it was the victim. */
  ghost function Stored<T>(uses: seq<Use<T>>, n: nat, value: T): nat
    requires n <= |uses|
  {
    if n == 0 then 0 else Stored(uses, n - 1, value) + (if uses[n - 1] == Miss(value) then 1 else 0)
  }

  ghost function Dropped<T>(states: seq<Caches<T>>, uses: seq<Use<T>>, n: nat, value: T): nat
    requires n <= |uses| < |states|
  {
    if n == 0 then 0
    else
      Dropped(states, uses, n - 1, value) +
      (if Ok(states[n - 1]) && uses[n - 1].Miss? && Victim(states[n - 1]) == Some(value) then 1 else 0)
  }

  lemma StepIsOk<T>(s: Caches<T>, u: Use<T>, value: T)
    requires Ok(s) && Allowed(s, u)
    ensures Ok(After(s, u)) && After(s, u).size == s.size
    ensures (if value in Residents(s) then 1 else 0) + (if u == Miss(value) then 1 else 0) ==
            (if value in Residents(After(s, u)) then 1 else 0) + (if u.Miss? && Victim(s) == Some(value) then 1 else 0)
  {
    match u
    case Access(v) => AccessedResidents(s, v);
    case Miss(v) => ReplacedResidents(s, v);
  }

  /** In every run the clocks stay free of duplicates and within the size, and a value is resident exactly if it was
      stored once more than it was dropped; otherwise it was dropped as often as it was stored. */
  lemma {:induction false} EveryRunIsOk<T>(size: nat, states: seq<Caches<T>>, uses: seq<Use<T>>, n: nat, value: T)
    requires IsRun(size, states, uses) && n <= |uses|
    ensures Ok(states[n]) && states[n].size == size
    ensures Stored(uses, n, value) == Dropped(states, uses, n, value) + (if value in Residents(states[n]) then 1 else 0)
  {
    if n > 0 {
      EveryRunIsOk(size, states, uses, n - 1, value);
      assert StepAt(states, uses, n - 1);
      StepIsOk(states[n - 1], uses[n - 1], value);
    }
  }

  // ----- without the bound -----

  /** One resident, the other value in the history. */
  ghost predicate Turned<T>(s: Caches<T>, n: nat, v: T, w: T) {
    && Ok(s) && s.size == 1 && Queue(s) == [ClockItem(v, false)]
    && |s.frequentHistory.items| == n - 1 && w in s.frequentHistory.itemSet
  }

  lemma OneVictim<T>(s: Caches<T>, v: T)
    requires s.size == 1 && Queue(s) == [ClockItem(v, false)]
    ensures Evicted(s) == s.(recent := [], frequent := [], frequentHistory := Enqueue(s.frequentHistory, v))
    ensures Residents(s) == {v}
  {
    assert FirstClear(Queue(s)) == 0;
    assert Remaining(Queue(s)) == [];
    assert Values(Queue(s)) == [v];
  }

  lemma Turn<T>(s: Caches<T>, n: nat, v: T, w: T)
    requires Turned(s, n, v, w) && v != w
    ensures Turned(Replaced(s, w), n + 1, w, v)
  {
    OneVictim(s, v);
    ReplacedResidents(s, w);
  }

  lemma FirstTurn<T>(s: Caches<T>, v: T, w: T)
    requires s == Empty(1).(recent := [ClockItem(v, false)]) && v != w
    ensures Ok(s) && Turned(Replaced(s, w), 2, w, v)
  {
    assert Values(Queue(s)) == [v];
    OneVictim(s, v);
    ReplacedResidents(s, w);
    assert HistoryTrimmed(Evicted(s)) == Evicted(s);
  }

  lemma FirstStored<T>(s: Caches<T>, v: T)
    requires s == Empty(1)
    ensures Ok(s) && Replaced(s, v) == Empty(1).(recent := [ClockItem(v, false)])
  {
  }

  /** Of two values that take turns, the one whose turn it is. */
  function TurnOf<T>(n: nat, v: T, w: T): T {
    if n % 2 == 0 then v else w
  }

  ghost predicate Alternate<T>(uses: seq<Use<T>>, v: T, w: T) {
    v != w && forall i: nat :: i < |uses| ==> uses[i] == Miss(TurnOf(i, v, w))
  }

  lemma FirstTurns<T>(states: seq<Caches<T>>, uses: seq<Use<T>>, v: T, w: T)
    requires IsRun(1, states, uses) && Alternate(uses, v, w) && 2 <= |uses|
    ensures Turned(states[2], 2, w, v)
  {
    FirstStored(states[0], v);
    assert StepAt(states, uses, 0) && StepAt(states, uses, 1);
    FirstTurn(states[1], v, w);
  }

  lemma {:induction false} HistoryGrows<T>(states: seq<Caches<T>>, uses: seq<Use<T>>, n: nat, v: T, w: T)
    requires IsRun(1, states, uses) && Alternate(uses, v, w) && 1 <= n < |uses|
    ensures Turned(states[n + 1], n + 1, TurnOf(n, v, w), TurnOf(n - 1, v, w))
  {
    if n == 1 {
      FirstTurns(states, uses, v, w);
    } else {
      HistoryGrows(states, uses, n - 1, v, w);
      NextTurn(states, uses, n, TurnOf(n - 1, v, w), TurnOf(n, v, w));
    }
  }

  lemma NextTurn<T>(states: seq<Caches<T>>, uses: seq<Use<T>>, n: nat, v: T, w: T)
    requires IsRun(1, states, uses) && n < |uses| && uses[n] == Miss(w) && v != w
    requires Turned(states[n], n, v, w)
    ensures Turned(states[n + 1], n + 1, w, v)
  {
    assert StepAt(states, uses, n);
    Turn(states[n], n, v, w);
  }

  /** There are such runs of any length. */
  lemma {:induction false} AlternatingRun<T>(v: T, w: T, n: nat) returns (states: seq<Caches<T>>, uses: seq<Use<T>>)
    requires v != w
    ensures IsRun(1, states, uses) && Alternate(uses, v, w) && |uses| == n
  {
    if n == 0 {
      states, uses := [Empty(1)], [];
    } else {
      states, uses := AlternatingRun(v, w, n - 1);
      NextIsAllowed(states, uses, v, w);
      RunExtends(1, states, uses, Miss(TurnOf(n - 1, v, w)));
      states, uses := states + [After(states[n - 1], Miss(TurnOf(n - 1, v, w)))], uses + [Miss(TurnOf(n - 1, v, w))];
    }
  }

  lemma NextIsAllowed<T>(states: seq<Caches<T>>, uses: seq<Use<T>>, v: T, w: T)
    requires IsRun(1, states, uses) && Alternate(uses, v, w)
    ensures Ok(states[|uses|]) && Allowed(states[|uses|], Miss(TurnOf(|uses|, v, w)))
  {
    var n := |uses|;
    EveryRunIsOk(1, states, uses, n, v);
    if n == 1 {
      FirstStored(states[0], v);
      assert StepAt(states, uses, 0);
      OneVictim(states[1], v);
    } else if n > 1 {
      HistoryGrows(states, uses, n - 1, v, w);
      OtherIsGone(states[n], n, TurnOf(n - 1, v, w), TurnOf(n, v, w));
    }
  }

  lemma OtherIsGone<T>(s: Caches<T>, n: nat, v: T, w: T)
    requires Turned(s, n, v, w) && v != w
    ensures w !in Residents(s)
  {
    OneVictim(s, v);
  }

  /** When two values take turns in a cache for one, the history grows without bound: a value is not taken out of the
      history when it is stored again. */
  lemma HistoryIsUnbounded<T>(v: T, w: T, n: nat) returns (states: seq<Caches<T>>, uses: seq<Use<T>>)
    requires v != w && n >= 2
    ensures IsRun(1, states, uses) && Alternate(uses, v, w) && |uses| == n
    ensures TrackedCount(states[n]) == n
  {
    states, uses := AlternatingRun(v, w, n);
    HistoryGrows(states, uses, |uses| - 1, v, w);
    assert |Queue(states[|uses|])| == 1;
  }

  // ----- the hand that goes round the clocks -----

  /** The item under the hand. */
  function Head<T>(recent: seq<ClockItem<T>>, frequent: seq<ClockItem<T>>): (r: ClockItem<T>)
    requires recent != [] || frequent != []
    ensures r == (recent + frequent)[0]
  {
    if recent != [] then recent[0] else frequent[0]
  }

  /** After `i` rounds, all of items that were referenced: they have moved to the end of `frequent`, clear. */
  ghost predicate HandAt<T>(q: seq<ClockItem<T>>, held: nat, i: nat, recent: seq<ClockItem<T>>,
                            frequent: seq<ClockItem<T>>) {
    && held <= |q| && i <= |q| && (forall j :: 0 <= j < i ==> q[j].referenced)
    && |recent| == (if i < held then held - i else 0)
    && recent + frequent == q[i..] + Cleared(q[..i])
  }

  lemma HandHead<T>(q: seq<ClockItem<T>>, i: nat, all: seq<ClockItem<T>>)
    requires i <= |q| && all != [] && all == q[i..] + Cleared(q[..i])
    ensures if i < |q| then all[0] == q[i] else !all[0].referenced
  {
  }

  lemma HandMoves<T>(q: seq<ClockItem<T>>, held: nat, i: nat, recent: seq<ClockItem<T>>, frequent: seq<ClockItem<T>>)
    requires HandAt(q, held, i, recent, frequent) && (recent != [] || frequent != [])
             && Head(recent, frequent).referenced
    ensures var back := [ClockItem(Head(recent, frequent).value, false)];
            if recent != [] then HandAt(q, held, i + 1, recent[1..], frequent + back)
            else HandAt(q, held, i + 1, recent, frequent[1..] + back)
  {
    var all := recent + frequent;
    HandHead(q, i, all);
    var back := [ClockItem(q[i].value, false)];
    assert Cleared(q[..i + 1]) == Cleared(q[..i]) + back;
    assert all[1..] == q[i + 1..] + Cleared(q[..i]);
    assert all[1..] + back == q[i + 1..] + Cleared(q[..i + 1]);
    if recent != [] {
      assert recent[1..] + (frequent + back) == all[1..] + back;
    } else {
      assert recent + (frequent[1..] + back) == all[1..] + back;
    }
  }

  lemma HandStops<T>(q: seq<ClockItem<T>>, held: nat, i: nat, recent: seq<ClockItem<T>>, frequent: seq<ClockItem<T>>)
    requires HandAt(q, held, i, recent, frequent) && q != []
    ensures recent + frequent != []
    ensures !(recent + frequent)[0].referenced ==>
              && i == FirstClear(q) && (recent + frequent)[0].value == q[VictimIndex(q)].value
              && (recent + frequent)[1..] == Remaining(q)
  {
    var all := recent + frequent;
    assert |all| == |q|;
    if !all[0].referenced {
      if i < |q| {
        assert all[0] == q[i];
        assert all[1..] == q[i + 1..] + Cleared(q[..i]);
      } else {
        assert q[..i] == q && all == Cleared(q);
        assert all[1..] == Cleared(q[1..]);
      }
    }
  }

  /** The closed form of one eviction, with the number of rounds it takes. */
  ghost predicate IsEviction<T>(s: Caches<T>, rounds: nat, victim: T, next: Caches<T>)
    requires Queue(s) != []
  {
    && rounds == FirstClear(Queue(s)) + 1 && victim == Queue(s)[VictimIndex(Queue(s))].value
    && next == Evicted(s)
  }

  /** When the hand stops at a clear item, the clocks are as the closed form has them. */
  lemma HandEvicts<T>(s: Caches<T>, i: nat, recent: seq<ClockItem<T>>, frequent: seq<ClockItem<T>>)
    requires Queue(s) != [] && HandAt(Queue(s), |s.recent|, i, recent, frequent)
    ensures recent != [] || frequent != []
    ensures !Head(recent, frequent).referenced ==>
              var head := Head(recent, frequent).value;
              if recent != []
              then IsEviction(s, i + 1, head,
                              s.(recent := recent[1..], frequent := frequent,
                              frequentHistory := Enqueue(s.frequentHistory, head)))
              else IsEviction(s, i + 1, head,
                              s.(recent := recent, frequent := frequent[1..],
                              frequentHistory := Enqueue(s.frequentHistory, head)))
  {
    HandStops(Queue(s), |s.recent|, i, recent, frequent);
    var all := recent + frequent;
    if recent != [] {
      assert all[1..] == recent[1..] + frequent;
    } else {
      assert all == frequent;
    }
  }

  ghost predicate HandIs<T>(s: Caches<T>, i: nat, recent: seq<ClockItem<T>>, frequent: seq<ClockItem<T>>) {
    Queue(s) != [] && HandAt(Queue(s), |s.recent|, i, recent, frequent)
  }

  /** One round: the hand moves on, or the eviction is done. */
  lemma HandRound<T>(s: Caches<T>, i: nat, recent: seq<ClockItem<T>>, frequent: seq<ClockItem<T>>)
    requires HandIs(s, i, recent, frequent)
    ensures recent != [] || frequent != []
    ensures recent != [] && recent[0].referenced ==>
              HandIs(s, i + 1, recent[1..], frequent + [ClockItem(recent[0].value, false)])
    ensures recent == [] && frequent[0].referenced ==>
              HandIs(s, i + 1, recent, frequent[1..] + [ClockItem(frequent[0].value, false)])
    ensures recent != [] && !recent[0].referenced ==>
              IsEviction(s, i + 1, recent[0].value,
                         s.(recent := recent[1..], frequent := frequent,
                         frequentHistory := Enqueue(s.frequentHistory, recent[0].value)))
    ensures recent == [] && !frequent[0].referenced ==>
              IsEviction(s, i + 1, frequent[0].value,
                         s.(recent := recent, frequent := frequent[1..],
                         frequentHistory := Enqueue(s.frequentHistory, frequent[0].value)))
  {
    HandEvicts(s, i, recent, frequent);
    if Head(recent, frequent).referenced { HandMoves(Queue(s), |s.recent|, i, recent, frequent); }
  }

  lemma RotateLosesOne<T>(q: seq<ClockItem<T>>)
    requires q != [] && q[0].referenced
    ensures NumReferenced(q[1..] + [ClockItem(q[0].value, false)]) + 1 == NumReferenced(q)
  {
    NumReferencedConcat(q[1..], [ClockItem(q[0].value, false)]);
  }

  lemma {:induction false} TouchedAt<T>(q: seq<ClockItem<T>>, i: nat, value: T)
    requires i < |q| && q[i].value == value && forall j :: 0 <= j < i ==> q[j].value != value
    ensures Touched(q, value) == q[i := ClockItem(value, true)]
  {
    if i > 0 { TouchedAt(q[1..], i - 1, value); }
  }

  // ----- the replacer -----

  class CacheReplacer<T(==)> {
    var recent: seq<ClockItem<T>>
    var recentHistory: LruList<T>
    var frequent: seq<ClockItem<T>>
    var frequentHistory: LruList<T>
    var recentTargetSize: nat
    const size: nat

    ghost function Model(): Caches<T>
      reads this
    {
      Caches(recent, recentHistory, frequent, frequentHistory, recentTargetSize, size)
    }

    constructor (size: nat)
      ensures Model() == Empty(size)
      ensures size >= 1 ==> Ok(Model())
    {
      this.size := size;
      recent, recentHistory, frequent, frequentHistory := [], LruList([], {}), [], LruList([], {});
      recentTargetSize := 0;
    }

    /** Sets the bit of the first item of a clock that holds the value. */
    method AccessClock(clock: seq<ClockItem<T>>, value: T) returns (found: bool, next: seq<ClockItem<T>>)
      ensures found <==> value in Values(clock)
      ensures next == if found then Touched(clock, value) else clock
    {
      var i := 0;
      while i < |clock|
        invariant 0 <= i <= |clock| && forall j :: 0 <= j < i ==> clock[j].value != value
      {
        if clock[i].value == value {
          TouchedAt(clock, i, value);
          assert value == Values(clock)[i];
          return true, clock[i := ClockItem(value, true)];
        }
        i := i + 1;
      }
      return false, clock;
    }

    method Access(value: T) returns (found: bool)
      modifies this`recent, this`frequent
      ensures found <==> value in Residents(old(Model()))
      ensures Model() == if found then Accessed(old(Model()), value) else old(Model())
    {
      assert Values(Queue(Model())) == Values(recent) + Values(frequent);
      found, recent := AccessClock(recent, value);
      if !found {
        found, frequent := AccessClock(frequent, value);
      }
    }

    /** Stores a value, if need be in the place of another. A value that is resident is stored once more. */
    method EvictReplace(value: T) returns (evicted: Option<T>)
      modifies this
      ensures old(Shaped(Model())) ==>
                Model() == Replaced(old(Model()), value) && evicted == Victim(old(Model())) && Shaped(Model())
      ensures old(Ok(Model())) && value !in old(Residents(Model())) ==>
                && Ok(Model())
                && Residents(Model()) ==
                   Residents(old(Model())) - (if evicted.Some? then {evicted.value} else {}) + {value}
    {
      ghost var before := Model();
      if Shaped(before) { ReplacedCount(before, value); }
      if Ok(before) && value !in Residents(before) { ReplacedResidents(before, value); }
      evicted := None;
      if |recent| + |frequent| >= size {
        ghost var rounds;
        evicted, rounds := Evict();
        if !(value in recentHistory.itemSet || value in frequentHistory.itemSet) {
          MaybeEvictHistory();
        }
      }
      Insert(value);
    }

    /** Looks for a victim. However the target size is set, every round but the last takes a bit away. */
    method Evict() returns (victim: Option<T>, ghost rounds: nat)
      modifies this`recent, this`frequent, this`frequentHistory
      ensures rounds <= NumReferenced(old(recent)) + NumReferenced(old(frequent)) + 1
      ensures old(recentTargetSize) == 0 && old(Queue(Model())) != [] ==>
                victim.Some? && IsEviction(old(Model()), rounds, victim.value, Model())
    {
      ghost var before := Model();
      ghost var plain := recentTargetSize == 0 && Queue(before) != [];
      rounds := 1;
      while true
        invariant 1 <= rounds && frequentHistory == before.frequentHistory
        invariant rounds - 1 + NumReferenced(recent) + NumReferenced(frequent) ==
                  NumReferenced(old(recent)) + NumReferenced(old(frequent))
        invariant plain ==> HandIs(before, rounds - 1, recent, frequent)
        decreases NumReferenced(recent) + NumReferenced(frequent)
      {
        if plain { HandRound(before, rounds - 1, recent, frequent); }
        if recent != [] && |recent| >= recentTargetSize {
          var head := recent[0];
          if !head.referenced {
            recent := recent[1..];
            frequentHistory := Enqueue(frequentHistory, head.value);
            assert Model() == before.(recent := recent, frequent := frequent, frequentHistory := frequentHistory);
            return Some(head.value), rounds;
          }
          RequeueLosesOne(recent, frequent);
          recent, frequent := recent[1..], frequent + [ClockItem(head.value, false)];
        } else {
          if frequent == [] {
            return None, rounds;
          }
          var head := frequent[0];
          if !head.referenced {
            frequent := frequent[1..];
            frequentHistory := Enqueue(frequentHistory, head.value);
            assert Model() == before.(recent := recent, frequent := frequent, frequentHistory := frequentHistory);
            return Some(head.value), rounds;
          }
          RotateLosesOne(frequent);
          frequent := frequent[1..] + [ClockItem(head.value, false)];
        }
        rounds := rounds + 1;
      }
    }

    method MaybeEvictHistory()
      modifies this`recentHistory, this`frequentHistory
      ensures Model() == HistoryTrimmed(old(Model()))
    {
      if |recent| + |recentHistory.items| >= size {
        recentHistory := Dequeue(recentHistory);
      } else if |recent| + |frequent| + |recentHistory.items| + |frequentHistory.items| >= size * 2 {
        frequentHistory := Dequeue(frequentHistory);
      }
    }

    function RecentTargetDelta(): nat
      reads this
    {
      if |recentHistory.items| == 0 then 1
      else
        var ratio := |frequentHistory.items| / |recentHistory.items|;
        if ratio >= 1 then ratio else 1
    }

    method IncreaseRecentTarget()
      modifies this`recentTargetSize
      ensures recentTargetSize <= size && (old(recentTargetSize) < size ==> recentTargetSize > old(recentTargetSize))
    {
      var next := recentTargetSize + RecentTargetDelta();
      recentTargetSize := if next <= size then next else size;
    }

    method DecreaseRecentTarget()
      modifies this`recentTargetSize
      ensures old(recentTargetSize) == 0 ==> recentTargetSize == 0
      ensures old(recentTargetSize) > 0 ==> recentTargetSize < old(recentTargetSize)
    {
      var delta := RecentTargetDelta();
      recentTargetSize := if recentTargetSize >= delta then recentTargetSize - delta else 0;
    }

    method Insert(value: T)
      modifies this`recent, this`frequent, this`recentTargetSize
      ensures Queue(Model()) == Queue(old(Model())) + [ClockItem(value, false)]
              || Queue(Model()) == old(recent) + [ClockItem(value, false)] + old(frequent)
      ensures old(recentTargetSize) == 0 && value !in recentHistory.itemSet ==> Model() == Inserted(old(Model()), value)
    {
      if value in recentHistory.itemSet {
        IncreaseRecentTarget();
        frequent := frequent + [ClockItem(value, false)];
      } else if value in frequentHistory.itemSet {
        DecreaseRecentTarget();
        frequent := frequent + [ClockItem(value, false)];
      } else {
        recent := recent + [ClockItem(value, false)];
      }
    }
  }
}
