/** Whole runs of the page allocator and its clients, against a plain stack and a counter. */
module AllocRuns {
  import opened WalTypes
  import opened ItemCodec
  import opened FreelistPages
  import opened PageAlloc

  datatype Event = Allocated(page: PageAddress) | Freed(page: PageAddress) | Wrote(page: PageAddress, content: Page)

  // ----- the reference: what should happen, from the events alone -----

  /** The pages freed and not handed out again, in the order in which they were freed. */
  function StackOf(events: seq<Event>): seq<PageAddress> {
    if events == [] then []
    else
      var stack := StackOf(events[..|events| - 1]);
      match events[|events| - 1]
      case Allocated(_) => if stack == [] then [] else stack[..|stack| - 1]
      case Freed(p) => stack + [p]
      case Wrote(_, _) => stack
  }

  function HeldBy(events: seq<Event>): set<PageAddress> {
    if events == [] then {}
    else
      var held := HeldBy(events[..|events| - 1]);
      match events[|events| - 1]
      case Allocated(p) => held + {p}
      case Freed(p) => held - {p}
      case Wrote(_, _) => held
  }

  /** How many pages were handed out while no page was free. */
  function FreshCount(events: seq<Event>): nat {
    if events == [] then 0
    else
      var before := events[..|events| - 1];
      FreshCount(before) + (if events[|events| - 1].Allocated? && StackOf(before) == [] then 1 else 0)
  }

  // ----- runs of the allocator -----

  ghost predicate Step(a: Allocation, e: Event, b: Allocation)
    requires AllocOk(a)
  {
    match e
    case Allocated(p) => CanAlloc(a) && Allocates(a, p, b)
    case Freed(p) => Frees(a, p, b)
    case Wrote(p, content) => p in a.held && b == a.(pages := a.pages[p := content])
  }

  ghost predicate StepAt(states: seq<Allocation>, events: seq<Event>, i: nat)
    requires i < |events| < |states|
  {
    AllocOk(states[i]) ==> Step(states[i], events[i], states[i + 1])
  }

  /** States a freshly initialised allocator goes through; clients free, and write, only pages they hold. */
  ghost predicate IsRun(states: seq<Allocation>, events: seq<Event>) {
    && |states| == |events| + 1
    && AllocOk(states[0]) && FreePages(states[0]) == [] && states[0].held == {}
    && NextPage(states[0].pages) == Some(PageAddress(0, 2))
    && forall i: nat :: i < |events| ==> StepAt(states, events, i)
  }

  lemma WriteKeeps(a: Allocation, p: PageAddress, content: Page)
    requires AllocOk(a) && p in a.held
    ensures var b := a.(pages := a.pages[p := content]);
            AllocOk(b) && FreePages(b) == FreePages(a) && NextPage(b.pages) == NextPage(a.pages)
  {
    HeldFacts(a, p);
    OtherPages(a.pages, a.blocks, p, content);
  }

  ghost predicate Agrees(a: Allocation, events: seq<Event>) {
    && AllocOk(a) && FreePages(a) == StackOf(events) && a.held == HeldBy(events)
    && Rank(NextPage(a.pages).value) == 1 + FreshCount(events)
  }

  lemma StepAgrees(a: Allocation, events: seq<Event>, e: Event, b: Allocation)
    requires Agrees(a, events) && Step(a, e, b)
    ensures Agrees(b, events + [e])
  {
    assert (events + [e])[..|events|] == events;
    match e
    case Allocated(p) =>
      if FreePages(a) == [] { AfterIsNext(p); } else { assert (FreePages(b) + [p])[..|FreePages(b)|] == FreePages(b); }
    case Freed(p) =>
    case Wrote(p, content) => WriteKeeps(a, p, content);
  }

  lemma {:induction false} RunPrefix(states: seq<Allocation>, events: seq<Event>, n: nat)
    requires IsRun(states, events) && n <= |events|
    ensures Agrees(states[n], events[..n])
  {
    if n > 0 {
      RunPrefix(states, events, n - 1);
      assert StepAt(states, events, n - 1);
      StepAgrees(states[n - 1], events[..n - 1], events[n - 1], states[n]);
      assert events[..n - 1] + [events[n - 1]] == events[..n];
    }
  }

  lemma HandedOut(a: Allocation, p: PageAddress, b: Allocation)
    requires AllocOk(a) && Allocates(a, p, b)
    ensures p !in a.held && p != META && AddressFits(p)
    ensures var stack := FreePages(a);
            if stack != [] then p == stack[|stack| - 1] else NextPage(a.pages) == Some(p)
  {
    var stack := FreePages(a);
    if stack != [] {
      assert p == stack[|stack| - 1];
      assert p in stack;
      assert Used(NextPage(a.pages).value, p);
    } else {
      assert !Used(p, p);
      assert Used(p, META);
    }
  }

  /** In every run, at every point: the allocator is the stack and the counter, the meta page, the clients' pages and
      the free pages are exactly the addresses below the counter, and a page that is handed out is the one freed last,
      or, when none is free, the next in address order; it is never a page a client still holds. */
  lemma EveryRunIsAStack(states: seq<Allocation>, events: seq<Event>, n: nat)
    requires IsRun(states, events) && n <= |events|
    ensures Agrees(states[n], events[..n])
    ensures Partitioned(StackOf(events[..n]), HeldBy(events[..n]), NextPage(states[n].pages).value)
    ensures n < |events| && events[n].Allocated? ==>
              var p, stack := events[n].page, StackOf(events[..n]);
              && p !in HeldBy(events[..n]) && p != META
              && (if stack != [] then p == stack[|stack| - 1]
                  else AddressFits(p) && Rank(p) == 1 + FreshCount(events[..n]))
  {
    RunPrefix(states, events, n);
    if n < |events| && events[n].Allocated? {
      assert StepAt(states, events, n);
      HandedOut(states[n], events[n].page, states[n + 1]);
    }
  }

  /** No address is handed out twice without a free between: the page handed out at `i` is still held at `j`. */
  lemma {:induction false} HeldUntilFreed(states: seq<Allocation>, events: seq<Event>, i: nat, j: nat)
    requires IsRun(states, events) && i < j <= |events| && events[i].Allocated?
    requires forall k :: i < k < j ==> events[k] != Freed(events[i].page)
    ensures events[i].page in HeldBy(events[..j])
    ensures j < |events| ==> events[j] != Allocated(events[i].page)
  {
    assert events[..j][..j - 1] == events[..j - 1];
    if i + 1 < j { HeldUntilFreed(states, events, i, j - 1); }
    EveryRunIsAStack(states, events, j);
  }

  /** Every page a client holds keeps its content through every operation, except the client's own writes to it. */
  lemma {:induction false} ClientPagesAreKept(states: seq<Allocation>, events: seq<Event>, p: PageAddress, i: nat,
                                              j: nat)
    requires IsRun(states, events) && i <= j <= |events|
    requires p in HeldBy(events[..i])
    requires forall k :: i <= k < j ==> events[k] != Freed(p) && !(events[k].Wrote? && events[k].page == p)
    ensures p in HeldBy(events[..j]) && Get(states[j].pages, p) == Get(states[i].pages, p)
  {
    if i < j {
      ClientPagesAreKept(states, events, p, i, j - 1);
      EventKeepsPage(states, events, p, j - 1);
    }
  }

  lemma EventKeepsPage(states: seq<Allocation>, events: seq<Event>, p: PageAddress, n: nat)
    requires IsRun(states, events) && n < |events| && p in HeldBy(events[..n])
    requires events[n] != Freed(p) && !(events[n].Wrote? && events[n].page == p)
    ensures p in HeldBy(events[..n + 1]) && Get(states[n + 1].pages, p) == Get(states[n].pages, p)
  {
    RunPrefix(states, events, n);
    assert StepAt(states, events, n);
    StepKeepsPage(states[n], events[n], states[n + 1], p);
    HeldNext(events, n, p);
  }

  lemma HeldNext(events: seq<Event>, n: nat, p: PageAddress)
    requires n < |events| && p in HeldBy(events[..n]) && events[n] != Freed(p)
    ensures p in HeldBy(events[..n + 1])
  {
    assert events[..n + 1][..n] == events[..n];
  }

  lemma StepKeepsPage(a: Allocation, e: Event, b: Allocation, p: PageAddress)
    requires AllocOk(a) && Step(a, e, b) && p in a.held && e != Freed(p) && !(e.Wrote? && e.page == p)
    ensures Get(b.pages, p) == Get(a.pages, p)
  {
  }
}
