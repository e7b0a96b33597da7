/** The page allocator. */
module PageAlloc {
  // The free pages are kept in a list that lives in the free pages themselves; the pages that were never used are
  // counted off.

  import opened Bytes
  import opened WalTypes
  import opened ItemCodec
  import opened FreelistPages

  const META: PageAddress := PageAddress(0, 1)

  type Space = map<PageAddress, Page>

  function Get(pages: Space, p: PageAddress): Page {
    if p in pages then pages[p] else ZeroPage()
  }

  // ----- addresses that were never used -----

  function PageAddressAfter(p: PageAddress): Option<PageAddress> {
    if p.pageNum == 0xFFFF
    then if p.segmentNum == U32 - 1 then None else Some(PageAddress(p.segmentNum + 1, 1))
    else Some(PageAddress(p.segmentNum, p.pageNum + 1))
  }

  /** The place of an address in the order in which addresses are first handed out. */
  function Rank(p: PageAddress): int {
    p.segmentNum * 0xFFFF + p.pageNum - 1
  }

  /** The successor is the next address in that order: no address is skipped, across segments too. */
  lemma AfterIsNext(p: PageAddress)
    requires AddressFits(p) && PageAddressAfter(p).Some?
    ensures AddressFits(PageAddressAfter(p).value) && Rank(PageAddressAfter(p).value) == Rank(p) + 1
  {
  }

  lemma RankIsInjective(p: PageAddress, q: PageAddress)
    requires AddressFits(p) && AddressFits(q) && Rank(p) == Rank(q)
    ensures p == q
  {
  }

  // ----- the free list as a stack -----

  function Values(slots: seq<Option<PageAddress>>): (r: seq<PageAddress>)
    requires forall i :: 0 <= i < |slots| ==> slots[i].Some?
    ensures |r| == |slots| && forall i :: 0 <= i < |r| ==> r[i] == slots[i].value
  {
    seq(|slots|, i requires 0 <= i < |slots| => slots[i].value)
  }

  /** The newest slot in use is slot `i`, and holds `item`. */
  ghost predicate IsNewest(page: Page, i: nat, item: Option<PageAddress>)
    requires LengthOf(page) <= NUM_SLOTS
  {
    i < LengthOf(page) && Slots(page)[i] == item && forall j :: i < j < LengthOf(page) ==> Slots(page)[j].None?
  }

  /** A block of the list, well formed, with `next` as the block after it. */
  ghost predicate IsBlock(page: Page, next: Option<PageAddress>) {
    && page[0] == KIND_BLOCK && AddressAt(page, BLOCK_NEXT) == next
    && LengthOf(page) <= NUM_SLOTS
    && forall i :: 0 <= i < LengthOf(page) ==> Slots(page)[i].Some?
  }

  function HeadOf(blocks: seq<PageAddress>): Option<PageAddress> {
    if blocks == [] then None else Some(blocks[0])
  }

  /** The pages at `blocks` are the blocks of the list, in this order. */
  ghost predicate Chained(pages: Space, blocks: seq<PageAddress>) {
    blocks != [] ==> IsBlock(Get(pages, blocks[0]), HeadOf(blocks[1..])) && Chained(pages, blocks[1..])
  }

  /** The free pages, the one to be handed out next at the end. A block is itself a free page, below its entries. */
  ghost function Stack(pages: Space, blocks: seq<PageAddress>): seq<PageAddress>
    requires Chained(pages, blocks)
  {
    if blocks == [] then []
    else Stack(pages, blocks[1..]) + [blocks[0]] + Values(Slots(Get(pages, blocks[0])))
  }

  lemma {:induction false} SameBlocks(pages: Space, pages': Space, blocks: seq<PageAddress>)
    requires Chained(pages, blocks) && forall b :: b in blocks ==> Get(pages', b) == Get(pages, b)
    ensures Chained(pages', blocks) && Stack(pages', blocks) == Stack(pages, blocks)
  {
    if blocks != [] {
      assert blocks[0] in blocks;
      SameBlocks(pages, pages', blocks[1..]);
    }
  }

  lemma {:induction false} BlocksAreFree(pages: Space, blocks: seq<PageAddress>, b: PageAddress)
    requires Chained(pages, blocks) && b in blocks
    ensures b in Stack(pages, blocks)
  {
    if b != blocks[0] { BlocksAreFree(pages, blocks[1..], b); }
  }

  ghost predicate Distinct(s: seq<PageAddress>) {
    forall i, j :: 0 <= i < j < |s| ==> s[i] != s[j]
  }

  /** In a list without duplicates the first block is not among the others. */
  lemma HeadIsNotInTail(pages: Space, blocks: seq<PageAddress>)
    requires Chained(pages, blocks) && blocks != [] && Distinct(Stack(pages, blocks))
    ensures blocks[0] !in blocks[1..] && Distinct(Stack(pages, blocks[1..]))
    ensures blocks[0] !in Stack(pages, blocks[1..])
  {
    var rest, stack := Stack(pages, blocks[1..]), Stack(pages, blocks);
    assert forall i :: 0 <= i < |rest| ==> stack[i] == rest[i];
    assert stack[|rest|] == blocks[0];
    if blocks[0] in blocks[1..] { BlocksAreFree(pages, blocks[1..], blocks[0]); }
  }

  /** The state of an allocator: its pages, the blocks of its list, and the pages its clients hold. */
  datatype Allocation = Allocation(pages: Space, blocks: seq<PageAddress>, held: set<PageAddress>)

  function NextPage(pages: Space): Option<PageAddress> {
    AddressAt(Get(pages, META), META_NEXT)
  }

  /** The addresses below `next` in the order of first use. */
  ghost predicate Used(next: PageAddress, p: PageAddress) {
    AddressFits(p) && Rank(p) < Rank(next)
  }

  /** The meta page, the clients' pages and the free pages make up all used addresses, and no page is two of these. */
  ghost predicate Partitioned(stack: seq<PageAddress>, held: set<PageAddress>, next: PageAddress) {
    && Distinct(stack) && META !in stack && META !in held
    && (forall p :: p in stack ==> p !in held)
    && (forall p :: Used(next, p) <==> p == META || p in stack || p in held)
  }

  ghost predicate MetaOk(a: Allocation) {
    var meta := Get(a.pages, META);
    && meta[0] == KIND_META && AddressAt(meta, META_HEAD) == HeadOf(a.blocks)
    && NextPage(a.pages).Some? && AddressFits(NextPage(a.pages).value)
  }

  ghost predicate AllocOk(a: Allocation) {
    MetaOk(a) && Chained(a.pages, a.blocks) && Partitioned(Stack(a.pages, a.blocks), a.held, NextPage(a.pages).value)
  }

  ghost function FreePages(a: Allocation): seq<PageAddress>
    requires AllocOk(a)
  {
    Stack(a.pages, a.blocks)
  }

  /** Writing other pages leaves the free list alone. */
  lemma {:induction false} OtherPages(pages: Space, blocks: seq<PageAddress>, p: PageAddress, page: Page)
    requires Chained(pages, blocks) && p !in blocks
    ensures Chained(pages[p := page], blocks) && Stack(pages[p := page], blocks) == Stack(pages, blocks)
  {
    SameBlocks(pages, pages[p := page], blocks);
  }

  // ----- what pushing and popping do to the stack -----

  lemma PushPartition(stack: seq<PageAddress>, held: set<PageAddress>, next: PageAddress, p: PageAddress)
    requires Partitioned(stack, held, next) && p in held
    ensures Partitioned(stack + [p], held - {p}, next)
  {
    assert forall q :: q in stack + [p] <==> q in stack || q == p;
  }

  lemma PopPartition(stack: seq<PageAddress>, held: set<PageAddress>, next: PageAddress, p: PageAddress)
    requires Partitioned(stack + [p], held, next)
    ensures Partitioned(stack, held + {p}, next)
  {
    var all := stack + [p];
    assert forall i :: 0 <= i < |stack| ==> stack[i] == all[i];
    assert all[|stack|] == p;
    assert forall q :: q in all <==> q in stack || q == p;
  }

  lemma CountPartition(stack: seq<PageAddress>, held: set<PageAddress>, next: PageAddress)
    requires Partitioned(stack, held, next) && AddressFits(next) && PageAddressAfter(next).Some?
    ensures Partitioned(stack, held + {next}, PageAddressAfter(next).value)
  {
    var after := PageAddressAfter(next).value;
    AfterIsNext(next);
    forall q ensures Used(after, q) <==> Used(next, q) || q == next {
      if AddressFits(q) && Rank(q) == Rank(next) { RankIsInjective(q, next); }
    }
    assert Used(next, META);
    assert !Used(next, next);
  }

  /** Replacing the first block changes the top of the stack only. */
  lemma ReplaceHead(pages: Space, blocks: seq<PageAddress>, page: Page)
    requires Chained(pages, blocks) && blocks != [] && Distinct(Stack(pages, blocks))
             && IsBlock(page, HeadOf(blocks[1..]))
    ensures Chained(pages[blocks[0] := page], blocks)
    ensures Stack(pages[blocks[0] := page], blocks) == Stack(pages, blocks[1..]) + [blocks[0]] + Values(Slots(page))
  {
    HeadIsNotInTail(pages, blocks);
    OtherPages(pages, blocks[1..], blocks[0], page);
  }

  /** A slot pushed on the first block is a page pushed on the stack. */
  lemma PushOnHead(pages: Space, blocks: seq<PageAddress>, a: PageAddress)
    requires Chained(pages, blocks) && blocks != [] && Distinct(Stack(pages, blocks)) && AddressFits(a)
    requires LengthOf(Get(pages, blocks[0])) < NUM_SLOTS
    ensures var pages' := pages[blocks[0] := PushSlot(Get(pages, blocks[0]), a)];
            Chained(pages', blocks) && Stack(pages', blocks) == Stack(pages, blocks) + [a]
  {
    var page := Get(pages, blocks[0]);
    PushSlotIs(page, a);
    ReplaceHead(pages, blocks, PushSlot(page, a));
    assert Values(Slots(PushSlot(page, a))) == Values(Slots(page)) + [a];
    LastOfConcat(Stack(pages, blocks[1..]) + [blocks[0]], Values(Slots(page)), a);
  }

  lemma LastOfConcat(s: seq<PageAddress>, t: seq<PageAddress>, p: PageAddress)
    ensures s + (t + [p]) == s + t + [p]
  {
  }

  function PopSlot(page: Page): Page
    requires LengthOf(page) > 0
  {
    Put(page, BLOCK_LENGTH, ToLE(LengthOf(page) - 1, 2))
  }

  lemma PopFromHead(pages: Space, blocks: seq<PageAddress>, p: PageAddress)
    requires Chained(pages, blocks) && blocks != [] && Distinct(Stack(pages, blocks))
    requires var page := Get(pages, blocks[0]); LengthOf(page) > 0 && Slots(page)[LengthOf(page) - 1] == Some(p)
    ensures var pages' := pages[blocks[0] := PopSlot(Get(pages, blocks[0]))];
            Chained(pages', blocks) && Stack(pages, blocks) == Stack(pages', blocks) + [p]
  {
    var page := Get(pages, blocks[0]);
    PoppedIsBlock(page, HeadOf(blocks[1..]));
    ReplaceHead(pages, blocks, PopSlot(page));
    LastValue(page, p);
    LastOfConcat(Stack(pages, blocks[1..]) + [blocks[0]], Values(Slots(PopSlot(page))), p);
  }

  lemma PoppedIsBlock(page: Page, next: Option<PageAddress>)
    requires IsBlock(page, next) && LengthOf(page) > 0
    ensures IsBlock(PopSlot(page), next)
  {
    PopSlotIs(page);
  }

  lemma LastValue(page: Page, p: PageAddress)
    requires 0 < LengthOf(page) <= NUM_SLOTS && Slots(page)[LengthOf(page) - 1] == Some(p)
    requires forall i :: 0 <= i < LengthOf(page) ==> Slots(page)[i].Some?
    ensures LengthOf(PopSlot(page)) <= NUM_SLOTS
            && (forall i :: 0 <= i < LengthOf(PopSlot(page)) ==> Slots(PopSlot(page))[i].Some?)
    ensures Values(Slots(page)) == Values(Slots(PopSlot(page))) + [p]
  {
    PopSlotIs(page);
  }

  /** A page put in front of the list as an empty block is a page pushed on the stack. */
  lemma PushBlock(pages: Space, blocks: seq<PageAddress>, a: PageAddress, page: Page)
    requires Chained(pages, blocks) && a !in blocks
    requires IsBlock(page, HeadOf(blocks)) && Slots(page) == []
    ensures var pages' := pages[a := page];
            Chained(pages', [a] + blocks) && Stack(pages', [a] + blocks) == Stack(pages, blocks) + [a]
  {
    OtherPages(pages, blocks, a, page);
    assert ([a] + blocks)[1..] == blocks;
  }

  lemma PopBlock(pages: Space, blocks: seq<PageAddress>)
    requires Chained(pages, blocks) && blocks != [] && LengthOf(Get(pages, blocks[0])) == 0
    ensures var stack := Stack(pages, blocks);
            Chained(pages, blocks[1..]) && stack == Stack(pages, blocks[1..]) + [blocks[0]]
  {
  }

  // ----- what the operations do -----

  /** A page goes from the top of the stack to a client. No client's page changes. */
  ghost predicate Takes(a: Allocation, p: PageAddress, b: Allocation)
    requires AllocOk(a)
  {
    && AllocOk(b) && FreePages(a) == FreePages(b) + [p] && b.held == a.held + {p}
    && NextPage(b.pages) == NextPage(a.pages) && SameClients(a, b, a.held)
  }

  /** The next page in address order goes to a client. */
  ghost predicate Counts(a: Allocation, p: PageAddress, b: Allocation)
    requires AllocOk(a)
  {
    && AllocOk(b) && FreePages(b) == FreePages(a) && b.held == a.held + {p}
    && NextPage(a.pages) == Some(p) && NextPage(b.pages) == PageAddressAfter(p) && SameClients(a, b, a.held)
  }

  ghost predicate Allocates(a: Allocation, p: PageAddress, b: Allocation)
    requires AllocOk(a)
  {
    if FreePages(a) != [] then Takes(a, p, b) else Counts(a, p, b)
  }

  ghost predicate CanAlloc(a: Allocation)
    requires AllocOk(a)
  {
    FreePages(a) != [] || PageAddressAfter(NextPage(a.pages).value).Some?
  }

  ghost predicate Frees(a: Allocation, p: PageAddress, b: Allocation)
    requires AllocOk(a)
  {
    && p in a.held && AllocOk(b) && FreePages(b) == FreePages(a) + [p] && b.held == a.held - {p}
    && NextPage(b.pages) == NextPage(a.pages) && SameClients(a, b, b.held)
  }

  ghost predicate SameClients(a: Allocation, b: Allocation, held: set<PageAddress>) {
    forall q :: q in held ==> Get(b.pages, q) == Get(a.pages, q)
  }

  lemma BlockFacts(a: Allocation, p: PageAddress)
    requires AllocOk(a) && p in a.blocks
    ensures p in FreePages(a) && p !in a.held && p != META && AddressFits(p)
  {
    BlocksAreFree(a.pages, a.blocks, p);
    assert Used(NextPage(a.pages).value, p);
  }

  lemma HeldFacts(a: Allocation, p: PageAddress)
    requires AllocOk(a) && p in a.held
    ensures p !in FreePages(a) && p !in a.blocks && p != META && AddressFits(p)
  {
    assert Used(NextPage(a.pages).value, p);
    if p in a.blocks { BlockFacts(a, p); }
  }

  /** Rewriting the head pointer of the meta page changes neither the counter nor any block. */
  lemma NewHead(pages: Space, blocks: seq<PageAddress>, head: Option<PageAddress>)
    requires Chained(pages, blocks) && META !in blocks && (head.Some? ==> AddressFits(head.value))
    ensures var pages' := pages[META := Put(Get(pages, META), META_HEAD, AddressBytes(head))];
            && Chained(pages', blocks) && Stack(pages', blocks) == Stack(pages, blocks)
            && NextPage(pages') == NextPage(pages) && AddressAt(Get(pages', META), META_HEAD) == head
            && Get(pages', META)[0] == Get(pages, META)[0]
  {
    var page := Put(Get(pages, META), META_HEAD, AddressBytes(head));
    OtherPages(pages, blocks, META, page);
    SetMetaHead(Get(pages, META), head);
  }

  lemma TakesTop(a: Allocation, p: PageAddress, pages': Space, blocks': seq<PageAddress>)
    requires AllocOk(a) && Chained(pages', blocks') && MetaOk(Allocation(pages', blocks', a.held + {p}))
    requires FreePages(a) == Stack(pages', blocks') + [p]
    requires NextPage(pages') == NextPage(a.pages) && forall q :: q in a.held ==> Get(pages', q) == Get(a.pages, q)
    ensures Takes(a, p, Allocation(pages', blocks', a.held + {p}))
  {
    PopPartition(Stack(pages', blocks'), a.held, NextPage(a.pages).value, p);
  }

  lemma TakesFromHead(a: Allocation, p: PageAddress)
    requires AllocOk(a) && a.blocks != []
    requires var page := Get(a.pages, a.blocks[0]);
             LengthOf(page) > 0 && Slots(page)[LengthOf(page) - 1] == Some(p)
    ensures Takes(a, p, Allocation(a.pages[a.blocks[0] := PopSlot(Get(a.pages, a.blocks[0]))], a.blocks, a.held + {p}))
  {
    PopFromHead(a.pages, a.blocks, p);
    BlockFacts(a, a.blocks[0]);
    TakesTop(a, p, a.pages[a.blocks[0] := PopSlot(Get(a.pages, a.blocks[0]))], a.blocks);
  }

  lemma TakesBlock(a: Allocation)
    requires AllocOk(a) && a.blocks != [] && LengthOf(Get(a.pages, a.blocks[0])) == 0
    ensures var head := AddressAt(Get(a.pages, a.blocks[0]), BLOCK_NEXT);
            var pages' := a.pages[META := Put(Get(a.pages, META), META_HEAD, AddressBytes(head))];
            Takes(a, a.blocks[0], Allocation(pages', a.blocks[1..], a.held + {a.blocks[0]}))
  {
    var head := AddressAt(Get(a.pages, a.blocks[0]), BLOCK_NEXT);
    var pages' := a.pages[META := Put(Get(a.pages, META), META_HEAD, AddressBytes(head))];
    PopBlock(a.pages, a.blocks);
    if head.Some? { BlockFacts(a, head.value); }
    if META in a.blocks { BlockFacts(a, META); }
    NewHead(a.pages, a.blocks[1..], head);
    TakesTop(a, a.blocks[0], pages', a.blocks[1..]);
  }

  lemma CountsNext(a: Allocation)
    requires AllocOk(a) && PageAddressAfter(NextPage(a.pages).value).Some?
    ensures var p := NextPage(a.pages).value;
            var pages' := a.pages[META := Put(Get(a.pages, META), META_NEXT, AddressBytes(PageAddressAfter(p)))];
            Counts(a, p, Allocation(pages', a.blocks, a.held + {p}))
  {
    var p := NextPage(a.pages).value;
    var page := Put(Get(a.pages, META), META_NEXT, AddressBytes(PageAddressAfter(p)));
    AfterIsNext(p);
    SetMetaNext(Get(a.pages, META), PageAddressAfter(p).value);
    if META in a.blocks { BlockFacts(a, META); }
    OtherPages(a.pages, a.blocks, META, page);
    CountPartition(FreePages(a), a.held, p);
  }

  lemma FreesToHead(a: Allocation, p: PageAddress)
    requires AllocOk(a) && p in a.held && a.blocks != [] && LengthOf(Get(a.pages, a.blocks[0])) < NUM_SLOTS
    ensures var pages' := a.pages[a.blocks[0] := PushSlot(Get(a.pages, a.blocks[0]), p)];
            Frees(a, p, Allocation(pages', a.blocks, a.held - {p}))
  {
    HeldFacts(a, p);
    BlockFacts(a, a.blocks[0]);
    PushOnHead(a.pages, a.blocks, p);
    PushPartition(FreePages(a), a.held, NextPage(a.pages).value, p);
  }

  function NewBlock(page: Page, head: Option<PageAddress>): Page {
    if head.Some? then Put(InitBlock(page), BLOCK_NEXT, AddressBytes(head)) else InitBlock(page)
  }

  lemma NewBlockIs(page: Page, head: Option<PageAddress>)
    requires head.Some? ==> AddressFits(head.value)
    ensures IsBlock(NewBlock(page, head), head) && Slots(NewBlock(page, head)) == []
  {
    InitBlockIs(page);
    if head.Some? { SetBlockNext(InitBlock(page), head); }
  }

  lemma FreesToBlock(a: Allocation, p: PageAddress)
    requires AllocOk(a) && p in a.held
    ensures var pages' := a.pages[p := NewBlock(Get(a.pages, p), HeadOf(a.blocks))];
            var pages'' := pages'[META := Put(Get(a.pages, META), META_HEAD, AddressBytes(Some(p)))];
            Frees(a, p, Allocation(pages'', [p] + a.blocks, a.held - {p}))
  {
    HeldFacts(a, p);
    var page := NewBlock(Get(a.pages, p), HeadOf(a.blocks));
    if a.blocks != [] { BlockFacts(a, a.blocks[0]); }
    NewBlockIs(Get(a.pages, p), HeadOf(a.blocks));
    if META in a.blocks { BlockFacts(a, META); }
    LinkBlock(a.pages, a.blocks, p, page);
    FreesTop(a, p, a.pages[p := page][META := Put(Get(a.pages, META), META_HEAD, AddressBytes(Some(p)))],
             [p] + a.blocks);
  }

  lemma FreesTop(a: Allocation, p: PageAddress, pages': Space, blocks': seq<PageAddress>)
    requires AllocOk(a) && p in a.held && Chained(pages', blocks') && MetaOk(Allocation(pages', blocks', a.held - {p}))
    requires Stack(pages', blocks') == FreePages(a) + [p] && NextPage(pages') == NextPage(a.pages)
    requires forall q :: q in a.held - {p} ==> Get(pages', q) == Get(a.pages, q)
    ensures Frees(a, p, Allocation(pages', blocks', a.held - {p}))
  {
    PushPartition(FreePages(a), a.held, NextPage(a.pages).value, p);
  }

  /** A block at `p` in front of the list, with the head of the list moved to it. */
  lemma LinkBlock(pages: Space, blocks: seq<PageAddress>, p: PageAddress, page: Page)
    requires Chained(pages, blocks) && p !in blocks && META !in blocks && p != META && AddressFits(p)
    requires IsBlock(page, HeadOf(blocks)) && Slots(page) == []
    ensures var pages' := pages[p := page][META := Put(Get(pages, META), META_HEAD, AddressBytes(Some(p)))];
            && Chained(pages', [p] + blocks) && Stack(pages', [p] + blocks) == Stack(pages, blocks) + [p]
            && NextPage(pages') == NextPage(pages) && AddressAt(Get(pages', META), META_HEAD) == Some(p)
            && Get(pages', META)[0] == Get(pages, META)[0]
  {
    PushBlock(pages, blocks, p, page);
    NewHead(pages[p := page], [p] + blocks, Some(p));
  }

  /** What the methods read first. */
  lemma HeadIsReadable(a: Allocation)
    requires AllocOk(a)
    ensures Get(a.pages, META)[0] == KIND_META && AddressAt(Get(a.pages, META), META_HEAD) == HeadOf(a.blocks)
    ensures a.blocks != [] ==> Get(a.pages, a.blocks[0])[0] == KIND_BLOCK
    ensures FreePages(a) == [] <==> a.blocks == []
  {
  }

  lemma HeadIsBlock(a: Allocation)
    requires AllocOk(a) && a.blocks != []
    ensures IsBlock(Get(a.pages, a.blocks[0]), HeadOf(a.blocks[1..]))
  {
  }

  /** No slot of a block is empty, so the newest is the last. */
  lemma NewestIsLast(page: Page, next: Option<PageAddress>, i: nat, item: Option<PageAddress>)
    requires IsBlock(page, next) && IsNewest(page, i, item)
    ensures i == LengthOf(page) - 1 && item == Slots(page)[LengthOf(page) - 1]
  {
    assert Slots(page)[LengthOf(page) - 1].Some?;
  }

  lemma EntryIsTaken(a: Allocation, i: nat, p: PageAddress)
    requires AllocOk(a) && a.blocks != [] && LengthOf(Get(a.pages, a.blocks[0])) <= NUM_SLOTS
    requires IsNewest(Get(a.pages, a.blocks[0]), i, Some(p))
    ensures var page := Put(Get(a.pages, a.blocks[0]), BLOCK_LENGTH, ToLE(i, 2));
            Takes(a, p, Allocation(a.pages[a.blocks[0] := page], a.blocks, a.held + {p}))
  {
    HeadIsBlock(a);
    NewestIsLast(Get(a.pages, a.blocks[0]), HeadOf(a.blocks[1..]), i, Some(p));
    assert PopSlot(Get(a.pages, a.blocks[0])) == Put(Get(a.pages, a.blocks[0]), BLOCK_LENGTH, ToLE(i, 2));
    TakesFromHead(a, p);
  }

  // ----- freeing a page that no client holds -----

  ghost predicate HasSlot(a: Allocation) {
    a.blocks != [] && LengthOf(Get(a.pages, a.blocks[0])) < NUM_SLOTS
  }

  /** The meta page cannot become a block: freeing it is an error, but one that has destroyed it. */
  ghost predicate FreeFails(a: Allocation, p: PageAddress) {
    p == META && !HasSlot(a)
  }

  /** What freeing any page makes of an allocator. */
  ghost function Freed(a: Allocation, p: PageAddress): Allocation {
    if HasSlot(a)
    then Allocation(a.pages[a.blocks[0] := PushSlot(Get(a.pages, a.blocks[0]), p)], a.blocks, a.held - {p})
    else if p == META then a.(pages := a.pages[META := NewBlock(Get(a.pages, META), HeadOf(a.blocks))])
      else
        var pages' := a.pages[p := NewBlock(Get(a.pages, p), HeadOf(a.blocks))];
        Allocation(pages'[META := Put(Get(a.pages, META), META_HEAD, AddressBytes(Some(p)))], [p] + a.blocks,
                   a.held - {p})
  }

  lemma FreedIsFrees(a: Allocation, p: PageAddress)
    requires AllocOk(a) && p in a.held
    ensures Frees(a, p, Freed(a, p))
  {
    HeldFacts(a, p);
    if HasSlot(a) { FreesToHead(a, p); } else { FreesToBlock(a, p); }
  }

  /** If the new list is in order, the page was not in the old one, and was put on top of it. */
  lemma FreedIsPushed(a: Allocation, p: PageAddress)
    requires AllocOk(a) && AddressFits(p) && !FreeFails(a, p) && AllocOk(Freed(a, p))
    ensures FreePages(Freed(a, p)) == FreePages(a) + [p] && NextPage(Freed(a, p).pages) == NextPage(a.pages)
  {
    var b := Freed(a, p);
    if HasSlot(a) {
      PushOnHead(a.pages, a.blocks, p);
      BlockFacts(a, a.blocks[0]);
    } else {
      BlockFacts(b, p);
      HeadIsNotInTail(b.pages, b.blocks);
      if a.blocks != [] { BlockFacts(a, a.blocks[0]); }
      if META in a.blocks { BlockFacts(a, META); }
      NewBlockIs(Get(a.pages, p), HeadOf(a.blocks));
      LinkBlock(a.pages, a.blocks, p, NewBlock(Get(a.pages, p), HeadOf(a.blocks)));
    }
  }

  lemma PushedIsHeld(stack: seq<PageAddress>, held: set<PageAddress>, next: PageAddress, p: PageAddress,
                     held': set<PageAddress>)
    requires Partitioned(stack, held, next) && Partitioned(stack + [p], held', next)
    ensures p in held
  {
    var all := stack + [p];
    assert all[|stack|] == p;
    assert Used(next, p);
    assert forall i :: 0 <= i < |stack| ==> all[i] == stack[i];
  }

  /** Freeing a page keeps the allocator in order if and only if a client holds the page. Freeing one twice, the meta
      page, or one that was never handed out does not; the original does not look. */
  lemma FreeIsSafeIff(a: Allocation, p: PageAddress)
    requires AllocOk(a) && AddressFits(p)
    ensures AllocOk(Freed(a, p)) <==> p in a.held
  {
    if p in a.held { FreedIsFrees(a, p); }
    if FreeFails(a, p) {
      if a.blocks != [] { BlockFacts(a, a.blocks[0]); }
      NewBlockIs(Get(a.pages, META), HeadOf(a.blocks));
    } else if AllocOk(Freed(a, p)) {
      FreedIsPushed(a, p);
      PushedIsHeld(FreePages(a), a.held, NextPage(a.pages).value, p, a.held - {p});
    }
  }

  // ----- the allocator -----

  class PageAllocator {
    var pages: Space
    ghost var blocks: seq<PageAddress>
    ghost var held: set<PageAddress>

    ghost function Model(): Allocation
      reads this
    {
      Allocation(pages, blocks, held)
    }

    ghost predicate Valid()
      reads this
    {
      AllocOk(Model())
    }

    constructor (pages: Space)
      ensures this.pages == pages
    {
      this.pages, blocks, held := pages, [], {};
    }

    method WriteSection(p: PageAddress, offset: nat, data: seq<byte>)
      requires offset + |data| <= PAGE_BODY_SIZE
      modifies this`pages
      ensures pages == old(pages)[p := Put(Get(old(pages), p), offset, data)]
    {
      pages := pages[p := Put(Get(pages, p), offset, data)];
    }

    /** Makes the store's first page the meta page, and every other page unused. */
    method Init()
      modifies this
      ensures Valid() && FreePages(Model()) == [] && held == {}
      ensures NextPage(pages) == Some(PageAddress(0, 2))
      ensures forall p :: p != META ==> Get(pages, p) == Get(old(pages), p)
    {
      InitMetaIs(Get(pages, META), PageAddress(0, 2));
      WriteSection(META, 0, [KIND_META]);
      WriteSection(META, META_HEAD, AddressBytes(None));
      WriteSection(META, META_NEXT, AddressBytes(Some(PageAddress(0, 2))));
      blocks, held := [], {};
      forall p ensures Used(PageAddress(0, 2), p) <==> p == META {
        if AddressFits(p) && Rank(p) == Rank(META) { RankIsInjective(p, META); }
      }
    }

    method MetaPage() returns (r: Result<Page>)
      ensures r.Ok? ==> r.value == Get(pages, META) && r.value[0] == KIND_META
      ensures r.Ok? <==> Get(pages, META)[0] == KIND_META
    {
      var kind := CheckKind(Get(pages, META), KIND_META);
      r := if kind.Ok? then Ok(Get(pages, META)) else Err(kind.error);
    }

    method BlockPage(p: PageAddress) returns (r: Result<Page>)
      ensures r.Ok? ==> r.value == Get(pages, p) && r.value[0] == KIND_BLOCK
      ensures r.Ok? <==> Get(pages, p)[0] == KIND_BLOCK
    {
      var kind := CheckKind(Get(pages, p), KIND_BLOCK);
      r := if kind.Ok? then Ok(Get(pages, p)) else Err(kind.error);
    }

    /** Takes the newest entry of a block, passing over empty slots. */
    method PopItem(p: PageAddress) returns (r: Result<Option<PageAddress>>)
      modifies this`pages
      ensures r.Err? <==> LengthOf(Get(old(pages), p)) > NUM_SLOTS
      ensures r.Err? ==> pages == old(pages)
      ensures r.Ok? && r.value.None? ==> pages == old(pages)
      ensures var page := Get(old(pages), p);
              LengthOf(page) <= NUM_SLOTS ==>
                && r.Ok?
                && (r.value.None? <==> forall i :: 0 <= i < LengthOf(page) ==> Slots(page)[i].None?)
                && (LengthOf(page) > 0 && Slots(page)[0].Some? ==> r.value.Some?)
                && (r.value.Some? ==> exists i :: IsNewest(page, i, r.value)
                                                  && pages == old(pages)[p := Put(page, BLOCK_LENGTH, ToLE(i, 2))])
    {
      var page := Get(pages, p);
      var index := LengthOf(page);
      while index > 0
        invariant 0 <= index <= LengthOf(page) && pages == old(pages)
        invariant LengthOf(page) <= NUM_SLOTS ==> forall j :: index <= j < LengthOf(page) ==> Slots(page)[j].None?
        invariant LengthOf(page) > NUM_SLOTS ==> index == LengthOf(page)
      {
        index := index - 1;
        if SlotOffset(index) + ADDRESS_SIZE > PAGE_BODY_SIZE {
          return Err(PageOutOfBounds);
        }
        var item := AddressAt(page, SlotOffset(index));
        if item.Some? {
          WriteSection(p, BLOCK_LENGTH, ToLE(index, 2));
          assert LengthOf(page) <= NUM_SLOTS ==> IsNewest(page, index, item);
          return Ok(item);
        }
      }
      r := Ok(None);
    }

    /** Takes the newest entry of the first block. */
    method TakeEntry(head: PageAddress) returns (r: Result<Option<PageAddress>>)
      modifies this`pages, this`held
      ensures r.Err? || r.value.None? ==> Model() == old(Model())
      ensures old(Valid()) && old(blocks) != [] && head == old(blocks)[0] ==>
                && r.Ok? && (r.value.None? <==> LengthOf(Get(old(pages), head)) == 0)
                && (r.value.Some? ==> Takes(old(Model()), r.value.value, Model()))
    {
      ghost var before, valid := Model(), Valid() && blocks != [] && head == blocks[0];
      ghost var page := Get(pages, head);
      if valid { HeadIsBlock(before); }
      r := PopItem(head);
      if valid && r.Ok? && r.value.Some? {
        ghost var i :| IsNewest(page, i, r.value) && pages == before.pages[head := Put(page, BLOCK_LENGTH, ToLE(i, 2))];
        EntryIsTaken(before, i, r.value.value);
        held := held + {r.value.value};
      }
    }

    /** Takes the first block itself, which has no entries left. */
    method TakeBlock(head: PageAddress, next: Option<PageAddress>)
      modifies this
      ensures old(Valid()) && old(blocks) != [] && head == old(blocks)[0] && LengthOf(Get(old(pages), head)) == 0
              && next == AddressAt(Get(old(pages), head), BLOCK_NEXT) ==>
                Takes(old(Model()), head, Model())
    {
      ghost var before := Model();
      ghost var valid := Valid() && blocks != [] && head == blocks[0] && LengthOf(Get(pages, head)) == 0
                         && next == AddressAt(Get(pages, head), BLOCK_NEXT);
      WriteSection(META, META_HEAD, AddressBytes(next));
      if valid {
        TakesBlock(before);
        blocks, held := blocks[1..], held + {head};
      }
    }

    /** Takes the newest free page, if there is one. */
    method NextFreePage() returns (r: Result<Option<PageAddress>>)
      modifies this
      ensures r.Err? || r.value.None? ==> Model() == old(Model())
      ensures old(Valid()) ==> r.Ok? && (r.value.None? <==> old(FreePages(Model())) == [])
      ensures old(Valid()) && r.Ok? && r.value.Some? ==> Takes(old(Model()), r.value.value, Model())
    {
      if Valid() { HeadIsReadable(Model()); }
      var meta := MetaPage();
      if meta.Err? { return Err(meta.error); }
      var head := AddressAt(meta.value, META_HEAD);
      if head.None? { return Ok(None); }
      var block := BlockPage(head.value);
      if block.Err? { return Err(block.error); }
      r := TakeEntry(head.value);
      if r.Err? || r.value.Some? { return; }
      TakeBlock(head.value, AddressAt(block.value, BLOCK_NEXT));
      r := Ok(head);
    }

    /** Takes the first page that was never used. */
    method NextUninitPage() returns (r: Result<PageAddress>)
      modifies this
      ensures r.Err? ==> Model() == old(Model())
      ensures old(Valid()) ==> (r.Ok? <==> PageAddressAfter(NextPage(old(pages)).value).Some?)
      ensures old(Valid()) && r.Err? ==> r.error == AddressSpaceExhausted
      ensures old(Valid()) && r.Ok? ==> Counts(old(Model()), r.value, Model())
    {
      ghost var before, valid := Model(), Valid();
      var meta := MetaPage();
      if meta.Err? { return Err(meta.error); }
      var page := AddressAt(meta.value, META_NEXT);
      if page.None? { return Err(PageFormat); }
      var next := PageAddressAfter(page.value);
      if next.None? { return Err(AddressSpaceExhausted); }
      WriteSection(META, META_NEXT, AddressBytes(next));
      if valid {
        CountsNext(before);
        held := held + {page.value};
      }
      r := Ok(page.value);
    }

    /** Hands out the page that was freed last, and a page never used only when no page is free. */
    method Alloc() returns (r: Result<PageAddress>)
      modifies this
      ensures r.Err? ==> pages == old(pages)
      ensures old(Valid()) ==> (r.Ok? <==> CanAlloc(old(Model())))
      ensures old(Valid()) && r.Err? ==> r.error == AddressSpaceExhausted && Model() == old(Model())
      ensures old(Valid()) && r.Ok? ==> Allocates(old(Model()), r.value, Model())
    {
      var page := NextFreePage();
      if page.Err? { return Err(page.error); }
      if page.value.Some? { return Ok(page.value.value); }
      r := NextUninitPage();
    }

    /** Puts a page on the free list, whether or not a client holds it. */
    method Free(p: PageAddress) returns (r: Result<()>)
      modifies this
      ensures r.Err? && p != META ==> pages == old(pages)
      ensures old(Valid()) ==> (r.Err? <==> FreeFails(old(Model()), p)) && Model() == Freed(old(Model()), p)
      ensures old(Valid()) && p in old(held) ==> Frees(old(Model()), p, Model())
    {
      if Valid() { HeadIsReadable(Model()); }
      if Valid() && p in held {
        FreedIsFrees(Model(), p);
        HeldFacts(Model(), p);
      }
      var meta := MetaPage();
      if meta.Err? { return Err(meta.error); }
      var head := AddressAt(meta.value, META_HEAD);
      if head.Some? {
        var block := BlockPage(head.value);
        if block.Err? { return Err(block.error); }
        if LengthOf(block.value) < NUM_SLOTS {
          PushItem(head.value, p);
          held := held - {p};
          return Ok(());
        }
      }
      r := LinkNewBlock(p, head);
    }

    /** Makes a page the first block of the list. */
    method LinkNewBlock(p: PageAddress, head: Option<PageAddress>) returns (r: Result<()>)
      modifies this
      ensures r.Err? && p != META && Get(old(pages), META)[0] == KIND_META ==> pages == old(pages)
      ensures p != META && Get(old(pages), META)[0] == KIND_META ==>
                && r.Ok? && blocks == [p] + old(blocks) && held == old(held) - {p}
                && pages == old(pages)[p := NewBlock(Get(old(pages), p), head)]
                            [META := Put(Get(old(pages), META), META_HEAD, AddressBytes(Some(p)))]
      ensures p == META ==>
                r.Err? && blocks == old(blocks) && held == old(held)
                && pages == old(pages)[p := NewBlock(Get(old(pages), p), head)]
    {
      NewBlockPage(p, head);
      assert p != META ==> Get(pages, META) == Get(old(pages), META);
      var meta := MetaPage();
      if meta.Err? { return Err(meta.error); }
      WriteSection(META, META_HEAD, AddressBytes(Some(p)));
      blocks, held := [p] + blocks, held - {p};
      r := Ok(());
    }

    method PushItem(p: PageAddress, a: PageAddress)
      requires LengthOf(Get(pages, p)) < NUM_SLOTS
      modifies this`pages
      ensures pages == old(pages)[p := PushSlot(Get(old(pages), p), a)]
    {
      var n := LengthOf(Get(pages, p));
      WriteSection(p, SlotOffset(n), AddressBytes(Some(a)));
      WriteSection(p, BLOCK_LENGTH, ToLE(n + 1, 2));
    }

    /** Makes a page an empty block in front of `head`. */
    method NewBlockPage(p: PageAddress, head: Option<PageAddress>)
      modifies this`pages
      ensures pages == old(pages)[p := NewBlock(Get(old(pages), p), head)]
    {
      WriteSection(p, 0, [KIND_BLOCK]);
      WriteSection(p, BLOCK_NEXT, AddressBytes(None));
      WriteSection(p, BLOCK_LENGTH, ToLE(0, 2));
      if head.Some? {
        WriteSection(p, BLOCK_NEXT, AddressBytes(head));
      }
    }
  }
}
