/** The allocator's pages, as bytes. */
module FreelistPages {
  // The layout of the meta page and of the blocks of the free list.

  import opened Bytes
  import opened WalTypes
  import opened ItemCodec

  datatype DatabaseError = UnexpectedPageKind | UnknownPageKind | PageOutOfBounds | PageFormat | AddressSpaceExhausted

  datatype Result<+T> = Ok(value: T) | Err(error: DatabaseError)

  const KIND_META: byte := 0
  const KIND_BLOCK: byte := 1
  const KIND_RECORDS: byte := 2

  // Sections of the meta page, and of a block.
  const META_HEAD: nat := 1
  const META_NEXT: nat := 7
  const BLOCK_NEXT: nat := 1
  const BLOCK_LENGTH: nat := 7
  const BLOCK_ITEMS: nat := 9
  const ADDRESS_SIZE: nat := 6
  const NUM_SLOTS: nat := (PAGE_BODY_SIZE - BLOCK_ITEMS) / ADDRESS_SIZE

  type Page = s: seq<byte> | |s| == PAGE_BODY_SIZE witness ZeroPage()

  function CheckKind(page: Page, expected: byte): Result<()> {
    if page[0] > KIND_RECORDS then Err(UnknownPageKind)
    else if page[0] != expected then Err(UnexpectedPageKind)
    else Ok(())
  }

  function AddressBytes(a: Option<PageAddress>): (r: seq<byte>)
    ensures |r| == ADDRESS_SIZE
  {
    match a
    case Some(p) => ToLE(p.segmentNum, 4) + ToLE(p.pageNum, 2)
    case None => [0, 0, 0, 0, 0, 0]
  }

  /** The address stored at `offset`; page number 0 stands for none. */
  function AddressAt(page: Page, offset: nat): Option<PageAddress>
    requires offset + ADDRESS_SIZE <= PAGE_BODY_SIZE
  {
    var pageNum := FromLE(page[offset + 4..offset + 6]);
    if pageNum == 0 then None else Some(PageAddress(FromLE(page[offset..offset + 4]), pageNum))
  }

  function LengthOf(page: Page): nat {
    FromLE(page[BLOCK_LENGTH..BLOCK_LENGTH + 2])
  }

  function SlotOffset(i: nat): nat {
    BLOCK_ITEMS + ADDRESS_SIZE * i
  }

  /** The slots of a block that are in use, oldest first. */
  function Slots(page: Page): (r: seq<Option<PageAddress>>)
    requires LengthOf(page) <= NUM_SLOTS
    ensures |r| == LengthOf(page)
  {
    seq(LengthOf(page), i requires 0 <= i < LengthOf(page) => AddressAt(page, SlotOffset(i)))
  }

  function Put(page: Page, offset: nat, data: seq<byte>): Page {
    Overlay(page, offset, data)
  }

  // ----- sections do not interfere -----

  lemma PutGet(page: Page, offset: nat, data: seq<byte>, other: nat, size: nat)
    requires offset + |data| <= PAGE_BODY_SIZE && other + size <= PAGE_BODY_SIZE
    ensures other + size <= offset || offset + |data| <= other ==>
              Put(page, offset, data)[other..other + size] == page[other..other + size]
    ensures Put(page, offset, data)[offset..offset + |data|] == data
  {
  }

  lemma PutAddress(page: Page, offset: nat, a: Option<PageAddress>)
    requires offset + ADDRESS_SIZE <= PAGE_BODY_SIZE && (a.Some? ==> AddressFits(a.value))
    ensures AddressAt(Put(page, offset, AddressBytes(a)), offset) == a
  {
    var data := AddressBytes(a);
    var next := Put(page, offset, data);
    PutGet(page, offset, data, 0, 0);
    assert next[offset..offset + 4] == data[..4] && next[offset + 4..offset + 6] == data[4..];
    match a
    case Some(p) =>
      RoundTripSmall(p.segmentNum);
      RoundTripSmall(p.pageNum);
      assert data[..4] == ToLE(p.segmentNum, 4) && data[4..] == ToLE(p.pageNum, 2);
    case None =>
      assert data[4..] == [0, 0];
      assert FromLE([0, 0]) == 0 by { assert [0, 0][1..] == [0]; }
  }

  lemma AddressElsewhere(page: Page, offset: nat, data: seq<byte>, other: nat)
    requires offset + |data| <= PAGE_BODY_SIZE && other + ADDRESS_SIZE <= PAGE_BODY_SIZE
    requires other + ADDRESS_SIZE <= offset || offset + |data| <= other
    ensures AddressAt(Put(page, offset, data), other) == AddressAt(page, other)
  {
    PutGet(page, offset, data, other, 4);
    PutGet(page, offset, data, other + 4, 2);
  }

  lemma LengthElsewhere(page: Page, offset: nat, data: seq<byte>)
    requires offset + |data| <= BLOCK_LENGTH || BLOCK_LENGTH + 2 <= offset
    requires offset + |data| <= PAGE_BODY_SIZE
    ensures LengthOf(Put(page, offset, data)) == LengthOf(page)
  {
    PutGet(page, offset, data, BLOCK_LENGTH, 2);
  }

  lemma PutLength(page: Page, n: nat)
    requires n < U16
    ensures LengthOf(Put(page, BLOCK_LENGTH, ToLE(n, 2))) == n
  {
    PutGet(page, BLOCK_LENGTH, ToLE(n, 2), 0, 0);
    RoundTripSmall(n);
  }

  // ----- pages as a whole -----

  function InitMeta(page: Page, next: PageAddress): Page {
    Put(Put(Put(page, 0, [KIND_META]), META_HEAD, AddressBytes(None)), META_NEXT, AddressBytes(Some(next)))
  }

  function InitBlock(page: Page): Page {
    Put(Put(Put(page, 0, [KIND_BLOCK]), BLOCK_NEXT, AddressBytes(None)), BLOCK_LENGTH, ToLE(0, 2))
  }

  function PushSlot(page: Page, a: PageAddress): Page {
    Put(Put(page, SlotOffset(LengthOf(page)), AddressBytes(Some(a))), BLOCK_LENGTH, ToLE(LengthOf(page) + 1, 2))
  }

  lemma SetMetaHead(page: Page, a: Option<PageAddress>)
    requires a.Some? ==> AddressFits(a.value)
    ensures var next := Put(page, META_HEAD, AddressBytes(a));
            next[0] == page[0] && AddressAt(next, META_HEAD) == a
            && AddressAt(next, META_NEXT) == AddressAt(page, META_NEXT)
  {
    PutAddress(page, META_HEAD, a);
    AddressElsewhere(page, META_HEAD, AddressBytes(a), META_NEXT);
  }

  lemma SetMetaNext(page: Page, a: PageAddress)
    requires AddressFits(a)
    ensures var next := Put(page, META_NEXT, AddressBytes(Some(a)));
            next[0] == page[0] && AddressAt(next, META_NEXT) == Some(a)
            && AddressAt(next, META_HEAD) == AddressAt(page, META_HEAD)
  {
    PutAddress(page, META_NEXT, Some(a));
    AddressElsewhere(page, META_NEXT, AddressBytes(Some(a)), META_HEAD);
  }

  lemma InitMetaIs(page: Page, next: PageAddress)
    requires AddressFits(next)
    ensures var meta := InitMeta(page, next);
            meta[0] == KIND_META && AddressAt(meta, META_HEAD) == None && AddressAt(meta, META_NEXT) == Some(next)
  {
    SetMetaHead(Put(page, 0, [KIND_META]), None);
    SetMetaNext(Put(Put(page, 0, [KIND_META]), META_HEAD, AddressBytes(None)), next);
  }

  lemma SetBlockNext(page: Page, a: Option<PageAddress>)
    requires LengthOf(page) <= NUM_SLOTS && (a.Some? ==> AddressFits(a.value))
    ensures var next := Put(page, BLOCK_NEXT, AddressBytes(a));
            && next[0] == page[0] && AddressAt(next, BLOCK_NEXT) == a
            && LengthOf(next) == LengthOf(page) && Slots(next) == Slots(page)
  {
    var next := Put(page, BLOCK_NEXT, AddressBytes(a));
    PutAddress(page, BLOCK_NEXT, a);
    LengthElsewhere(page, BLOCK_NEXT, AddressBytes(a));
    forall i | 0 <= i < LengthOf(page) ensures AddressAt(next, SlotOffset(i)) == AddressAt(page, SlotOffset(i)) {
      AddressElsewhere(page, BLOCK_NEXT, AddressBytes(a), SlotOffset(i));
    }
  }

  /** A new length keeps the slots below it. */
  lemma SetBlockLength(page: Page, n: nat)
    requires n <= NUM_SLOTS
    ensures var next := Put(page, BLOCK_LENGTH, ToLE(n, 2));
            && next[0] == page[0] && AddressAt(next, BLOCK_NEXT) == AddressAt(page, BLOCK_NEXT) && LengthOf(next) == n
            && forall i :: 0 <= i < NUM_SLOTS ==> AddressAt(next, SlotOffset(i)) == AddressAt(page, SlotOffset(i))
  {
    var next := Put(page, BLOCK_LENGTH, ToLE(n, 2));
    PutLength(page, n);
    AddressElsewhere(page, BLOCK_LENGTH, ToLE(n, 2), BLOCK_NEXT);
    forall i | 0 <= i < NUM_SLOTS ensures AddressAt(next, SlotOffset(i)) == AddressAt(page, SlotOffset(i)) {
      AddressElsewhere(page, BLOCK_LENGTH, ToLE(n, 2), SlotOffset(i));
    }
  }

  lemma InitBlockIs(page: Page)
    ensures var block := InitBlock(page);
            block[0] == KIND_BLOCK && AddressAt(block, BLOCK_NEXT) == None && LengthOf(block) == 0 && Slots(block) == []
  {
    var a := Put(page, 0, [KIND_BLOCK]);
    var b := Put(a, BLOCK_NEXT, AddressBytes(None));
    PutAddress(a, BLOCK_NEXT, None);
    SetBlockLength(b, 0);
  }

  lemma PushSlotIs(page: Page, a: PageAddress)
    requires LengthOf(page) < NUM_SLOTS && AddressFits(a)
    ensures var next := PushSlot(page, a);
            && next[0] == page[0] && AddressAt(next, BLOCK_NEXT) == AddressAt(page, BLOCK_NEXT)
            && LengthOf(next) == LengthOf(page) + 1 && Slots(next) == Slots(page) + [Some(a)]
  {
    var n := LengthOf(page);
    var mid := Put(page, SlotOffset(n), AddressBytes(Some(a)));
    var next := PushSlot(page, a);
    PutAddress(page, SlotOffset(n), Some(a));
    AddressElsewhere(page, SlotOffset(n), AddressBytes(Some(a)), BLOCK_NEXT);
    forall i | 0 <= i < n ensures AddressAt(mid, SlotOffset(i)) == AddressAt(page, SlotOffset(i)) {
      AddressElsewhere(page, SlotOffset(n), AddressBytes(Some(a)), SlotOffset(i));
    }
    SetBlockLength(mid, n + 1);
  }

  lemma PopSlotIs(page: Page)
    requires 0 < LengthOf(page) <= NUM_SLOTS
    ensures var next := Put(page, BLOCK_LENGTH, ToLE(LengthOf(page) - 1, 2));
            && next[0] == page[0] && AddressAt(next, BLOCK_NEXT) == AddressAt(page, BLOCK_NEXT)
            && LengthOf(next) == LengthOf(page) - 1 && Slots(next) == Slots(page)[..LengthOf(page) - 1]
  {
    SetBlockLength(page, LengthOf(page) - 1);
  }
}
