/** How the items of the log are written as bytes and read back. Integers are little-endian. */
module ItemCodec {
  import opened Bytes
  import opened WalTypes

  datatype FileError = UnexpectedEof | Corrupted | ChecksumMismatch

  /** The outcome of reading a value: the value and the bytes after it. */
  datatype Parsed<+T> = Parsed(value: T, rest: seq<byte>) | Failed(error: FileError) {
    predicate IsFailure() { Failed? }
    function PropagateFailure<U>(): Parsed<U>
      requires Failed?
    {
      Failed(error)
    }
    function Extract(): (T, seq<byte>)
      requires Parsed?
    {
      (value, rest)
    }
  }

  const U16: nat := 0x1_0000
  const U32: nat := 0x1_0000_0000

  const FLAG_UNDO: byte := 1

  // ----- what fits the widths of the format -----

  predicate AddressFits(p: PageAddress) {
    p.segmentNum < U32 && 0 < p.pageNum < U16
  }

  predicate StateFits(ts: TransactionState) {
    ts.firstGen < U64 && IndexFits(ts.lastIndex)
  }

  predicate Encodable(item: Item) {
    && BodyLength(item) <= MAX_BODY_LENGTH
    && match item
       case Write(tid, prev, page, offset, from, to) =>
         && tid < U64 && (prev.Some? ==> IndexFits(prev.value)) && AddressFits(page) && offset < U16
         && (from.Some? ==> |from.value| == |to|)
       case Commit(tid, prev) => tid < U64 && (prev.Some? ==> IndexFits(prev.value))
       case Checkpoint(transactions, dirtyPages) =>
         && (forall t :: t in transactions ==> t < U64 && StateFits(transactions[t]))
         && (forall p :: p in dirtyPages ==> AddressFits(p) && IndexFits(dirtyPages[p]))
  }

  /** A write that fits a page fits an item, whatever its length. */
  lemma PageWriteFits(item: Item)
    requires item.Write? && item.offset + |item.to| <= PAGE_BODY_SIZE
    requires item.from.Some? ==> |item.from.value| == |item.to|
    ensures BodyLength(item) <= 65532 <= MAX_BODY_LENGTH && item.offset < U16
  {
  }

  // ----- writing -----

  function TransactionBlock(tid: nat, prev: Option<WalIndex>): (r: seq<byte>)
    ensures |r| == 24
  {
    ToLE(tid, 8) + ToLE(if prev.Some? then prev.value.generation else 0, 8) +
    ToLE(if prev.Some? then prev.value.offset else 0, 8)
  }

  function WriteBlock(page: PageAddress, offset: nat, length: nat): (r: seq<byte>)
    ensures |r| == 10
  {
    ToLE(page.segmentNum, 4) + ToLE(page.pageNum, 2) + ToLE(offset, 2) + ToLE(length, 2)
  }

  function DirtyEntry(p: PageAddress, index: WalIndex): (r: seq<byte>)
    ensures |r| == 22
  {
    ToLE(p.segmentNum, 4) + ToLE(p.pageNum, 2) + (ToLE(index.generation, 8) + ToLE(index.offset, 8))
  }

  function TransactionEntry(tid: nat, ts: TransactionState): (r: seq<byte>)
    ensures |r| == 32
  {
    ToLE(tid, 8) + (ToLE(ts.firstGen, 8) + ToLE(ts.lastIndex.generation, 8) + ToLE(ts.lastIndex.offset, 8))
  }

  function DirtyEntries(dirtyPages: map<PageAddress, WalIndex>, order: seq<PageAddress>): (r: seq<byte>)
    requires forall p :: p in order ==> p in dirtyPages
    ensures |r| == 22 * |order|
  {
    if order == [] then [] else DirtyEntry(order[0], dirtyPages[order[0]]) + DirtyEntries(dirtyPages, order[1..])
  }

  function TransactionEntries(transactions: map<nat, TransactionState>, order: seq<nat>): (r: seq<byte>)
    requires forall t :: t in order ==> t in transactions
    ensures |r| == 32 * |order|
  {
    if order == [] then []
    else TransactionEntry(order[0], transactions[order[0]]) + TransactionEntries(transactions, order[1..])
  }

  /** An order in which a map is walked: every key once. */
  ghost predicate Orders<K(!new)>(order: seq<K>, keys: set<K>) {
    && (forall k :: k in order <==> k in keys)
    && (forall i, j :: 0 <= i < j < |order| ==> order[i] != order[j])
  }

  lemma {:induction false} OrderSize<K(!new)>(order: seq<K>, keys: set<K>)
    requires Orders(order, keys)
    ensures |order| == |keys|
  {
    if order == [] {
      assert keys == {};
    } else {
      var rest := order[1..];
      forall k ensures k in rest <==> k in keys - {order[0]} {
        if k in keys - {order[0]} {
          var i :| 0 <= i < |order| && order[i] == k;
          assert rest[i - 1] == k;
        }
      }
      OrderSize(rest, keys - {order[0]});
    }
  }

  function CheckpointBlock(item: Item, dirtyOrder: seq<PageAddress>, txOrder: seq<nat>): seq<byte>
    requires item.Checkpoint?
    requires (forall p :: p in dirtyOrder ==> p in item.dirtyPages)
    requires forall t :: t in txOrder ==> t in item.transactions
  {
    ToLE(|item.dirtyPages|, 8) + ToLE(|item.transactions|, 8)
    + (DirtyEntries(item.dirtyPages, dirtyOrder) + TransactionEntries(item.transactions, txOrder))
  }

  /** `body` is one way of writing the item; a checkpoint's maps may be walked in any order. */
  ghost predicate IsBodyOf(body: seq<byte>, item: Item) {
    match item
    case Write(tid, prev, page, offset, from, to) =>
      body == TransactionBlock(tid, prev) +
      (WriteBlock(page, offset, |to|) + ((if from.Some? then from.value else []) + to))
    case Commit(tid, prev) => body == TransactionBlock(tid, prev)
    case Checkpoint(transactions, dirtyPages) =>
      exists dirtyOrder, txOrder :: IsCheckpointBody(body, item, dirtyOrder, txOrder)
  }

  ghost predicate IsCheckpointBody(body: seq<byte>, item: Item, dirtyOrder: seq<PageAddress>, txOrder: seq<nat>) {
    && item.Checkpoint? && Orders(dirtyOrder, item.dirtyPages.Keys) && Orders(txOrder, item.transactions.Keys)
    && body == CheckpointBlock(item, dirtyOrder, txOrder)
  }

  lemma BodySize(body: seq<byte>, item: Item)
    requires IsBodyOf(body, item) && (item.Write? && item.from.Some? ==> |item.from.value| == |item.to|)
    ensures |body| == BodyLength(item)
  {
    if item.Checkpoint? {
      var dirtyOrder, txOrder :| IsCheckpointBody(body, item, dirtyOrder, txOrder);
      OrderSize(dirtyOrder, item.dirtyPages.Keys);
      OrderSize(txOrder, item.transactions.Keys);
    }
  }

  function KindOf(item: Item): byte {
    match item
    case Write(_, _, _, _, _, _) => 0
    case Commit(_, _) => 1
    case Checkpoint(_, _) => 2
  }

  function FlagsOf(item: Item): byte {
    if item.Write? && item.from.None? then FLAG_UNDO else 0
  }

  // ----- reading -----

  function ReadBytes(bytes: seq<byte>, n: nat): Parsed<seq<byte>> {
    if |bytes| < n then Failed(UnexpectedEof) else Parsed(bytes[..n], bytes[n..])
  }

  function ReadIndex(bytes: seq<byte>): Parsed<WalIndex> {
    var (b, rest) :- ReadBytes(bytes, 16);
    var offset := FromLE(b[8..]);
    if offset == 0 then Failed(Corrupted) else Parsed(WalIndex(FromLE(b[..8]), offset), rest)
  }

  function ReadAddress(bytes: seq<byte>): Parsed<PageAddress> {
    var (b, rest) :- ReadBytes(bytes, 6);
    var pageNum := FromLE(b[4..]);
    if pageNum == 0 then Failed(Corrupted) else Parsed(PageAddress(FromLE(b[..4]), pageNum), rest)
  }

  function ReadState(bytes: seq<byte>): Parsed<TransactionState> {
    var (b, rest) :- ReadBytes(bytes, 24);
    var offset := FromLE(b[16..]);
    if offset == 0 then Failed(Corrupted)
    else Parsed(TransactionState(FromLE(b[..8]), WalIndex(FromLE(b[8..16]), offset)), rest)
  }

  function ReadTransactionData(bytes: seq<byte>): Parsed<(nat, Option<WalIndex>)> {
    var (b, rest) :- ReadBytes(bytes, 24);
    var offset := FromLE(b[16..]);
    Parsed((FromLE(b[..8]), if offset == 0 then None else Some(WalIndex(FromLE(b[8..16]), offset))), rest)
  }

  function ReadWriteData(bytes: seq<byte>, isUndo: bool): Parsed<Item> {
    var (transaction, rest) :- ReadTransactionData(bytes);
    var (page, rest) :- ReadWriteAddress(rest);
    var (block, rest) :- ReadBytes(rest, 4);
    var ((from, to), rest) :- ReadImages(rest, FromLE(block[2..]), isUndo);
    Parsed(Write(transaction.0, transaction.1, page, FromLE(block[..2]), from, to), rest)
  }

  function ReadImages(bytes: seq<byte>, length: nat, isUndo: bool): Parsed<(Option<seq<byte>>, seq<byte>)> {
    var (from, rest) :- ReadBytes(bytes, if isUndo then 0 else length);
    var (to, rest) :- ReadBytes(rest, length);
    Parsed((if isUndo then None else Some(from), to), rest)
  }

  /** The address in a write block; the whole block of ten bytes is read before the address is looked at. */
  function ReadWriteAddress(bytes: seq<byte>): Parsed<PageAddress> {
    if |bytes| < 10 then Failed(UnexpectedEof) else ReadAddress(bytes)
  }

  function ReadDirtyEntries(bytes: seq<byte>, n: nat): Parsed<map<PageAddress, WalIndex>>
    decreases n
  {
    if n == 0 then Parsed(map[], bytes)
    else
      var (before, rest) :- ReadDirtyEntries(bytes, n - 1);
      var (page, rest) :- ReadAddress(rest);
      var (index, rest) :- ReadIndex(rest);
      Parsed(before[page := index], rest)
  }

  function ReadTransactionEntries(bytes: seq<byte>, n: nat): Parsed<map<nat, TransactionState>>
    decreases n
  {
    if n == 0 then Parsed(map[], bytes)
    else
      var (before, rest) :- ReadTransactionEntries(bytes, n - 1);
      var (tid, rest) :- ReadBytes(rest, 8);
      var (state, rest) :- ReadState(rest);
      Parsed(before[FromLE(tid) := state], rest)
  }

  function ReadCheckpointData(bytes: seq<byte>): Parsed<Item> {
    var (block, rest) :- ReadBytes(bytes, 16);
    var (dirtyPages, rest) :- ReadDirtyEntries(rest, FromLE(block[..8]));
    var (transactions, rest) :- ReadTransactionEntries(rest, FromLE(block[8..]));
    Parsed(Checkpoint(transactions, dirtyPages), rest)
  }

  function ReadBody(kind: byte, flags: byte, body: seq<byte>): Parsed<Item> {
    if kind == 0 then ReadWriteData(body, flags % 2 == 1)
    else if kind == 1 then
      var (transaction, rest) :- ReadTransactionData(body);
      Parsed(Commit(transaction.0, transaction.1), rest)
    else if kind == 2 then ReadCheckpointData(body)
    else Failed(Corrupted)
  }

  // ----- round trips -----

  lemma ReadBytesOf(part: seq<byte>, rest: seq<byte>)
    ensures ReadBytes(part + rest, |part|) == Parsed(part, rest)
  {
  }

  lemma RoundTrip8(n: nat)
    requires n < U64
    ensures FromLE(ToLE(n, 8)) == n
  {
    Pow256Values();
    FromToLE(n, 8);
  }

  lemma RoundTripSmall(n: nat)
    ensures n < U32 ==> FromLE(ToLE(n, 4)) == n
    ensures n < U16 ==> FromLE(ToLE(n, 2)) == n
  {
    Pow256Values();
    if n < U32 { FromToLE(n, 4); }
    if n < U16 { FromToLE(n, 2); }
  }

  lemma IndexRoundTrip(index: WalIndex, rest: seq<byte>)
    requires IndexFits(index)
    ensures ReadIndex(ToLE(index.generation, 8) + ToLE(index.offset, 8) + rest) == Parsed(index, rest)
  {
    var b := ToLE(index.generation, 8) + ToLE(index.offset, 8);
    ReadBytesOf(b, rest);
    RoundTrip8(index.generation);
    RoundTrip8(index.offset);
    assert b[..8] == ToLE(index.generation, 8) && b[8..] == ToLE(index.offset, 8);
  }

  lemma AddressRoundTrip(p: PageAddress, rest: seq<byte>)
    requires AddressFits(p)
    ensures ReadAddress(ToLE(p.segmentNum, 4) + ToLE(p.pageNum, 2) + rest) == Parsed(p, rest)
  {
    var b := ToLE(p.segmentNum, 4) + ToLE(p.pageNum, 2);
    ReadBytesOf(b, rest);
    RoundTripSmall(p.segmentNum);
    RoundTripSmall(p.pageNum);
    assert b[..4] == ToLE(p.segmentNum, 4) && b[4..] == ToLE(p.pageNum, 2);
  }

  lemma StateRoundTrip(ts: TransactionState, rest: seq<byte>)
    requires StateFits(ts)
    ensures ReadState(ToLE(ts.firstGen, 8) + ToLE(ts.lastIndex.generation, 8) + ToLE(ts.lastIndex.offset, 8) + rest) ==
            Parsed(ts, rest)
  {
    var b := ToLE(ts.firstGen, 8) + ToLE(ts.lastIndex.generation, 8) + ToLE(ts.lastIndex.offset, 8);
    ReadBytesOf(b, rest);
    RoundTrip8(ts.firstGen);
    RoundTrip8(ts.lastIndex.generation);
    RoundTrip8(ts.lastIndex.offset);
    assert b[..8] == ToLE(ts.firstGen, 8) && b[8..16] == ToLE(ts.lastIndex.generation, 8)
           && b[16..] == ToLE(ts.lastIndex.offset, 8);
  }

  lemma TransactionRoundTrip(tid: nat, prev: Option<WalIndex>, rest: seq<byte>)
    requires tid < U64 && (prev.Some? ==> IndexFits(prev.value))
    ensures ReadTransactionData(TransactionBlock(tid, prev) + rest) == Parsed((tid, prev), rest)
  {
    var b := TransactionBlock(tid, prev);
    var gen, offset := if prev.Some? then prev.value.generation else 0, if prev.Some? then prev.value.offset else 0;
    ReadBytesOf(b, rest);
    RoundTrip8(tid);
    RoundTrip8(gen);
    RoundTrip8(offset);
    assert b[..8] == ToLE(tid, 8) && b[8..16] == ToLE(gen, 8) && b[16..] == ToLE(offset, 8);
  }

  lemma ImagesRoundTrip(from: Option<seq<byte>>, to: seq<byte>, rest: seq<byte>)
    requires from.Some? ==> |from.value| == |to|
    ensures ReadImages((if from.Some? then from.value else []) + to + rest, |to|, from.None?) ==
            Parsed((from, to), rest)
  {
    var image := if from.Some? then from.value else [];
    assert image + to + rest == image + (to + rest);
    ReadBytesOf(image, to + rest);
    ReadBytesOf(to, rest);
  }

  lemma Reassociate(a: seq<byte>, b: seq<byte>, c: seq<byte>, d: seq<byte>)
    ensures a + (b + c) + d == a + (b + (c + d))
  {
  }

  lemma WriteBlockRoundTrip(page: PageAddress, offset: nat, length: nat, rest: seq<byte>)
    requires AddressFits(page) && offset < U16 && length < U16
    ensures var tail := ToLE(offset, 2) + ToLE(length, 2);
            && ReadWriteAddress(WriteBlock(page, offset, length) + rest) == Parsed(page, tail + rest)
            && ReadBytes(tail + rest, 4) == Parsed(tail, rest) && FromLE(tail[..2]) == offset
            && FromLE(tail[2..]) == length
  {
    var head, tail := ToLE(page.segmentNum, 4) + ToLE(page.pageNum, 2), ToLE(offset, 2) + ToLE(length, 2);
    assert WriteBlock(page, offset, length) + rest == head + (tail + rest);
    AddressRoundTrip(page, tail + rest);
    ReadBytesOf(tail, rest);
    RoundTripSmall(offset);
    RoundTripSmall(length);
    assert tail[..2] == ToLE(offset, 2) && tail[2..] == ToLE(length, 2);
  }

  lemma WriteRoundTrip(item: Item, rest: seq<byte>)
    requires item.Write? && Encodable(item)
    ensures var data := (if item.from.Some? then item.from.value else []) + item.to;
            var body := TransactionBlock(item.tid, item.prev) + (WriteBlock(item.page, item.offset, |item.to|) + data);
            ReadWriteData(body + rest, item.from.None?) == Parsed(item, rest)
  {
    var data := (if item.from.Some? then item.from.value else []) + item.to;
    var block := WriteBlock(item.page, item.offset, |item.to|);
    Reassociate(TransactionBlock(item.tid, item.prev), block, data, rest);
    TransactionRoundTrip(item.tid, item.prev, block + (data + rest));
    WriteBlockRoundTrip(item.page, item.offset, |item.to|, data + rest);
    ImagesRoundTrip(item.from, item.to, rest);
  }

  lemma {:induction false} DirtyEntriesAppend(dirtyPages: map<PageAddress, WalIndex>, order: seq<PageAddress>,
                                              p: PageAddress)
    requires p in dirtyPages && forall q :: q in order ==> q in dirtyPages
    ensures forall q :: q in order + [p] ==> q in dirtyPages
    ensures DirtyEntries(dirtyPages, order + [p]) == DirtyEntries(dirtyPages, order) + DirtyEntry(p, dirtyPages[p])
  {
    if order == [] {
      assert order + [p] == [p] && [p][1..] == [];
    } else {
      DirtyEntriesAppend(dirtyPages, order[1..], p);
      assert (order + [p])[1..] == order[1..] + [p];
      assert order[0] in order;
      var first, rest, last := DirtyEntry(order[0], dirtyPages[order[0]]), DirtyEntries(dirtyPages, order[1..]),
                               DirtyEntry(p, dirtyPages[p]);
      assert first + (rest + last) == first + rest + last;
    }
  }

  lemma {:induction false} TransactionEntriesAppend(transactions: map<nat, TransactionState>, order: seq<nat>, t: nat)
    requires t in transactions && forall q :: q in order ==> q in transactions
    ensures forall q :: q in order + [t] ==> q in transactions
    ensures TransactionEntries(transactions, order + [t]) ==
            TransactionEntries(transactions, order) + TransactionEntry(t, transactions[t])
  {
    if order == [] {
      assert order + [t] == [t] && [t][1..] == [];
    } else {
      TransactionEntriesAppend(transactions, order[1..], t);
      assert (order + [t])[1..] == order[1..] + [t];
      assert order[0] in order;
      var first, rest, last := TransactionEntry(order[0], transactions[order[0]]),
                               TransactionEntries(transactions, order[1..]), TransactionEntry(t, transactions[t]);
      assert first + (rest + last) == first + rest + last;
    }
  }

  function Restrict<K, V>(m: map<K, V>, keys: seq<K>): map<K, V> {
    map k | k in keys && k in m :: m[k]
  }

  /** Reading entries in any order, even with repetitions, gives the map restricted to their keys. */
  lemma {:induction false} DirtyEntriesRoundTrip(dirtyPages: map<PageAddress, WalIndex>, order: seq<PageAddress>,
                                                 rest: seq<byte>)
    requires forall p :: p in order ==> p in dirtyPages && AddressFits(p) && IndexFits(dirtyPages[p])
    ensures ReadDirtyEntries(DirtyEntries(dirtyPages, order) + rest, |order|) ==
            Parsed(Restrict(dirtyPages, order), rest)
  {
    if order != [] {
      var n := |order| - 1;
      var init, p := order[..n], order[n];
      assert order == init + [p];
      var index := dirtyPages[p];
      DirtyEntriesAppend(dirtyPages, init, p);
      var a, b := ToLE(p.segmentNum, 4) + ToLE(p.pageNum, 2), ToLE(index.generation, 8) + ToLE(index.offset, 8);
      assert DirtyEntries(dirtyPages, order) + rest == DirtyEntries(dirtyPages, init) + (a + (b + rest));
      DirtyEntriesRoundTrip(dirtyPages, init, a + (b + rest));
      AddressRoundTrip(p, b + rest);
      IndexRoundTrip(index, rest);
      RestrictAppend(dirtyPages, init, p);
    } else {
      assert DirtyEntries(dirtyPages, order) + rest == rest;
    }
  }

  lemma TransactionEntryRoundTrip(t: nat, ts: TransactionState, rest: seq<byte>)
    requires t < U64 && StateFits(ts)
    ensures var tid := ReadBytes(TransactionEntry(t, ts) + rest, 8);
            tid.Parsed? && FromLE(tid.value) == t && ReadState(tid.rest) == Parsed(ts, rest)
  {
    var a := ToLE(t, 8);
    var b := ToLE(ts.firstGen, 8) + ToLE(ts.lastIndex.generation, 8) + ToLE(ts.lastIndex.offset, 8);
    assert TransactionEntry(t, ts) + rest == a + (b + rest);
    ReadBytesOf(a, b + rest);
    RoundTrip8(t);
    StateRoundTrip(ts, rest);
  }

  lemma RestrictAppend<K, V>(m: map<K, V>, keys: seq<K>, k: K)
    requires k in m
    ensures Restrict(m, keys)[k := m[k]] == Restrict(m, keys + [k])
  {
  }

  lemma {:induction false} TransactionEntriesRoundTrip(transactions: map<nat, TransactionState>, order: seq<nat>,
                                                       rest: seq<byte>)
    requires forall t :: t in order ==> t in transactions && t < U64 && StateFits(transactions[t])
    ensures ReadTransactionEntries(TransactionEntries(transactions, order) + rest, |order|) ==
            Parsed(Restrict(transactions, order), rest)
  {
    if order != [] {
      var n := |order| - 1;
      var init, t := order[..n], order[n];
      assert order == init + [t];
      var entry := TransactionEntry(t, transactions[t]);
      TransactionEntriesAppend(transactions, init, t);
      assert TransactionEntries(transactions, order) + rest == TransactionEntries(transactions, init) + (entry + rest);
      TransactionEntriesRoundTrip(transactions, init, entry + rest);
      TransactionEntryRoundTrip(t, transactions[t], rest);
      RestrictAppend(transactions, init, t);
    } else {
      assert TransactionEntries(transactions, order) + rest == rest;
    }
  }

  lemma MapsRoundTrip(item: Item, dirtyOrder: seq<PageAddress>, txOrder: seq<nat>, rest: seq<byte>)
    requires item.Checkpoint? && Encodable(item)
    requires Orders(dirtyOrder, item.dirtyPages.Keys) && Orders(txOrder, item.transactions.Keys)
    ensures var a, b := DirtyEntries(item.dirtyPages, dirtyOrder), TransactionEntries(item.transactions, txOrder);
            && ReadDirtyEntries(a + (b + rest), |item.dirtyPages|) == Parsed(item.dirtyPages, b + rest)
            && ReadTransactionEntries(b + rest, |item.transactions|) == Parsed(item.transactions, rest)
  {
    var b := TransactionEntries(item.transactions, txOrder);
    OrderSize(dirtyOrder, item.dirtyPages.Keys);
    OrderSize(txOrder, item.transactions.Keys);
    DirtyEntriesRoundTrip(item.dirtyPages, dirtyOrder, b + rest);
    TransactionEntriesRoundTrip(item.transactions, txOrder, rest);
    assert Restrict(item.dirtyPages, dirtyOrder) == item.dirtyPages;
    assert Restrict(item.transactions, txOrder) == item.transactions;
  }

  lemma CountsRoundTrip(n: nat, m: nat, rest: seq<byte>)
    requires n < U64 && m < U64
    ensures var block := ToLE(n, 8) + ToLE(m, 8);
            ReadBytes(block + rest, 16) == Parsed(block, rest) && FromLE(block[..8]) == n && FromLE(block[8..]) == m
  {
    var block := ToLE(n, 8) + ToLE(m, 8);
    ReadBytesOf(block, rest);
    RoundTrip8(n);
    RoundTrip8(m);
    assert block[..8] == ToLE(n, 8) && block[8..] == ToLE(m, 8);
  }

  lemma CheckpointRoundTrip(item: Item, dirtyOrder: seq<PageAddress>, txOrder: seq<nat>, rest: seq<byte>)
    requires item.Checkpoint? && Encodable(item)
    requires Orders(dirtyOrder, item.dirtyPages.Keys) && Orders(txOrder, item.transactions.Keys)
    ensures ReadCheckpointData(CheckpointBlock(item, dirtyOrder, txOrder) + rest) == Parsed(item, rest)
  {
    var block := ToLE(|item.dirtyPages|, 8) + ToLE(|item.transactions|, 8);
    var a, b := DirtyEntries(item.dirtyPages, dirtyOrder), TransactionEntries(item.transactions, txOrder);
    Reassociate(block, a, b, rest);
    CountsRoundTrip(|item.dirtyPages|, |item.transactions|, a + (b + rest));
    MapsRoundTrip(item, dirtyOrder, txOrder, rest);
  }

  /** Reading what was written gives the item back and consumes exactly its body, whatever follows, and whatever the
      order in which a checkpoint's maps were walked. */
  lemma ItemRoundTrip(item: Item, body: seq<byte>, rest: seq<byte>)
    requires Encodable(item) && IsBodyOf(body, item)
    ensures ReadBody(KindOf(item), FlagsOf(item), body + rest) == Parsed(item, rest)
    ensures |body| == BodyLength(item)
  {
    BodySize(body, item);
    match item
    case Write(_, _, _, _, _, _) => WriteBodyRoundTrip(item, body, rest);
    case Commit(_, _) => CommitBodyRoundTrip(item, body, rest);
    case Checkpoint(_, _) => CheckpointBodyRoundTrip(item, body, rest);
  }

  lemma WriteBodyRoundTrip(item: Item, body: seq<byte>, rest: seq<byte>)
    requires item.Write? && Encodable(item) && IsBodyOf(body, item)
    ensures ReadBody(KindOf(item), FlagsOf(item), body + rest) == Parsed(item, rest)
  {
    WriteRoundTrip(item, rest);
  }

  lemma CommitBodyRoundTrip(item: Item, body: seq<byte>, rest: seq<byte>)
    requires item.Commit? && Encodable(item) && IsBodyOf(body, item)
    ensures ReadBody(KindOf(item), FlagsOf(item), body + rest) == Parsed(item, rest)
  {
    TransactionRoundTrip(item.tid, item.prev, rest);
  }

  lemma CheckpointBodyRoundTrip(item: Item, body: seq<byte>, rest: seq<byte>)
    requires item.Checkpoint? && Encodable(item) && IsBodyOf(body, item)
    ensures ReadBody(KindOf(item), FlagsOf(item), body + rest) == Parsed(item, rest)
  {
    var dirtyOrder, txOrder :| IsCheckpointBody(body, item, dirtyOrder, txOrder);
    CheckpointRoundTrip(item, dirtyOrder, txOrder, rest);
  }
}
