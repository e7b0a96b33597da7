/** The log file as an object: a buffer, a cursor that readers leave anywhere, and the bytes. */
module WalFile {
  import opened Bytes
  import opened WalTypes
  import opened ItemCodec
  import opened LogImage
  import opened TornLog
  import opened BackwardReads

  const WRITE_BUF_LIMIT: nat := 2 * 1024 * 1024

  datatype Next = Yield(offset: nat, item: Item) | End | Failure(error: FileError)

  /** Writing `data` into a file at `cursor`, as a file does it: over what is there, and past its end. */
  function WriteAt(file: seq<byte>, cursor: nat, data: seq<byte>): seq<byte> {
    if data == [] then file
    else
      var padded := if cursor <= |file| then file else file + seq(cursor - |file|, _ => 0);
      padded[..cursor] + data + if cursor + |data| <= |padded| then padded[cursor + |data|..] else []
  }

  lemma WriteAtEnd(file: seq<byte>, data: seq<byte>)
    ensures WriteAt(file, |file|, data) == file + data
  {
  }

  /** The file holds exactly the items of `l`, and `prev` is where the last of them starts. */
  ghost predicate Intact(crc: seq<byte> -> nat, l: seq<Logged>, file: seq<byte>, prev: Option<nat>) {
    AllOk(l) && SizeOf(l) <= U64 && file == Image(crc, l) && prev == PrevOf(l, |l|)
  }

  /** What is read from a header and the bytes behind it. */
  function ReadTail(crc: seq<byte> -> nat, header: seq<byte>, rest: seq<byte>): ReadResult
    requires |header| == HEADER_SIZE
  {
    var length, prev := FromLE(header[2..4]), FromLE(header[8..16]);
    if header[0] > 2 then Stop(Corrupted)
    else if |rest| < length then Stop(UnexpectedEof)
    else ReadChecked(crc, header, rest[..length], if prev == 0 then None else Some(prev))
  }

  lemma ExactIsTail(crc: seq<byte> -> nat, file: seq<byte>, offset: nat)
    requires offset + HEADER_SIZE <= |file|
    ensures ReadExact(crc, file, offset) ==
            ReadTail(crc, file[offset..offset + HEADER_SIZE], file[offset + HEADER_SIZE..])
  {
    var start, length := offset + HEADER_SIZE, FromLE(file[offset..offset + HEADER_SIZE][2..4]);
    if start + length <= |file| { FrontOfTail(file, start, length); }
  }

  lemma FrontOfTail(s: seq<byte>, i: nat, n: nat)
    requires i + n <= |s|
    ensures s[i..][..n] == s[i..i + n]
  {
  }

  /** Reads items one after the other, in either direction. After a failure it is not used again. */
  class ItemReader {
    const crc: seq<byte> -> nat
    const file: seq<byte>
    var offset: nat
    var prevItem: Option<nat>

    constructor (crc: seq<byte> -> nat, file: seq<byte>, offset: nat, prevItem: Option<nat>)
      ensures this.crc == crc && this.file == file && this.offset == offset && this.prevItem == prevItem
    {
      this.crc, this.file, this.offset, this.prevItem := crc, file, offset, prevItem;
    }

    method ReadDirtyPages(bytes: seq<byte>, n: nat) returns (r: Parsed<map<PageAddress, WalIndex>>)
      ensures r == ReadDirtyEntries(bytes, n)
    {
      var dirtyPages, rest := map[], bytes;
      for i := 0 to n
        invariant ReadDirtyEntries(bytes, i) == Parsed(dirtyPages, rest)
      {
        ghost var next := ReadDirtyEntries(bytes, i + 1);
        var page := ReadAddress(rest);
        if page.Failed? { EntriesFail(bytes, i + 1, n); return Failed(page.error); }
        var index := ReadIndex(page.rest);
        if index.Failed? { EntriesFail(bytes, i + 1, n); return Failed(index.error); }
        dirtyPages, rest := dirtyPages[page.value := index.value], index.rest;
      }
      r := Parsed(dirtyPages, rest);
    }

    method ReadTransactions(bytes: seq<byte>, n: nat) returns (r: Parsed<map<nat, TransactionState>>)
      ensures r == ReadTransactionEntries(bytes, n)
    {
      var transactions, rest := map[], bytes;
      for i := 0 to n
        invariant ReadTransactionEntries(bytes, i) == Parsed(transactions, rest)
      {
        ghost var next := ReadTransactionEntries(bytes, i + 1);
        var tid := ReadBytes(rest, 8);
        if tid.Failed? { TransactionsFail(bytes, i + 1, n); return Failed(tid.error); }
        var state := ReadState(tid.rest);
        if state.Failed? { TransactionsFail(bytes, i + 1, n); return Failed(state.error); }
        transactions, rest := transactions[FromLE(tid.value) := state.value], state.rest;
      }
      r := Parsed(transactions, rest);
    }

    method ReadCheckpoint(body: seq<byte>) returns (r: Parsed<Item>)
      ensures r == ReadCheckpointData(body)
    {
      var block := ReadBytes(body, 16);
      if block.Failed? { return Failed(block.error); }
      var dirtyPages := ReadDirtyPages(block.rest, FromLE(block.value[..8]));
      if dirtyPages.Failed? { return Failed(dirtyPages.error); }
      var transactions := ReadTransactions(dirtyPages.rest, FromLE(block.value[8..]));
      if transactions.Failed? { return Failed(transactions.error); }
      r := Parsed(Checkpoint(transactions.value, dirtyPages.value), transactions.rest);
    }

    method ReadContent(kind: byte, flags: byte, body: seq<byte>) returns (r: Parsed<Item>)
      requires kind <= 2
      ensures r == ReadBody(kind, flags, body)
    {
      if kind == 2 { r := ReadCheckpoint(body); } else { r := ReadBody(kind, flags, body); }
    }

    method CheckAndRead(header: seq<byte>, body: seq<byte>, prev: Option<nat>) returns (r: ReadResult)
      requires |header| == HEADER_SIZE && header[0] <= 2
      ensures r == ReadChecked(crc, header, body, prev)
    {
      if Checksum(crc, body) != FromLE(header[4..8]) { return Stop(ChecksumMismatch); }
      var item := ReadContent(header[0], header[1], body);
      match item
      case Failed(e) => r := Stop(e);
      case Parsed(content, _) => r := Found(content, |body|, prev);
    }

    method ReadItemExact() returns (r: ReadResult)
      modifies this
      ensures r == ReadExact(crc, file, old(offset))
      ensures r.Found? ==> offset == LogImage.NextOffset(old(offset), r.length) && prevItem == r.prev
      ensures r.Stop? ==> offset == old(offset)
    {
      if |file| < offset + HEADER_SIZE { return Stop(UnexpectedEof); }
      ExactIsTail(crc, file, offset);
      r := ReadBehind(file[offset..offset + HEADER_SIZE], file[offset + HEADER_SIZE..]);
    }

    method ReadBehind(header: seq<byte>, rest: seq<byte>) returns (r: ReadResult)
      requires |header| == HEADER_SIZE
      modifies this
      ensures r == ReadTail(crc, header, rest)
      ensures r.Found? ==> offset == LogImage.NextOffset(old(offset), r.length) && prevItem == r.prev
      ensures r.Stop? ==> offset == old(offset)
    {
      if header[0] > 2 { return Stop(Corrupted); }
      var length, prev := FromLE(header[2..4]), FromLE(header[8..16]);
      if |rest| < length { return Stop(UnexpectedEof); }
      prevItem := if prev == 0 then None else Some(prev);
      r := CheckAndRead(header, rest[..length], prevItem);
      if r.Found? { offset := offset + HEADER_SIZE + length + FOOTER_SIZE; }
    }

    /** The end of the file, wherever it comes, ends the iteration without an error. */
    method ReadItem() returns (r: Next)
      modifies this
      ensures match ReadExact(crc, file, old(offset))
              case Found(item, length, prev) =>
                r == Yield(old(offset), item) && offset == LogImage.NextOffset(old(offset), length) && prevItem == prev
              case Stop(e) => r == if e.UnexpectedEof? then End else Failure(e)
    {
      var start := offset;
      var result := ReadItemExact();
      match result
      case Found(item, _, _) => r := Yield(start, item);
      case Stop(e) => r := if e.UnexpectedEof? then End else Failure(e);
    }

    method ReadPrevItem() returns (r: Next)
      modifies this
      ensures old(prevItem).None? ==> r == End
      ensures old(prevItem).Some? ==>
                match ReadExact(crc, file, old(prevItem).value)
                case Found(item, _, prev) => r == Yield(old(prevItem).value, item) && prevItem == prev
                case Stop(e) => r == if e.UnexpectedEof? then End else Failure(e)
    {
      if prevItem.None? { return End; }
      offset := prevItem.value;
      r := ReadItem();
    }

    /** Reads on until the end or an error. */
    method CollectForward() returns (items: seq<(nat, Item)>, error: Option<FileError>)
      modifies this
      ensures items == ReadAll(crc, file, old(offset)).0 && error == ReadAll(crc, file, old(offset)).1
    {
      items, error := [], None;
      ghost var all := ReadAll(crc, file, offset);
      var done := false;
      while !done
        invariant done ==> items == all.0 && error == all.1
        invariant !done ==> error == None && all.0 == items + ReadAll(crc, file, offset).0
                            && all.1 == ReadAll(crc, file, offset).1
        decreases !done, if offset < |file| then |file| - offset else 0
      {
        ghost var rest := ReadAll(crc, file, offset);
        var next := ReadItem();
        match next
        case Yield(start, item) =>
          assert rest.0 == [(start, item)] + ReadAll(crc, file, offset).0 && rest.1 == ReadAll(crc, file, offset).1;
          items := items + [(start, item)];
        case End =>
          assert rest == ([], None);
          done := true;
        case Failure(e) =>
          assert rest == ([], Some(e));
          done, error := true, Some(e);
      }
    }

    method StepBack(ghost rest: seq<(nat, Item)>, ghost last: Option<FileError>) returns (r: Next)
      requires ReadsBack(crc, file, prevItem, rest, last)
      modifies this
      ensures r.Yield? ==> rest != [] && rest[0] == (r.offset, r.item)
                           && ReadsBack(crc, file, prevItem, rest[1..], last)
      ensures r.End? ==> rest == [] && last == None
      ensures r.Failure? ==> rest == [] && last == Some(r.error)
    {
      r := ReadPrevItem();
    }

    /** Reads back until there is no item before, or to an error. On a file on which that never ends, this does not
        either. */
    method CollectBackward(ghost all: seq<(nat, Item)>, ghost last: Option<FileError>)
      returns (items: seq<(nat, Item)>, error: Option<FileError>)
      requires ReadsBack(crc, file, prevItem, all, last)
      modifies this
      ensures items == all && error == last
    {
      items, error := [], None;
      ghost var rest := all;
      var done := false;
      while !done
        invariant done ==> items == all && error == last
        invariant !done ==> error == None && all == items + rest && ReadsBack(crc, file, prevItem, rest, last)
        decreases !done, |rest|
      {
        var next := StepBack(rest, last);
        match next
        case Yield(start, item) =>
          FirstAndRest(items, rest);
          items, rest := items + [(start, item)], rest[1..];
        case End => done := true;
        case Failure(e) => done, error := true, Some(e);
      }
    }
  }

  lemma FirstAndRest<T>(a: seq<T>, b: seq<T>)
    requires b != []
    ensures a + b == a + [b[0]] + b[1..]
  {
  }

  lemma {:induction false} EntriesFail(bytes: seq<byte>, i: nat, n: nat)
    requires i <= n && ReadDirtyEntries(bytes, i).Failed?
    ensures ReadDirtyEntries(bytes, n) == Failed(ReadDirtyEntries(bytes, i).error)
    decreases n - i
  {
    if i < n { EntriesFail(bytes, i + 1, n); }
  }

  lemma {:induction false} TransactionsFail(bytes: seq<byte>, i: nat, n: nat)
    requires i <= n && ReadTransactionEntries(bytes, i).Failed?
    ensures ReadTransactionEntries(bytes, n) == Failed(ReadTransactionEntries(bytes, i).error)
    decreases n - i
  {
    if i < n { TransactionsFail(bytes, i + 1, n); }
  }

  class WalFile {
    const crc: seq<byte> -> nat
    var prevItem: Option<nat>
    var writeBuf: seq<byte>
    var file: seq<byte>
    var cursor: nat
    var nextOffset: nat
    ghost var logged: seq<Logged>  // everything ever pushed

    /** An open file, torn or not. */
    ghost predicate Usable()
      reads this
    {
      writeBuf == [] && |file| >= FILE_HEADER_SIZE && nextOffset == |file|
    }

    /** An open file that holds exactly the items that were logged. */
    ghost predicate Valid()
      reads this
    {
      Usable() && Intact(crc, logged, file, prevItem)
    }

    /** The items of the log, each with its offset, oldest first. */
    ghost function Items(): seq<(nat, Item)>
      reads this
    {
      Listing(logged)
    }

    constructor Create(crc: seq<byte> -> nat)
      ensures Valid() && Items() == []
    {
      this.crc := crc;
      file, cursor, writeBuf, prevItem := FILE_HEADER, FILE_HEADER_SIZE, [], None;
      nextOffset, logged := FILE_HEADER_SIZE, [];
    }

    /** Opens a file that was written before: its last eight bytes tell where the last item starts, or are taken to. */
    constructor Open(crc: seq<byte> -> nat, file: seq<byte>, ghost l: seq<Logged>)
      requires |file| >= FILE_HEADER_SIZE && LastItem(file) != Some(0)
      ensures Usable() && this.crc == crc && this.file == file && prevItem == LastItem(file) && logged == l
      ensures AllOk(l) && SizeOf(l) <= U64 && file == Image(crc, l) ==> Valid()
    {
      this.crc, this.file, writeBuf := crc, file, [];
      cursor, nextOffset, logged := |file|, |file|, l;
      if SizeOf(l) <= U64 { LastItemOf(crc, l); }
      prevItem := LastItem(file);
    }

    method Flush()
      modifies this`file, this`cursor, this`writeBuf
      ensures writeBuf == [] && file == WriteAt(old(file), old(cursor), old(writeBuf))
      ensures cursor == old(cursor) + |old(writeBuf)|
    {
      file := WriteAt(file, cursor, writeBuf);
      cursor := cursor + |writeBuf|;
      writeBuf := [];
    }

    /** Writes the entries of a checkpoint, in the order in which the maps happen to be walked. */
    method WriteCheckpointBlock(item: Item) returns (body: seq<byte>)
      requires item.Checkpoint?
      ensures IsBodyOf(body, item)
    {
      body := ToLE(|item.dirtyPages|, 8) + ToLE(|item.transactions|, 8);
      ghost var block := body;
      var pages, dirtyOrder, dirty := item.dirtyPages.Keys, [], [];
      while pages != {}
        invariant pages <= item.dirtyPages.Keys && Orders(dirtyOrder, item.dirtyPages.Keys - pages)
        invariant dirty == DirtyEntries(item.dirtyPages, dirtyOrder)
        decreases |pages|
      {
        var p :| p in pages;
        DirtyEntriesAppend(item.dirtyPages, dirtyOrder, p);
        dirty := dirty + DirtyEntry(p, item.dirtyPages[p]);
        dirtyOrder, pages := dirtyOrder + [p], pages - {p};
      }
      var tids, txOrder, txs := item.transactions.Keys, [], [];
      while tids != {}
        invariant tids <= item.transactions.Keys && Orders(txOrder, item.transactions.Keys - tids)
        invariant txs == TransactionEntries(item.transactions, txOrder)
        decreases |tids|
      {
        var t :| t in tids;
        TransactionEntriesAppend(item.transactions, txOrder, t);
        txs := txs + TransactionEntry(t, item.transactions[t]);
        txOrder, tids := txOrder + [t], tids - {t};
      }
      body := body + (dirty + txs);
      assert IsCheckpointBody(body, item, dirtyOrder, txOrder);
    }

    method WriteBody(item: Item) returns (body: seq<byte>)
      ensures IsBodyOf(body, item)
    {
      match item
      case Write(tid, prev, page, offset, from, to) =>
        body := TransactionBlock(tid, prev) +
        (WriteBlock(page, offset, |to|) + ((if from.Some? then from.value else []) + to));
      case Commit(tid, prev) => body := TransactionBlock(tid, prev);
      case Checkpoint(_, _) => body := WriteCheckpointBlock(item);
    }

    method EncodedBody(item: Item) returns (body: seq<byte>)
      requires Encodable(item)
      ensures LoggedOk(Logged(item, body)) && HEADER_SIZE + |body| + FOOTER_SIZE == ItemSize(item) < WRITE_BUF_LIMIT
    {
      body := WriteBody(item);
      BodySize(body, item);
      ItemsAreBelowTheLimit(item);
    }

    /** Puts an item's bytes into the buffer, and the buffer at the end of the file. */
    method AppendBytes(x: Logged)
      requires Usable() && HEADER_SIZE + |x.body| + FOOTER_SIZE < WRITE_BUF_LIMIT
      modifies this
      ensures Usable() && nextOffset == old(nextOffset) + HEADER_SIZE + |x.body| + FOOTER_SIZE
      ensures file == old(file) + Packed(crc, x, old(prevItem), old(nextOffset))
      ensures prevItem == Some(old(nextOffset)) && logged == old(logged)
    {
      var packed := Packed(crc, x, prevItem, nextOffset);
      writeBuf := writeBuf + packed;
      assert writeBuf == packed;
      prevItem := Some(nextOffset);
      cursor := |file|;
      nextOffset := cursor + |writeBuf|;
      WriteAtEnd(file, writeBuf);
      if |writeBuf| < WRITE_BUF_LIMIT { Flush(); }
    }

    /** Appends an item, wherever a reader has left the cursor. The buffer is always written out at once: no item the
        format can hold reaches the limit. */
    method PushItem(item: Item) returns (offset: nat, ghost x: Logged)
      requires Usable() && Encodable(item) && nextOffset + ItemSize(item) <= U64
      modifies this
      ensures Usable() && offset == old(nextOffset) && nextOffset == old(nextOffset) + ItemSize(item)
      ensures LoggedOk(x) && x.item == item && file == old(file) + Packed(crc, x, old(prevItem), offset)
      ensures old(Valid()) ==> Valid() && Items() == old(Items()) + [(offset, item)]
    {
      offset := nextOffset;
      var body := EncodedBody(item);
      x := Logged(item, body);
      ghost var next := logged;
      if Valid() { next := PushedImage(crc, logged, x, file, prevItem); }
      AppendBytes(Logged(item, body));
      logged := next;
    }

    /** The item that was pushed at `offset` is read there. */
    method ReadItemAt(offset: nat) returns (r: Next)
      requires Valid()
      modifies this`file, this`cursor, this`writeBuf
      ensures Valid()
      ensures forall i :: 0 <= i < |Items()| && Items()[i].0 == offset ==> r == Yield(offset, Items()[i].1)
    {
      Rewind();
      var reader := new ItemReader(crc, file, offset, None);
      r := reader.ReadItem();
      forall i | 0 <= i < |Items()| && Items()[i].0 == offset ensures r == Yield(offset, Items()[i].1) {
        ReadIntact(crc, logged, i);
      }
    }

    /** What a reader does to the file: an empty buffer is flushed, and the cursor ends up anywhere. */
    method Rewind()
      requires Usable()
      modifies this`file, this`cursor, this`writeBuf
      ensures Usable() && file == old(file) && (old(Valid()) ==> Valid())
    {
      Flush();
      cursor := *;
    }

    /** Forward iteration gives what can be read from the start of the file: if it is intact, the items, each with its
        offset, in the order in which they were pushed. */
    method IterItems() returns (items: seq<(nat, Item)>, error: Option<FileError>)
      requires Usable()
      modifies this`file, this`cursor, this`writeBuf
      ensures Usable() && file == old(file) && (items, error) == ReadAll(crc, file, FILE_HEADER_SIZE)
      ensures old(Valid()) ==> Valid() && items == Items() && error == None
    {
      ghost var valid := Valid();
      Rewind();
      if valid { IntactFileReadsAll(crc, logged); }
      var reader := new ItemReader(crc, file, FILE_HEADER_SIZE, None);
      items, error := reader.CollectForward();
    }

    /** Reverse iteration, on any file on which it ends, gives what the back pointers lead to: of an intact one, the
        items from the newest to the oldest. */
    method IterItemsReverse() returns (items: seq<(nat, Item)>, error: Option<FileError>)
      requires Usable() && (Valid() || exists all, last :: ReadsBack(crc, file, prevItem, all, last))
      modifies this`file, this`cursor, this`writeBuf
      ensures Usable() && file == old(file) && ReadsBack(crc, file, prevItem, items, error)
      ensures old(Valid()) ==> Valid() && items == Reversed(Items()) && error == None
    {
      ghost var all, last := Reversed(Items()), None;
      if Valid() {
        IntactReadsBack(crc, logged);
        LastItemOf(crc, logged);
      } else {
        all, last :| ReadsBack(crc, file, prevItem, all, last);
      }
      Rewind();
      var reader := new ItemReader(crc, file, |file|, prevItem);
      items, error := reader.CollectBackward(all, last);
    }
  }

  /** What appending an item's bytes makes of an intact file. */
  lemma PushedImage(crc: seq<byte> -> nat, l: seq<Logged>, x: Logged, file: seq<byte>, prev: Option<nat>)
    returns (next: seq<Logged>)
    requires Intact(crc, l, file, prev) && LoggedOk(x) && |file| + ItemSize(x.item) <= U64
    ensures Intact(crc, next, file + Packed(crc, x, prev, |file|), Some(|file|))
    ensures Listing(next) == Listing(l) + [(|file|, x.item)]
  {
    next := l + [x];
    PushedItems(crc, l, x);
  }

  lemma PushedItems(crc: seq<byte> -> nat, l: seq<Logged>, x: Logged)
    requires AllOk(l) && LoggedOk(x)
    ensures AllOk(l + [x]) && SizeOf(l + [x]) == SizeOf(l) + ItemSize(x.item)
    ensures Image(crc, l + [x]) == Image(crc, l) + Packed(crc, x, PrevOf(l, |l|), SizeOf(l))
    ensures PrevOf(l + [x], |l + [x]|) == Some(SizeOf(l)) && Listing(l + [x]) == Listing(l) + [(SizeOf(l), x.item)]
  {
    AppendedFile(crc, l, x);
    ImageAppend(crc, l, x);
    AppendedOk(l, x);
    AppendedItems(l, x);
  }

  /** Opens a file that may have been cut off. A footer that says 0 is refused; any other is believed. */
  method OpenFile(crc: seq<byte> -> nat, file: seq<byte>, ghost l: seq<Logged>) returns (r: Option<WalFile>)
    requires |file| >= FILE_HEADER_SIZE
    ensures r.None? <==> LastItem(file) == Some(0)
    ensures r.Some? ==> fresh(r.value) && r.value.Usable() && r.value.crc == crc && r.value.file == file
    ensures r.Some? ==> r.value.prevItem == LastItem(file) && r.value.logged == l
    ensures r.Some? && AllOk(l) && SizeOf(l) <= U64 && file == Image(crc, l) ==> r.value.Valid()
  {
    if LastItem(file) == Some(0) { return None; }
    var f := new WalFile.Open(crc, file, l);
    r := Some(f);
  }

  /** An item is pushed to a file that was cut off at `n` and opened again: it is read back if and only if the cut was
      between two items. */
  method PushAfterCut(f: WalFile, item: Item, ghost l: seq<Logged>, ghost n: nat)
    returns (offset: nat, items: seq<(nat, Item)>, error: Option<FileError>)
    requires f.Usable() && Encodable(item) && f.nextOffset + ItemSize(item) <= U64
    requires AllOk(l) && SizeOf(l) <= U64 && FILE_HEADER_SIZE <= n <= SizeOf(l)
    requires f.file == Image(f.crc, l)[..n] && f.prevItem == LastItem(f.file)
    modifies f
    ensures offset == n && ((n, item) in items <==> AtBoundary(l, n))
  {
    ghost var prev, x := f.prevItem, Logged(item, []);
    offset, x := f.PushItem(item);
    BodySize(x.body, item);
    PushedIsReadIff(f.crc, l, n, x, prev);
    items, error := f.IterItems();
  }

  /** No item that the format can hold fills the write buffer. */
  lemma ItemsAreBelowTheLimit(item: Item)
    requires Encodable(item)
    ensures ItemSize(item) <= 65559 < WRITE_BUF_LIMIT
  {
  }
}
