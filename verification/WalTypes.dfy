/** The vocabulary of the write-ahead log. */
module WalTypes {
  import opened Bytes

  datatype Option<+T> = None | Some(value: T)

  datatype PageAddress = PageAddress(segmentNum: nat, pageNum: nat)

  /** Where an item stands in the log: ordered by generation, then by offset within the generation's file. */
  datatype WalIndex = WalIndex(generation: nat, offset: nat) {
    predicate Before(that: WalIndex) {
      generation < that.generation || (generation == that.generation && offset < that.offset)
    }

    predicate AtMost(that: WalIndex) {
      this == that || Before(that)
    }
  }

  const U64: nat := 0x1_0000_0000_0000_0000

  /** The two parts of an index fit 64 bits each, and the offset is not 0. */
  predicate IndexFits(index: WalIndex) {
    index.generation < U64 && 0 < index.offset < U64
  }

  datatype TransactionState = TransactionState(firstGen: nat, lastIndex: WalIndex)

  /** A write without a before-image (`from`) is the record of an undo. */
  datatype Item =
    | Write(tid: nat, prev: Option<WalIndex>, page: PageAddress, offset: nat, from: Option<seq<byte>>, to: seq<byte>)
    | Commit(tid: nat, prev: Option<WalIndex>)
    | Checkpoint(transactions: map<nat, TransactionState>, dirtyPages: map<PageAddress, WalIndex>)

  // Sizes in a log file: the file header, and the header and footer around each item's body.
  const FILE_HEADER_SIZE: nat := 9
  const HEADER_SIZE: nat := 16
  const FOOTER_SIZE: nat := 8
  const MAX_BODY_LENGTH: nat := 0xFFFF

  function BodyLength(item: Item): nat {
    match item
    case Write(_, _, _, _, from, to) => 24 + 10 + (if from.Some? then |from.value| else 0) + |to|
    case Commit(_, _) => 24
    case Checkpoint(transactions, dirtyPages) => 16 + 22 * |dirtyPages| + 32 * |transactions|
  }

  function ItemSize(item: Item): nat {
    HEADER_SIZE + BodyLength(item) + FOOTER_SIZE
  }

  /** An item together with its place in the log. */
  datatype Entry = Entry(index: WalIndex, item: Item) {
    predicate IsWriteBy(t: nat) { item.Write? && item.tid == t }
    predicate IsCommitOf(t: nat) { item.Commit? && item.tid == t }
    predicate WritesTo(p: PageAddress) { item.Write? && item.page == p }
  }

  ghost predicate Ascending(log: seq<Entry>) {
    forall i, j :: 0 <= i < j < |log| ==> log[i].index.Before(log[j].index)
  }

  /** The write at `i` belongs to a transaction that has not completed by the end of `log`. */
  ghost predicate LiveAt(log: seq<Entry>, i: int) {
    0 <= i < |log| && log[i].item.Write? && forall j :: i < j < |log| ==> !log[j].IsCommitOf(log[i].item.tid)
  }
}
