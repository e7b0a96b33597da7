/** The bytes of a log file, and what a reader finds in them: in an intact file every item, forward and backward, and
    in a file that was cut off every item that is complete. */
module LogImage {
  import opened Bytes
  import opened WalTypes
  import opened ItemCodec

  /** An item as it was written: together with the bytes chosen for its body. */
  datatype Logged = Logged(item: Item, body: seq<byte>)

  // "ACRN", little-endian, a log, content from byte 9 on, version 1.
  const FILE_HEADER: seq<byte> := [0x41, 0x43, 0x52, 0x4E, 1, 0, 9, 0, 1]

  ghost predicate LoggedOk(x: Logged) {
    Encodable(x.item) && IsBodyOf(x.body, x.item)
  }

  ghost predicate AllOk(l: seq<Logged>) {
    forall i :: 0 <= i < |l| ==> LoggedOk(l[i])
  }

  /** The length of the file that holds `l`. */
  function SizeOf(l: seq<Logged>): (n: nat)
    ensures n >= FILE_HEADER_SIZE
  {
    if l == [] then FILE_HEADER_SIZE else SizeOf(l[..|l| - 1]) + HEADER_SIZE + |l[|l| - 1].body| + FOOTER_SIZE
  }

  /** Where item `i` starts. */
  function OffsetOf(l: seq<Logged>, i: nat): (n: nat)
    requires i <= |l|
    ensures n >= FILE_HEADER_SIZE
  {
    SizeOf(l[..i])
  }

  /** The back pointer of item `i`. */
  function PrevOf(l: seq<Logged>, i: nat): Option<nat>
    requires i <= |l|
  {
    if i == 0 then None else Some(OffsetOf(l, i - 1))
  }

  function Checksum(crc: seq<byte> -> nat, body: seq<byte>): nat {
    crc(body) % U32
  }

  function ItemHeader(crc: seq<byte> -> nat, x: Logged, prev: Option<nat>): (r: seq<byte>)
    ensures |r| == HEADER_SIZE
  {
    [KindOf(x.item), FlagsOf(x.item)] + ToLE(|x.body|, 2) + ToLE(Checksum(crc, x.body), 4)
    + ToLE(if prev.Some? then prev.value else 0, 8)
  }

  function Packed(crc: seq<byte> -> nat, x: Logged, prev: Option<nat>, start: nat): (r: seq<byte>)
    ensures |r| == HEADER_SIZE + |x.body| + FOOTER_SIZE
  {
    ItemHeader(crc, x, prev) + x.body + ToLE(start, 8)
  }

  /** The file: its header, and every item with its header, back pointer and footer. */
  function Image(crc: seq<byte> -> nat, l: seq<Logged>): (r: seq<byte>)
    ensures |r| == SizeOf(l)
  {
    if l == [] then FILE_HEADER
    else
      var n := |l| - 1;
      Image(crc, l[..n]) + Packed(crc, l[n], PrevOf(l, n), OffsetOf(l, n))
  }

  /** What the file holds, as a reader lists it. */
  function Listing(l: seq<Logged>): (r: seq<(nat, Item)>)
    ensures |r| == |l|
  {
    seq(|l|, i requires 0 <= i < |l| => (OffsetOf(l, i), l[i].item))
  }

  // ----- reading -----

  datatype ReadResult = Found(item: Item, length: nat, prev: Option<nat>) | Stop(error: FileError)

  /** Reads the item at `offset`: header, body, checksum, content, in this order. */
  function ReadExact(crc: seq<byte> -> nat, file: seq<byte>, offset: nat): ReadResult {
    if |file| < offset + HEADER_SIZE then Stop(UnexpectedEof)
    else
      var header := file[offset..offset + HEADER_SIZE];
      var length, prev := FromLE(header[2..4]), FromLE(header[8..16]);
      var bodyStart := offset + HEADER_SIZE;
      if header[0] > 2 then Stop(Corrupted)
      else if |file| < bodyStart + length then Stop(UnexpectedEof)
      else ReadChecked(crc, header, file[bodyStart..bodyStart + length], if prev == 0 then None else Some(prev))
  }

  function ReadChecked(crc: seq<byte> -> nat, header: seq<byte>, body: seq<byte>, prev: Option<nat>): ReadResult
    requires |header| == HEADER_SIZE
  {
    if Checksum(crc, body) != FromLE(header[4..8]) then Stop(ChecksumMismatch)
    else
      match ReadBody(header[0], header[1], body)
      case Failed(e) => Stop(e)
      case Parsed(item, _) => Found(item, |body|, prev)
  }

  function NextOffset(offset: nat, length: nat): nat {
    offset + HEADER_SIZE + length + FOOTER_SIZE
  }

  /** Forward iteration from `offset`: the items up to the end of the file, or up to an error. */
  function ReadAll(crc: seq<byte> -> nat, file: seq<byte>, offset: nat): (seq<(nat, Item)>, Option<FileError>)
    decreases if offset < |file| then |file| - offset else 0
  {
    match ReadExact(crc, file, offset)
    case Stop(e) => ([], if e.UnexpectedEof? then None else Some(e))
    case Found(item, length, _) =>
      var (items, error) := ReadAll(crc, file, NextOffset(offset, length));
      ([(offset, item)] + items, error)
  }

  // ----- where things are -----

  lemma SizeStep(l: seq<Logged>, i: nat)
    requires i < |l|
    ensures OffsetOf(l, i + 1) == NextOffset(OffsetOf(l, i), |l[i].body|)
  {
    assert l[..i + 1][..i] == l[..i];
  }

  lemma {:induction false} OffsetsAscend(l: seq<Logged>, i: nat, j: nat)
    requires i <= j <= |l|
    ensures OffsetOf(l, i) <= OffsetOf(l, j)
    ensures i < j ==> NextOffset(OffsetOf(l, i), |l[i].body|) <= OffsetOf(l, j)
    decreases j - i
  {
    if i < j {
      SizeStep(l, j - 1);
      OffsetsAscend(l, i, j - 1);
    }
  }

  lemma {:induction false} ImagePrefix(crc: seq<byte> -> nat, l: seq<Logged>, i: nat)
    requires i <= |l|
    ensures Image(crc, l[..i]) <= Image(crc, l)
  {
    if i == |l| {
      assert l[..i] == l;
    } else {
      var n := |l| - 1;
      ImagePrefix(crc, l[..n], i);
      assert l[..n][..i] == l[..i];
      StillPrefix(Image(crc, l[..i]), Image(crc, l[..n]), Packed(crc, l[n], PrevOf(l, n), OffsetOf(l, n)));
    }
  }

  lemma StillPrefix(a: seq<byte>, b: seq<byte>, c: seq<byte>)
    requires a <= b
    ensures a <= b + c
  {
  }

  lemma ImageStep(crc: seq<byte> -> nat, l: seq<Logged>, i: nat)
    requires i < |l|
    ensures Image(crc, l[..i + 1]) == Image(crc, l[..i]) + Packed(crc, l[i], PrevOf(l, i), OffsetOf(l, i))
  {
    var part := l[..i + 1];
    assert part[..i] == l[..i] && part[i] == l[i];
    if i > 0 { assert part[..i - 1] == l[..i - 1]; }
  }

  /** Item `i` lies at its offset, with its back pointer. */
  lemma ImageAt(crc: seq<byte> -> nat, l: seq<Logged>, i: nat)
    requires i < |l|
    ensures OffsetOf(l, i) <= OffsetOf(l, i + 1) <= |Image(crc, l)|
    ensures Image(crc, l)[OffsetOf(l, i)..OffsetOf(l, i + 1)] == Packed(crc, l[i], PrevOf(l, i), OffsetOf(l, i))
  {
    var whole, packed := Image(crc, l), Packed(crc, l[i], PrevOf(l, i), OffsetOf(l, i));
    ImagePrefix(crc, l, i + 1);
    ImageStep(crc, l, i);
    SizeStep(l, i);
    MiddleOf(whole, Image(crc, l[..i]), packed);
  }

  lemma MiddleOf(whole: seq<byte>, a: seq<byte>, b: seq<byte>)
    requires a + b <= whole
    ensures whole[|a|..|a| + |b|] == b
  {
    assert whole == a + b + whole[|a + b|..];
  }

  lemma HeaderRoundTrip(crc: seq<byte> -> nat, x: Logged, prev: Option<nat>)
    requires |x.body| <= MAX_BODY_LENGTH && (prev.Some? ==> prev.value < U64)
    ensures var header := ItemHeader(crc, x, prev);
            && header[0] == KindOf(x.item) && header[1] == FlagsOf(x.item)
            && FromLE(header[2..4]) == |x.body| && FromLE(header[4..8]) == Checksum(crc, x.body)
            && FromLE(header[8..16]) == if prev.Some? then prev.value else 0
  {
    var header := ItemHeader(crc, x, prev);
    RoundTripSmall(|x.body|);
    RoundTripSmall(Checksum(crc, x.body));
    RoundTrip8(if prev.Some? then prev.value else 0);
    assert header[2..4] == ToLE(|x.body|, 2) && header[4..8] == ToLE(Checksum(crc, x.body), 4);
    assert header[8..16] == ToLE(if prev.Some? then prev.value else 0, 8);
  }

  lemma CheckedPresent(crc: seq<byte> -> nat, x: Logged, prev: Option<nat>)
    requires LoggedOk(x) && (prev.Some? ==> 0 < prev.value < U64)
    ensures ReadChecked(crc, ItemHeader(crc, x, prev), x.body, prev) == Found(x.item, |x.body|, prev)
  {
    ItemRoundTrip(x.item, x.body, []);
    assert x.body + [] == x.body;
    HeaderRoundTrip(crc, x, prev);
  }

  /** An item whose header and body are in the file is read back. */
  lemma ReadPresent(crc: seq<byte> -> nat, file: seq<byte>, offset: nat, x: Logged, prev: Option<nat>)
    requires LoggedOk(x) && (prev.Some? ==> 0 < prev.value < U64)
    requires offset + HEADER_SIZE + |x.body| <= |file|
    requires file[offset..offset + HEADER_SIZE] == ItemHeader(crc, x, prev)
    requires file[offset + HEADER_SIZE..offset + HEADER_SIZE + |x.body|] == x.body
    ensures ReadExact(crc, file, offset) == Found(x.item, |x.body|, prev)
  {
    BodySize(x.body, x.item);
    CheckedPresent(crc, x, prev);
    var header := ItemHeader(crc, x, prev);
    HeaderRoundTrip(crc, x, prev);
    ReadParts(crc, file, offset, header, x.body, prev);
  }

  lemma ReadParts(crc: seq<byte> -> nat, file: seq<byte>, offset: nat, header: seq<byte>, body: seq<byte>,
                  prev: Option<nat>)
    requires |header| == HEADER_SIZE && offset + HEADER_SIZE + |body| <= |file|
    requires file[offset..offset + HEADER_SIZE] == header
    requires file[offset + HEADER_SIZE..offset + HEADER_SIZE + |body|] == body
    requires header[0] <= 2 && FromLE(header[2..4]) == |body|
    requires prev == if FromLE(header[8..16]) == 0 then None else Some(FromLE(header[8..16]))
    ensures ReadExact(crc, file, offset) == ReadChecked(crc, header, body, prev)
  {
  }

  /** An item whose body is cut off reads as the end of the file. */
  lemma ReadCutOff(crc: seq<byte> -> nat, file: seq<byte>, offset: nat, x: Logged, prev: Option<nat>)
    requires LoggedOk(x) && (prev.Some? ==> 0 < prev.value < U64)
    requires offset + HEADER_SIZE <= |file| < offset + HEADER_SIZE + |x.body|
    requires file[offset..offset + HEADER_SIZE] == ItemHeader(crc, x, prev)
    ensures ReadExact(crc, file, offset) == Stop(UnexpectedEof)
  {
    BodySize(x.body, x.item);
    HeaderRoundTrip(crc, x, prev);
  }

  lemma PrevIsBefore(l: seq<Logged>, i: nat)
    requires i < |l|
    ensures OffsetOf(l, i) < SizeOf(l)
    ensures PrevOf(l, i).Some? ==> 0 < PrevOf(l, i).value < OffsetOf(l, i)
  {
    OffsetsAscend(l, i, |l|);
    assert l[..|l|] == l;
    if i > 0 { OffsetsAscend(l, i - 1, i); }
  }

  ghost predicate HasItem(crc: seq<byte> -> nat, image: seq<byte>, l: seq<Logged>, i: nat)
    requires i < |l|
  {
    && OffsetOf(l, i) <= OffsetOf(l, i + 1) <= |image|
    && image[OffsetOf(l, i)..OffsetOf(l, i + 1)] == Packed(crc, l[i], PrevOf(l, i), OffsetOf(l, i))
  }

  /** What the readers need to know of a file that holds `l`. */
  ghost predicate Holds(crc: seq<byte> -> nat, image: seq<byte>, l: seq<Logged>) {
    AllOk(l) && |image| == SizeOf(l) <= U64 && forall i :: 0 <= i < |l| ==> HasItem(crc, image, l, i)
  }

  lemma ImageHolds(crc: seq<byte> -> nat, l: seq<Logged>)
    requires AllOk(l) && SizeOf(l) <= U64
    ensures Holds(crc, Image(crc, l), l)
  {
    forall i | 0 <= i < |l| ensures HasItem(crc, Image(crc, l), l, i) { ImageAt(crc, l, i); }
  }

  lemma PackedParts(crc: seq<byte> -> nat, x: Logged, prev: Option<nat>, start: nat)
    ensures var packed := Packed(crc, x, prev, start);
            packed[0..HEADER_SIZE] == ItemHeader(crc, x, prev) && packed[HEADER_SIZE..HEADER_SIZE + |x.body|] == x.body
  {
  }

  lemma HeaderInFile(crc: seq<byte> -> nat, image: seq<byte>, l: seq<Logged>, i: nat, n: nat)
    requires i < |l| && HasItem(crc, image, l, i) && OffsetOf(l, i) + HEADER_SIZE <= n <= |image|
    ensures image[..n][OffsetOf(l, i)..OffsetOf(l, i) + HEADER_SIZE] == ItemHeader(crc, l[i], PrevOf(l, i))
  {
    SizeStep(l, i);
    PackedParts(crc, l[i], PrevOf(l, i), OffsetOf(l, i));
    SliceOfSlice(image, OffsetOf(l, i), OffsetOf(l, i + 1), n, 0, HEADER_SIZE);
  }

  lemma BodyInFile(crc: seq<byte> -> nat, image: seq<byte>, l: seq<Logged>, i: nat, n: nat)
    requires i < |l| && HasItem(crc, image, l, i) && OffsetOf(l, i) + HEADER_SIZE + |l[i].body| <= n <= |image|
    ensures var start := OffsetOf(l, i) + HEADER_SIZE; image[..n][start..start + |l[i].body|] == l[i].body
  {
    SizeStep(l, i);
    PackedParts(crc, l[i], PrevOf(l, i), OffsetOf(l, i));
    SliceOfSlice(image, OffsetOf(l, i), OffsetOf(l, i + 1), n, HEADER_SIZE, HEADER_SIZE + |l[i].body|);
  }

  /** Reading at an item's offset finds the item, as long as its header and body are there; the footer is not needed. */
  lemma ReadAtOffset(crc: seq<byte> -> nat, image: seq<byte>, l: seq<Logged>, i: nat, n: nat)
    requires Holds(crc, image, l) && i < |l|
    requires OffsetOf(l, i) + HEADER_SIZE + |l[i].body| <= n <= |image|
    ensures ReadExact(crc, image[..n], OffsetOf(l, i)) == Found(l[i].item, |l[i].body|, PrevOf(l, i))
  {
    assert HasItem(crc, image, l, i) && LoggedOk(l[i]);
    HeaderInFile(crc, image, l, i, n);
    BodyInFile(crc, image, l, i, n);
    PrevIsBefore(l, i);
    ReadPresent(crc, image[..n], OffsetOf(l, i), l[i], PrevOf(l, i));
  }

  lemma SliceOfSlice(s: seq<byte>, a: nat, b: nat, n: nat, i: nat, j: nat)
    requires a <= b <= |s| && n <= |s| && i <= j <= b - a && a + j <= n
    ensures s[..n][a + i..a + j] == s[a..b][i..j]
  {
    assert forall k :: 0 <= k < b - a ==> s[a..b][k] == s[a + k];
    assert s[..n][a + i..a + j] == s[a + i..a + j];
    assert s[a..b][i..j] == s[a + i..a + j];
  }

  // ----- forward iteration, also of a torn file -----

  ghost predicate Complete(l: seq<Logged>, i: nat, n: nat)
    requires i < |l|
  {
    OffsetOf(l, i) + HEADER_SIZE + |l[i].body| <= n
  }

  /** How many items have their header and body within the first `n` bytes. */
  function CompleteCount(l: seq<Logged>, n: nat): (m: nat)
    ensures m <= |l|
  {
    if l == [] then 0
    else if SizeOf(l[..|l| - 1]) + HEADER_SIZE + |l[|l| - 1].body| <= n then |l|
    else CompleteCount(l[..|l| - 1], n)
  }

  lemma {:induction false} CompleteCountIs(l: seq<Logged>, n: nat)
    ensures forall i :: 0 <= i < |l| ==> (Complete(l, i, n) <==> i < CompleteCount(l, n))
  {
    if l != [] {
      var k := |l| - 1;
      CompleteCountIs(l[..k], n);
      forall i | 0 <= i < |l| ensures Complete(l, i, n) <==> i < CompleteCount(l, n) {
        if i < k {
          assert l[..k][..i] == l[..i];
          assert Complete(l, i, n) <==> Complete(l[..k], i, n);
          OffsetsAscend(l, i, k);
        }
      }
    }
  }

  ghost predicate ReadsItem(crc: seq<byte> -> nat, file: seq<byte>, l: seq<Logged>, i: nat)
    requires i < |l|
  {
    ReadExact(crc, file, OffsetOf(l, i)) == Found(l[i].item, |l[i].body|, PrevOf(l, i))
  }

  lemma ReadAllFound(crc: seq<byte> -> nat, file: seq<byte>, l: seq<Logged>, i: nat)
    requires i < |l| && ReadsItem(crc, file, l, i)
    ensures var rest := ReadAll(crc, file, OffsetOf(l, i + 1));
            ReadAll(crc, file, OffsetOf(l, i)) == ([(OffsetOf(l, i), l[i].item)] + rest.0, rest.1)
  {
    SizeStep(l, i);
  }

  lemma {:induction false} ReadFrom(crc: seq<byte> -> nat, file: seq<byte>, l: seq<Logged>, i: nat, m: nat)
    requires i <= m <= |l| && forall k :: i <= k < m ==> ReadsItem(crc, file, l, k)
    requires ReadExact(crc, file, OffsetOf(l, m)) == Stop(UnexpectedEof)
    ensures ReadAll(crc, file, OffsetOf(l, i)) == (Listing(l)[i..m], None)
    decreases m - i
  {
    if i < m {
      assert ReadsItem(crc, file, l, i);
      ReadAllFound(crc, file, l, i);
      ReadFrom(crc, file, l, i + 1, m);
      SliceStep(Listing(l), i, m);
      var rest := ReadAll(crc, file, OffsetOf(l, i + 1));
      assert rest.0 == Listing(l)[i + 1..m] && rest.1 == None;
      assert Listing(l)[i] == (OffsetOf(l, i), l[i].item);
      assert ReadAll(crc, file, OffsetOf(l, i)).0 == Listing(l)[i..m];
    }
  }

  lemma SliceStep<T>(s: seq<T>, i: nat, m: nat)
    requires i < m <= |s|
    ensures s[i..m] == [s[i]] + s[i + 1..m]
  {
  }

  lemma ReadPastEnd(crc: seq<byte> -> nat, file: seq<byte>, offset: nat)
    requires |file| < offset + HEADER_SIZE
    ensures ReadExact(crc, file, offset) == Stop(UnexpectedEof)
  {
  }

  lemma StopCutOff(crc: seq<byte> -> nat, image: seq<byte>, l: seq<Logged>, n: nat, i: nat)
    requires Holds(crc, image, l) && n <= |image| && i < |l|
    requires OffsetOf(l, i) + HEADER_SIZE <= n < OffsetOf(l, i) + HEADER_SIZE + |l[i].body|
    ensures ReadExact(crc, image[..n], OffsetOf(l, i)) == Stop(UnexpectedEof)
  {
    assert HasItem(crc, image, l, i) && LoggedOk(l[i]);
    HeaderInFile(crc, image, l, i, n);
    PrevIsBefore(l, i);
    ReadCutOff(crc, image[..n], OffsetOf(l, i), l[i], PrevOf(l, i));
  }

  lemma StopAt(crc: seq<byte> -> nat, image: seq<byte>, l: seq<Logged>, n: nat, i: nat)
    requires Holds(crc, image, l) && n <= |image| && i <= |l|
    requires i < |l| ==> !Complete(l, i, n)
    ensures ReadExact(crc, image[..n], OffsetOf(l, i)) == Stop(UnexpectedEof)
  {
    assert l[..|l|] == l;
    if i < |l| && OffsetOf(l, i) + HEADER_SIZE <= n {
      StopCutOff(crc, image, l, n, i);
    } else {
      ReadPastEnd(crc, image[..n], OffsetOf(l, i));
    }
  }

  lemma TornReads(crc: seq<byte> -> nat, image: seq<byte>, l: seq<Logged>, n: nat)
    requires Holds(crc, image, l) && FILE_HEADER_SIZE <= n <= |image|
    ensures ReadAll(crc, image[..n], FILE_HEADER_SIZE) == (Listing(l)[..CompleteCount(l, n)], None)
  {
    var m := CompleteCount(l, n);
    CompleteCountIs(l, n);
    forall k | 0 <= k < m ensures ReadsItem(crc, image[..n], l, k) {
      assert Complete(l, k, n);
      ReadAtOffset(crc, image, l, k, n);
    }
    StopAt(crc, image, l, n, m);
    ReadFrom(crc, image[..n], l, 0, m);
    assert l[..0] == [];
    assert Listing(l)[0..m] == Listing(l)[..m];
  }

  /** A file torn off anywhere after its header reads as the items whose header and body survive, without an error. */
  lemma TornFileReadsCompleteItems(crc: seq<byte> -> nat, l: seq<Logged>, n: nat)
    requires AllOk(l) && SizeOf(l) <= U64 && FILE_HEADER_SIZE <= n <= SizeOf(l)
    ensures ReadAll(crc, Image(crc, l)[..n], FILE_HEADER_SIZE) == (Listing(l)[..CompleteCount(l, n)], None)
  {
    ImageHolds(crc, l);
    TornReads(crc, Image(crc, l), l, n);
  }

  lemma AllComplete(l: seq<Logged>)
    ensures CompleteCount(l, SizeOf(l)) == |l|
  {
  }

  /** An intact file reads as all its items, each at its offset. */
  lemma IntactFileReadsAll(crc: seq<byte> -> nat, l: seq<Logged>)
    requires AllOk(l) && SizeOf(l) <= U64
    ensures ReadAll(crc, Image(crc, l), FILE_HEADER_SIZE) == (Listing(l), None)
  {
    ImageHolds(crc, l);
    IntactReads(crc, Image(crc, l), l);
  }

  lemma IntactReads(crc: seq<byte> -> nat, image: seq<byte>, l: seq<Logged>)
    requires Holds(crc, image, l)
    ensures ReadAll(crc, image, FILE_HEADER_SIZE) == (Listing(l), None)
    ensures forall i :: 0 <= i < |l| ==> ReadsItem(crc, image, l, i)
  {
    assert image[..|image|] == image && Listing(l)[..|l|] == Listing(l);
    TornReads(crc, image, l, |image|);
    AllComplete(l);
    forall i | 0 <= i < |l| ensures ReadsItem(crc, image, l, i) {
      OffsetsAscend(l, i, |l|);
      assert l[..|l|] == l;
      ReadAtOffset(crc, image, l, i, |image|);
    }
  }

  /** Reading at an item's offset in an intact file. */
  lemma ReadIntact(crc: seq<byte> -> nat, l: seq<Logged>, i: nat)
    requires AllOk(l) && SizeOf(l) <= U64 && i < |l|
    ensures ReadExact(crc, Image(crc, l), OffsetOf(l, i)) == Found(l[i].item, |l[i].body|, PrevOf(l, i))
  {
    ImageHolds(crc, l);
    IntactReads(crc, Image(crc, l), l);
    assert ReadsItem(crc, Image(crc, l), l, i);
  }

  /** Where the last footer of a file of this length says its last item starts. */
  function LastItem(file: seq<byte>): Option<nat>
    requires |file| >= FILE_HEADER_SIZE
  {
    if |file| - FOOTER_SIZE > FILE_HEADER_SIZE then Some(FromLE(file[|file| - FOOTER_SIZE..])) else None
  }

  lemma FooterIsRead(a: seq<byte>, b: seq<byte>, start: nat)
    requires |a| >= FILE_HEADER_SIZE && |b| > 0 && start < U64
    ensures LastItem(a + (b + ToLE(start, 8))) == Some(start)
  {
    var file := a + (b + ToLE(start, 8));
    RoundTrip8(start);
    assert file[|file| - FOOTER_SIZE..] == ToLE(start, 8);
  }

  /** The last footer of a file points at its last item. */
  lemma LastItemOf(crc: seq<byte> -> nat, l: seq<Logged>)
    requires SizeOf(l) <= U64
    ensures LastItem(Image(crc, l)) == PrevOf(l, |l|)
  {
    if l != [] {
      var n := |l| - 1;
      PrevIsBefore(l, n);
      FooterIsRead(Image(crc, l[..n]), ItemHeader(crc, l[n], PrevOf(l, n)) + l[n].body, OffsetOf(l, n));
    }
  }

  lemma ImageAppend(crc: seq<byte> -> nat, l: seq<Logged>, x: Logged)
    ensures Image(crc, l + [x]) == Image(crc, l) + Packed(crc, x, PrevOf(l, |l|), SizeOf(l))
    ensures SizeOf(l + [x]) == NextOffset(SizeOf(l), |x.body|)
  {
    var next, n := l + [x], |l|;
    assert next[..n] == l && next[n] == x;
    PrefixOffsets(l, x, n);
    assert l[..n] == l;
  }

  lemma PrefixOffsets(l: seq<Logged>, x: Logged, i: nat)
    requires i <= |l|
    ensures OffsetOf(l + [x], i) == OffsetOf(l, i) && PrevOf(l + [x], i) == PrevOf(l, i)
  {
    assert (l + [x])[..i] == l[..i];
    if i > 0 { assert (l + [x])[..i - 1] == l[..i - 1]; }
  }

  lemma ListingAppend(l: seq<Logged>, x: Logged)
    ensures Listing(l + [x]) == Listing(l) + [(SizeOf(l), x.item)]
  {
    forall i | 0 <= i <= |l| ensures OffsetOf(l + [x], i) == OffsetOf(l, i) { PrefixOffsets(l, x, i); }
    assert l[..|l|] == l;
  }

  /** Appending an item's bytes to a file gives the file with the item appended. */
  lemma AppendedFile(crc: seq<byte> -> nat, l: seq<Logged>, x: Logged)
    requires LoggedOk(x)
    ensures var start := SizeOf(l);
            Image(crc, l + [x]) == Image(crc, l) + (ItemHeader(crc, x, PrevOf(l, |l|)) + x.body + ToLE(start, 8))
    ensures SizeOf(l + [x]) == SizeOf(l) + ItemSize(x.item) && |x.body| == BodyLength(x.item)
  {
    ImageAppend(crc, l, x);
    BodySize(x.body, x.item);
  }

  lemma AppendedOk(l: seq<Logged>, x: Logged)
    requires AllOk(l) && LoggedOk(x)
    ensures AllOk(l + [x])
  {
    forall i | 0 <= i < |l + [x]| ensures LoggedOk((l + [x])[i]) { assert i < |l| ==> LoggedOk(l[i]); }
  }

  lemma AppendedItems(l: seq<Logged>, x: Logged)
    ensures PrevOf(l + [x], |l| + 1) == Some(SizeOf(l))
    ensures Listing(l + [x]) == Listing(l) + [(SizeOf(l), x.item)]
  {
    ListingAppend(l, x);
    assert (l + [x])[..|l|] == l;
  }

  /** Following the back pointer of item `i` finds the item before it. */
  lemma ReadBack(crc: seq<byte> -> nat, l: seq<Logged>, i: nat)
    requires AllOk(l) && SizeOf(l) <= U64 && 0 < i <= |l|
    ensures PrevOf(l, i) == Some(Listing(l)[i - 1].0)
    ensures ReadExact(crc, Image(crc, l), Listing(l)[i - 1].0) ==
            Found(Listing(l)[i - 1].1, |l[i - 1].body|, PrevOf(l, i - 1))
  {
    ReadIntact(crc, l, i - 1);
  }
}
