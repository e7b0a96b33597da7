/** Reading a log file from its end to its start. */
module BackwardReads {
  // An undo reads backward, from the item that the last eight bytes of the file point at, through the back pointers.
  // In a torn file those bytes may say anything, and the reader may go round in circles; what is said here is about
  // the iterations that end.
  import opened Bytes
  import opened WalTypes
  import opened ItemCodec
  import opened LogImage
  import opened TornLog

  function Reversed<T>(s: seq<T>): (r: seq<T>)
    ensures |r| == |s| && forall i :: 0 <= i < |s| ==> r[i] == s[|s| - 1 - i]
  {
    if s == [] then [] else [s[|s| - 1]] + Reversed(s[..|s| - 1])
  }

  /** Backward iteration from the item at `prev` gives `items`, newest first, and ends with `error`, or well. */
  ghost predicate ReadsBack(crc: seq<byte> -> nat, file: seq<byte>, prev: Option<nat>, items: seq<(nat, Item)>,
                            error: Option<FileError>)
    decreases |items|
  {
    if prev.None? then items == [] && error == None
    else
      match ReadExact(crc, file, prev.value)
      case Stop(e) => items == [] && error == if e.UnexpectedEof? then None else Some(e)
      case Found(item, _, before) =>
        items != [] && items[0] == (prev.value, item) && ReadsBack(crc, file, before, items[1..], error)
  }

  /** There is at most one such list. */
  lemma {:induction false} ReadsBackOnce(crc: seq<byte> -> nat, file: seq<byte>, prev: Option<nat>,
                                         items: seq<(nat, Item)>,
                                         error: Option<FileError>, items': seq<(nat, Item)>, error': Option<FileError>)
    requires ReadsBack(crc, file, prev, items, error) && ReadsBack(crc, file, prev, items', error')
    ensures items == items' && error == error'
    decreases |items|
  {
    if prev.Some? {
      match ReadExact(crc, file, prev.value)
      case Stop(_) =>
      case Found(_, _, before) =>
        ReadsBackOnce(crc, file, before, items[1..], error, items'[1..], error');
        assert items == [items[0]] + items[1..] && items' == [items'[0]] + items'[1..];
    }
  }

  lemma {:induction false} ReadsBackFrom(crc: seq<byte> -> nat, file: seq<byte>, l: seq<Logged>, k: nat)
    requires k <= |l| && forall i :: 0 <= i < k ==> ReadsItem(crc, file, l, i)
    ensures ReadsBack(crc, file, PrevOf(l, k), Reversed(Listing(l)[..k]), None)
  {
    if k > 0 {
      ReadsBackFrom(crc, file, l, k - 1);
      assert ReadsItem(crc, file, l, k - 1);
      ReversedPrefix(Listing(l), k);
    }
  }

  lemma ReversedPrefix<T>(s: seq<T>, k: nat)
    requires 0 < k <= |s|
    ensures Reversed(s[..k])[0] == s[k - 1] && Reversed(s[..k])[1..] == Reversed(s[..k - 1])
  {
    assert s[..k][..k - 1] == s[..k - 1];
  }

  /** There is no item before the first, or none can be read there because the file ends. */
  ghost predicate EndsAt(crc: seq<byte> -> nat, file: seq<byte>, prev: Option<nat>) {
    prev.Some? ==> ReadExact(crc, file, prev.value) == Stop(UnexpectedEof)
  }

  /** The first `k` items, newest first, are what backward iteration gives if and only if it starts at the last of them;
      if there are none, it may also start where the file ends. */
  lemma ReadsBackIff(crc: seq<byte> -> nat, file: seq<byte>, l: seq<Logged>, k: nat, prev: Option<nat>)
    requires k <= |l| && forall i :: 0 <= i < k ==> ReadsItem(crc, file, l, i)
    ensures ReadsBack(crc, file, prev, Reversed(Listing(l)[..k]), None)
       <==> if k == 0 then EndsAt(crc, file, prev) else prev == PrevOf(l, k)
  {
    ReadsBackFrom(crc, file, l, k);
    if k > 0 { assert Reversed(Listing(l)[..k])[0] == Listing(l)[k - 1]; }
  }

  lemma CompleteAreRead(crc: seq<byte> -> nat, l: seq<Logged>, n: nat, more: seq<byte>)
    requires AllOk(l) && SizeOf(l) <= U64 && n <= SizeOf(l)
    ensures forall i :: 0 <= i < CompleteCount(l, n) ==> ReadsItem(crc, Image(crc, l)[..n] + more, l, i)
  {
    ImageHolds(crc, l);
    CompleteCountIs(l, n);
    forall i | 0 <= i < CompleteCount(l, n) ensures ReadsItem(crc, Image(crc, l)[..n] + more, l, i) {
      assert Complete(l, i, n);
      ReadAtOffset(crc, Image(crc, l), l, i, n);
      ReadLonger(crc, Image(crc, l)[..n], more, OffsetOf(l, i));
    }
  }

  /** An intact file is read back from its last item to its first. */
  lemma IntactReadsBack(crc: seq<byte> -> nat, l: seq<Logged>)
    requires AllOk(l) && SizeOf(l) <= U64
    ensures ReadsBack(crc, Image(crc, l), LastItem(Image(crc, l)), Reversed(Listing(l)), None)
  {
    LastItemOf(crc, l);
    forall i | 0 <= i < |l| ensures ReadsItem(crc, Image(crc, l), l, i) { ReadIntact(crc, l, i); }
    ReadsBackFrom(crc, Image(crc, l), l, |l|);
    assert Listing(l)[..|l|] == Listing(l);
  }

  /** A file that was cut off anywhere after its header gives its complete items, newest first, if and only if its last
      eight bytes happen to point at the last of them. */
  lemma TornReadsBackIff(crc: seq<byte> -> nat, l: seq<Logged>, n: nat)
    requires AllOk(l) && SizeOf(l) <= U64 && FILE_HEADER_SIZE <= n <= SizeOf(l)
    ensures var torn, k := Image(crc, l)[..n], CompleteCount(l, n);
            ReadsBack(crc, torn, LastItem(torn), Reversed(Listing(l)[..k]), None)
            <==> if k == 0 then EndsAt(crc, torn, LastItem(torn)) else LastItem(torn) == PrevOf(l, k)
  {
    CompleteAreRead(crc, l, n, []);
    assert Image(crc, l)[..n] + [] == Image(crc, l)[..n];
    ReadsBackIff(crc, Image(crc, l)[..n], l, CompleteCount(l, n), LastItem(Image(crc, l)[..n]));
  }

  /** They do so if the cut was between two items. */
  lemma BoundaryReadsBack(crc: seq<byte> -> nat, l: seq<Logged>, n: nat)
    requires AllOk(l) && SizeOf(l) <= U64 && FILE_HEADER_SIZE <= n <= SizeOf(l) && AtBoundary(l, n)
    ensures var torn, k := Image(crc, l)[..n], CompleteCount(l, n);
            LastItem(torn) == PrevOf(l, k) && ReadsBack(crc, torn, LastItem(torn), Reversed(Listing(l)[..k]), None)
  {
    var m :| 0 <= m <= |l| && OffsetOf(l, m) == n;
    BoundaryPrev(crc, l, m);
    BoundaryCount(l, m);
    TornReadsBackIff(crc, l, n);
  }

  lemma BoundaryCount(l: seq<Logged>, m: nat)
    requires m <= |l|
    ensures CompleteCount(l, OffsetOf(l, m)) == m
  {
    var n := OffsetOf(l, m);
    if m > 0 {
      OffsetsAscend(l, m - 1, m);
      CountsAt(l, m - 1, n);
    }
    if m < |l| { CountsAt(l, m, n); }
  }

  lemma CountsAt(l: seq<Logged>, i: nat, n: nat)
    requires i < |l|
    ensures Complete(l, i, n) <==> i < CompleteCount(l, n)
  {
    CompleteCountIs(l, n);
  }

  /** The item that was pushed behind a cut is always the first that is read back, and the others follow it under the
      same condition as before the push. */
  lemma PushedReadsBackIff(crc: seq<byte> -> nat, l: seq<Logged>, n: nat, x: Logged, prev: Option<nat>)
    requires AllOk(l) && SizeOf(l) <= U64 && FILE_HEADER_SIZE <= n <= SizeOf(l)
    requires LoggedOk(x) && (prev.Some? ==> 0 < prev.value < U64)
    ensures var file, k := PushedBehind(crc, l, n, x, prev), CompleteCount(l, n);
            ReadsBack(crc, file, Some(n), [(n, x.item)] + Reversed(Listing(l)[..k]), None)
            <==> if k == 0 then EndsAt(crc, file, prev) else prev == PrevOf(l, k)
  {
    var packed, file, k := Packed(crc, x, prev, n), PushedBehind(crc, l, n, x, prev), CompleteCount(l, n);
    PushedIsThere(crc, Image(crc, l)[..n], x, prev);
    CompleteAreRead(crc, l, n, packed);
    ReadsBackIff(crc, file, l, k, prev);
    assert ([(n, x.item)] + Reversed(Listing(l)[..k]))[1..] == Reversed(Listing(l)[..k]);
  }

  lemma PushedIsThere(crc: seq<byte> -> nat, torn: seq<byte>, x: Logged, prev: Option<nat>)
    requires LoggedOk(x) && (prev.Some? ==> 0 < prev.value < U64)
    ensures ReadExact(crc, torn + Packed(crc, x, prev, |torn|), |torn|) == Found(x.item, |x.body|, prev)
  {
    var packed, n := Packed(crc, x, prev, |torn|), |torn|;
    PackedParts(crc, x, prev, n);
    SliceBehind(torn, packed, 0, HEADER_SIZE);
    SliceBehind(torn, packed, HEADER_SIZE, HEADER_SIZE + |x.body|);
    ReadPresent(crc, torn + packed, n, x, prev);
  }

  lemma SliceBehind(a: seq<byte>, b: seq<byte>, i: nat, j: nat)
    requires i <= j <= |b|
    ensures (a + b)[|a| + i..|a| + j] == b[i..j]
  {
  }

  // ----- a reader that goes round in circles -----

  lemma {:induction false} CircleNeverEnds(crc: seq<byte> -> nat, file: seq<byte>, o: nat, items: seq<(nat, Item)>,
                                           error: Option<FileError>)
    requires ReadExact(crc, file, o).Found? && ReadExact(crc, file, o).prev == Some(o)
    ensures !ReadsBack(crc, file, Some(o), items, error)
    decreases |items|
  {
    if items != [] { CircleNeverEnds(crc, file, o, items[1..], error); }
  }

  /** When the last eight bytes of a torn file happen to be its own length, the item that is pushed behind them
      points back at itself, and a backward reader never gets past it. */
  lemma PushedCircle(crc: seq<byte> -> nat, l: seq<Logged>, n: nat, x: Logged)
    requires FILE_HEADER_SIZE <= n <= SizeOf(l) && n < U64 && LoggedOk(x) && LastItem(Image(crc, l)[..n]) == Some(n)
    ensures forall items, error :: !ReadsBack(crc, PushedBehind(crc, l, n, x, Some(n)), Some(n), items, error)
  {
    PushedIsThere(crc, Image(crc, l)[..n], x, Some(n));
    forall items, error ensures !ReadsBack(crc, PushedBehind(crc, l, n, x, Some(n)), Some(n), items, error) {
      CircleNeverEnds(crc, PushedBehind(crc, l, n, x, Some(n)), n, items, error);
    }
  }

  /** A write of eight bytes, in a file that is cut off right behind them, can make it so. */
  lemma CircleExists(crc: seq<byte> -> nat) returns (l: seq<Logged>, n: nat)
    ensures AllOk(l) && SizeOf(l) <= U64 && FILE_HEADER_SIZE <= n <= SizeOf(l) && n < U64
    ensures LastItem(Image(crc, l)[..n]) == Some(n)
  {
    n := FILE_HEADER_SIZE + HEADER_SIZE + 50;
    var from: seq<byte> := [0, 0, 0, 0, 0, 0, 0, 0];
    var item := Write(0, None, PageAddress(0, 1), 0, Some(from), ToLE(n, 8));
    var before := TransactionBlock(0, None) + (WriteBlock(PageAddress(0, 1), 0, 8) + from);
    var x := Logged(item, before + ToLE(n, 8));
    assert x.body == TransactionBlock(0, None) + (WriteBlock(PageAddress(0, 1), 0, 8) + (from + ToLE(n, 8)));
    l := [x];
    assert [] + [x] == l;
    ImageAppend(crc, [], x);
    assert Image(crc, l) == FILE_HEADER + Packed(crc, x, None, FILE_HEADER_SIZE);
    BodySize(x.body, item);
    Regroup(FILE_HEADER, ItemHeader(crc, x, None), before, ToLE(n, 8), ToLE(FILE_HEADER_SIZE, 8));
    CutBehindBody(FILE_HEADER + ItemHeader(crc, x, None) + before, ToLE(n, 8), ToLE(FILE_HEADER_SIZE, 8),
                  Image(crc, l), n);
    RoundTrip8(n);
  }

  lemma Regroup(a: seq<byte>, b: seq<byte>, c: seq<byte>, d: seq<byte>, e: seq<byte>)
    ensures a + (b + (c + d) + e) == a + b + c + d + e
  {
  }

  lemma CutBehindBody(a: seq<byte>, last: seq<byte>, footer: seq<byte>, file: seq<byte>, n: nat)
    requires file == a + last + footer && |last| == FOOTER_SIZE && n == |a| + FOOTER_SIZE && |a| > FILE_HEADER_SIZE
    ensures n <= |file| && LastItem(file[..n]) == Some(FromLE(last))
  {
    assert file[..n] == a + last;
    assert (a + last)[|a + last| - FOOTER_SIZE..] == last;
  }
}
