/** Appending to a log file that was cut off. The file is opened with whatever its last eight bytes say, and the next
    item goes behind the torn bytes. Whether a reader that starts at the beginning ever arrives there depends on the
    place of the cut alone. */
module TornLog {
  import opened Bytes
  import opened WalTypes
  import opened ItemCodec
  import opened LogImage

  /** A cut between two items, or before the first or after the last. */
  ghost predicate AtBoundary(l: seq<Logged>, n: nat) {
    exists m :: 0 <= m <= |l| && OffsetOf(l, m) == n
  }

  /** The file after it was cut to `n` bytes and an item was pushed. */
  ghost function PushedBehind(crc: seq<byte> -> nat, l: seq<Logged>, n: nat, x: Logged, prev: Option<nat>): seq<byte>
    requires n <= SizeOf(l)
  {
    Image(crc, l)[..n] + Packed(crc, x, prev, n)
  }

  lemma {:induction false} OffsetsGoUp(crc: seq<byte> -> nat, file: seq<byte>, offset: nat)
    ensures forall i :: 0 <= i < |ReadAll(crc, file, offset).0| ==> offset <= ReadAll(crc, file, offset).0[i].0
    decreases if offset < |file| then |file| - offset else 0
  {
    match ReadExact(crc, file, offset)
    case Stop(_) =>
    case Found(item, length, _) => OffsetsGoUp(crc, file, NextOffset(offset, length));
  }

  /** Bytes behind an item do not change what is read. */
  lemma ReadLonger(crc: seq<byte> -> nat, file: seq<byte>, more: seq<byte>, offset: nat)
    requires ReadExact(crc, file, offset).Found?
    ensures ReadExact(crc, file + more, offset) == ReadExact(crc, file, offset)
  {
    var start, length := offset + HEADER_SIZE, FromLE(file[offset..offset + HEADER_SIZE][2..4]);
    SliceOfPrefix(file, more, offset, start);
    SliceOfPrefix(file, more, start, start + length);
  }

  /** No item starts at `n`. */
  ghost predicate Avoids(items: seq<(nat, Item)>, n: nat) {
    forall i :: 0 <= i < |items| ==> items[i].0 != n
  }

  lemma AvoidsConcat(first: (nat, Item), rest: seq<(nat, Item)>, n: nat)
    requires first.0 != n && Avoids(rest, n)
    ensures Avoids([first] + rest, n)
  {
  }

  lemma BeyondAvoids(crc: seq<byte> -> nat, file: seq<byte>, offset: nat, n: nat)
    requires n < offset
    ensures Avoids(ReadAll(crc, file, offset).0, n)
  {
    OffsetsGoUp(crc, file, offset);
  }

  /** What is read at `offset` does not end at `n`, and nothing that comes after it starts there. */
  lemma PassesBy(crc: seq<byte> -> nat, file: seq<byte>, offset: nat, n: nat)
    requires offset < n
    requires ReadExact(crc, file, offset).Found? ==> n < NextOffset(offset, ReadExact(crc, file, offset).length)
    ensures Avoids(ReadAll(crc, file, offset).0, n)
  {
    match ReadExact(crc, file, offset)
    case Stop(_) =>
    case Found(item, length, _) =>
      BeyondAvoids(crc, file, NextOffset(offset, length), n);
      AvoidsConcat((offset, item), ReadAll(crc, file, NextOffset(offset, length)).0, n);
  }

  /** The first item that is not complete: whatever is read in its place, it reaches beyond the cut. */
  lemma TornItemReachesFar(crc: seq<byte> -> nat, torn: seq<byte>, more: seq<byte>, o: nat, length: nat)
    requires o < |torn| < o + HEADER_SIZE + length
    requires o + HEADER_SIZE <= |torn| ==> FromLE(torn[o..o + HEADER_SIZE][2..4]) == length
    ensures var found := ReadExact(crc, torn + more, o);
            found.Found? ==> |torn| < NextOffset(o, found.length)
  {
    if o + HEADER_SIZE <= |torn| { SliceOfPrefix(torn, more, o, o + HEADER_SIZE); }
    ReachesFar(crc, torn + more, o, |torn|, length);
  }

  lemma SliceOfPrefix(a: seq<byte>, b: seq<byte>, i: nat, j: nat)
    requires i <= j <= |a|
    ensures (a + b)[i..j] == a[i..j]
  {
  }

  lemma ReachesFar(crc: seq<byte> -> nat, file: seq<byte>, o: nat, n: nat, length: nat)
    requires o < n <= |file| && n < o + HEADER_SIZE + length
    requires o + HEADER_SIZE <= n ==> FromLE(file[o..o + HEADER_SIZE][2..4]) == length
    ensures ReadExact(crc, file, o).Found? ==> n < NextOffset(o, ReadExact(crc, file, o).length)
  {
    FoundLength(crc, file, o);
  }

  lemma FoundLength(crc: seq<byte> -> nat, file: seq<byte>, offset: nat)
    ensures ReadExact(crc, file, offset).Found? ==>
              offset + HEADER_SIZE <= |file|
              && ReadExact(crc, file, offset).length == FromLE(file[offset..offset + HEADER_SIZE][2..4])
  {
  }

  /** A header that is all there still says how long the body was. */
  lemma TornHeader(crc: seq<byte> -> nat, image: seq<byte>, l: seq<Logged>, n: nat, m: nat)
    requires Holds(crc, image, l) && n <= |image| && m < |l| && OffsetOf(l, m) + HEADER_SIZE <= n
    ensures FromLE(image[..n][OffsetOf(l, m)..OffsetOf(l, m) + HEADER_SIZE][2..4]) == |l[m].body|
  {
    assert HasItem(crc, image, l, m) && LoggedOk(l[m]);
    HeaderInFile(crc, image, l, m, n);
    PrevIsBefore(l, m);
    BodySize(l[m].body, l[m].item);
    HeaderRoundTrip(crc, l[m], PrevOf(l, m));
  }

  lemma {:induction false} NeverAtTheCut(crc: seq<byte> -> nat, image: seq<byte>, l: seq<Logged>, n: nat,
                                         more: seq<byte>, i: nat, m: nat)
    requires Holds(crc, image, l) && n <= |image| && i <= m <= |l| && forall k :: 0 <= k < m ==> Complete(l, k, n)
    requires Avoids(ReadAll(crc, image[..n] + more, OffsetOf(l, m)).0, n)
    ensures Avoids(ReadAll(crc, image[..n] + more, OffsetOf(l, i)).0, n)
    decreases m - i
  {
    if i < m {
      NeverAtTheCut(crc, image, l, n, more, i + 1, m);
      assert Complete(l, i, n);
      CompleteStep(crc, image, l, n, more, i);
      AvoidsConcat((OffsetOf(l, i), l[i].item), ReadAll(crc, image[..n] + more, OffsetOf(l, i + 1)).0, n);
    }
  }

  lemma CompleteStep(crc: seq<byte> -> nat, image: seq<byte>, l: seq<Logged>, n: nat, more: seq<byte>, i: nat)
    requires Holds(crc, image, l) && n <= |image| && i < |l| && Complete(l, i, n)
    ensures OffsetOf(l, i) < n
    ensures ReadAll(crc, image[..n] + more, OffsetOf(l, i)).0
         == [(OffsetOf(l, i), l[i].item)] + ReadAll(crc, image[..n] + more, OffsetOf(l, i + 1)).0
  {
    ReadAtOffset(crc, image, l, i, n);
    ReadLonger(crc, image[..n], more, OffsetOf(l, i));
    ReadAllFound(crc, image[..n] + more, l, i);
  }

  /** From the place of the first item that is not complete no reader comes to the cut. */
  lemma TornRest(crc: seq<byte> -> nat, torn: seq<byte>, more: seq<byte>, n: nat, o: nat, length: nat)
    requires |torn| == n && o < n < o + HEADER_SIZE + length
    requires o + HEADER_SIZE <= n ==> FromLE(torn[o..o + HEADER_SIZE][2..4]) == length
    ensures Avoids(ReadAll(crc, torn + more, o).0, n)
  {
    TornItemReachesFar(crc, torn, more, o, length);
    PassesBy(crc, torn + more, o, n);
  }

  lemma TornItemAvoids(crc: seq<byte> -> nat, image: seq<byte>, l: seq<Logged>, n: nat, more: seq<byte>, m: nat)
    requires Holds(crc, image, l) && n <= |image| && m < |l|
    requires OffsetOf(l, m) < n < OffsetOf(l, m) + HEADER_SIZE + |l[m].body|
    ensures Avoids(ReadAll(crc, image[..n] + more, OffsetOf(l, m)).0, n)
  {
    if OffsetOf(l, m) + HEADER_SIZE <= n { TornHeader(crc, image, l, n, m); }
    TornRest(crc, image[..n], more, n, OffsetOf(l, m), |l[m].body|);
  }

  lemma NotAtBoundary(crc: seq<byte> -> nat, image: seq<byte>, l: seq<Logged>, n: nat, more: seq<byte>)
    requires Holds(crc, image, l) && n <= |image| && !AtBoundary(l, n)
    ensures Avoids(ReadAll(crc, image[..n] + more, FILE_HEADER_SIZE).0, n)
  {
    var m := CompleteCount(l, n);
    PlaceOfTorn(l, n);
    if m < |l| && OffsetOf(l, m) < n {
      TornItemAvoids(crc, image, l, n, more, m);
    } else {
      BeyondAvoids(crc, image[..n] + more, OffsetOf(l, m), n);
    }
    CompleteCountIs(l, n);
    NeverAtTheCut(crc, image, l, n, more, 0, m);
    assert l[..0] == [];
  }

  /** Where the first item starts that is not complete. */
  lemma PlaceOfTorn(l: seq<Logged>, n: nat)
    requires n <= SizeOf(l) && !AtBoundary(l, n)
    ensures var m := CompleteCount(l, n);
            if m < |l| && OffsetOf(l, m) < n then n < OffsetOf(l, m) + HEADER_SIZE + |l[m].body| else n < OffsetOf(l, m)
  {
    var m := CompleteCount(l, n);
    CompleteCountIs(l, n);
    assert OffsetOf(l, m) != n;
    assert l[..|l|] == l;
    if m < |l| { assert !Complete(l, m, n); }
  }

  lemma CutAtBoundary(crc: seq<byte> -> nat, l: seq<Logged>, m: nat)
    requires m <= |l|
    ensures OffsetOf(l, m) <= SizeOf(l) && Image(crc, l)[..OffsetOf(l, m)] == Image(crc, l[..m])
  {
    OffsetsAscend(l, m, |l|);
    assert l[..|l|] == l;
    ImagePrefix(crc, l, m);
    PrefixIsSlice(Image(crc, l[..m]), Image(crc, l));
  }

  lemma PrefixIsSlice(a: seq<byte>, b: seq<byte>)
    requires a <= b
    ensures b[..|a|] == a
  {
  }

  /** Behind a cut between two items, the file is as if the items that were cut off had never been logged. */
  lemma PushAtBoundary(crc: seq<byte> -> nat, l: seq<Logged>, m: nat, x: Logged)
    requires m <= |l|
    ensures OffsetOf(l, m) <= SizeOf(l)
    ensures PushedBehind(crc, l, OffsetOf(l, m), x, PrevOf(l, m)) == Image(crc, l[..m] + [x])
  {
    CutAtBoundary(crc, l, m);
    PrefixPlaces(l, m);
    ImageAppend(crc, l[..m], x);
  }

  lemma PrefixPlaces(l: seq<Logged>, m: nat)
    requires m <= |l|
    ensures SizeOf(l[..m]) == OffsetOf(l, m) && PrevOf(l[..m], |l[..m]|) == PrevOf(l, m)
  {
    if m > 0 { assert l[..m][..m - 1] == l[..m - 1]; }
  }

  /** An item that is pushed to a file that was cut off is read back if and only if the cut was between two items,
      whatever the checksum function, the items, and the back pointer that the torn bytes are taken for. */
  lemma PushedIsReadIff(crc: seq<byte> -> nat, l: seq<Logged>, n: nat, x: Logged, prev: Option<nat>)
    requires AllOk(l) && SizeOf(l) <= U64 && FILE_HEADER_SIZE <= n <= SizeOf(l)
    requires LoggedOk(x) && n + HEADER_SIZE + |x.body| + FOOTER_SIZE <= U64
    requires prev == LastItem(Image(crc, l)[..n])
    ensures (n, x.item) in ReadAll(crc, PushedBehind(crc, l, n, x, prev), FILE_HEADER_SIZE).0 <==> AtBoundary(l, n)
  {
    if AtBoundary(l, n) {
      var m :| 0 <= m <= |l| && OffsetOf(l, m) == n;
      CutAtBoundary(crc, l, m);
      BoundaryPrev(crc, l, m);
      PushAtBoundary(crc, l, m, x);
      AppendedIsRead(crc, l[..m], x);
      PrefixPlaces(l, m);
    } else {
      ImageHolds(crc, l);
      NotAtBoundary(crc, Image(crc, l), l, n, Packed(crc, x, prev, n));
    }
  }

  lemma AppendedIsRead(crc: seq<byte> -> nat, l: seq<Logged>, x: Logged)
    requires AllOk(l) && LoggedOk(x) && SizeOf(l) + HEADER_SIZE + |x.body| + FOOTER_SIZE <= U64
    ensures (SizeOf(l), x.item) in ReadAll(crc, Image(crc, l + [x]), FILE_HEADER_SIZE).0
  {
    ImageAppend(crc, l, x);
    AppendedOk(l, x);
    IntactFileReadsAll(crc, l + [x]);
    ListingAppend(l, x);
    assert Listing(l + [x])[|l|] == (SizeOf(l), x.item);
  }

  lemma BoundaryPrev(crc: seq<byte> -> nat, l: seq<Logged>, m: nat)
    requires m <= |l| && OffsetOf(l, m) <= U64
    ensures OffsetOf(l, m) <= SizeOf(l) && LastItem(Image(crc, l)[..OffsetOf(l, m)]) == PrevOf(l, m)
  {
    CutAtBoundary(crc, l, m);
    PrefixPlaces(l, m);
    LastItemOf(crc, l[..m]);
  }
}
