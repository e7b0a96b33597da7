/** A segment file: 65536 page slots of 32 KiB, the first of which holds the file header. */
module Segment {
  import opened Bytes
  import opened WalTypes

  const PAGE_SIZE: nat := 0x8000
  const PAGE_HEADER_SIZE: nat := 19
  const SEGMENT_SIZE: nat := PAGE_SIZE * 0x1_0000
  const FORMAT_VERSION_UNINIT: byte := 0
  const PAGE_FORMAT_VERSION: byte := 1

  /** The header of a segment file: magic number, byte order, file type, content offset, version. */
  const FILE_HEADER: seq<byte> := [0x41, 0x43, 0x52, 0x4E, 1, 1, 0x00, 0x80, 1]

  datatype FileError = IncompatiblePageVersion(version: byte) | Corrupted | ChecksumMismatch

  datatype Result<+T> = Ok(value: T) | Err(error: FileError)

  type Body = s: seq<byte> | |s| == PAGE_BODY_SIZE witness ZeroPage()

  /** What a page was last written with. */
  datatype Stored = Stored(index: WalIndex, body: Body)

  /** What a read yields. */
  datatype Found = Found(index: Option<WalIndex>, body: Body)

  datatype SegmentOp = Read(pageNum: nat) | Write(pageNum: nat, stored: Stored)

  type PageMap = map<nat, Stored>

  ghost predicate IsPageNum(n: nat) {
    1 <= n <= 0xFFFF
  }

  ghost predicate OpFits(op: SegmentOp) {
    IsPageNum(op.pageNum) && (op.Write? ==> IndexFits(op.stored.index))
  }

  // ----- one page -----

  function Checksum(crc: seq<byte> -> nat, body: seq<byte>): nat {
    crc(body) % 0x1_0000
  }

  function Encode(crc: seq<byte> -> nat, s: Stored): (r: seq<byte>)
    ensures |r| == PAGE_SIZE
  {
    ToLE(s.index.generation, 8) + ToLE(s.index.offset, 8) + ToLE(Checksum(crc, s.body), 2) + [PAGE_FORMAT_VERSION] +
    s.body
  }

  function Decode(crc: seq<byte> -> nat, page: seq<byte>): Result<Found>
    requires |page| == PAGE_SIZE
  {
    if page[18] == FORMAT_VERSION_UNINIT then Ok(Found(None, ZeroPage()))
    else if page[18] != PAGE_FORMAT_VERSION then Err(IncompatiblePageVersion(page[18]))
    else if FromLE(page[8..16]) == 0 then Err(Corrupted)
    else if FromLE(page[16..18]) != Checksum(crc, page[PAGE_HEADER_SIZE..]) then Err(ChecksumMismatch)
    else Ok(Found(Some(WalIndex(FromLE(page[..8]), FromLE(page[8..16]))), page[PAGE_HEADER_SIZE..]))
  }

  /** A page that was written reads back as it was written. */
  lemma DecodeEncode(crc: seq<byte> -> nat, s: Stored)
    requires IndexFits(s.index)
    ensures Decode(crc, Encode(crc, s)) == Ok(Found(Some(s.index), s.body))
  {
    var page := Encode(crc, s);
    assert page[..8] == ToLE(s.index.generation, 8);
    assert page[8..16] == ToLE(s.index.offset, 8);
    assert page[16..18] == ToLE(Checksum(crc, s.body), 2);
    assert page[PAGE_HEADER_SIZE..] == s.body;
    FromToLE(s.index.generation, 8);
    FromToLE(s.index.offset, 8);
    Pow256Values();
    FromToLE(Checksum(crc, s.body), 2);
  }

  // ----- the file -----

  function PageOffset(n: nat): nat {
    n * PAGE_SIZE
  }

  function PageAt(file: seq<byte>, n: nat): (r: seq<byte>)
    requires |file| == SEGMENT_SIZE && n <= 0xFFFF
    ensures |r| == PAGE_SIZE
  {
    file[PageOffset(n)..PageOffset(n) + PAGE_SIZE]
  }

  /** Pages stay clear of the header, of each other, and of the end of the file. */
  lemma PagesAreDisjoint(n: nat, m: nat)
    requires IsPageNum(n) && IsPageNum(m)
    ensures PAGE_SIZE <= PageOffset(n) && PageOffset(n) + PAGE_SIZE <= SEGMENT_SIZE
    ensures n != m ==> PageOffset(n) + PAGE_SIZE <= PageOffset(m) || PageOffset(m) + PAGE_SIZE <= PageOffset(n)
  {
  }

  lemma WriteAt(file: seq<byte>, n: nat, page: seq<byte>, m: nat)
    requires |file| == SEGMENT_SIZE && |page| == PAGE_SIZE && IsPageNum(n) && IsPageNum(m)
    ensures var next := Overlay(file, PageOffset(n), page);
            PageAt(next, m) == (if m == n then page else PageAt(file, m)) && next[..PAGE_SIZE] == file[..PAGE_SIZE]
  {
    PagesAreDisjoint(n, m);
  }

  function Lookup(m: PageMap, n: nat): Found {
    if n in m then Found(Some(m[n].index), m[n].body) else Found(None, ZeroPage())
  }

  ghost predicate PageHolds(crc: seq<byte> -> nat, page: seq<byte>, n: nat, m: PageMap)
    requires |page| == PAGE_SIZE
  {
    if n in m then IndexFits(m[n].index) && page == Encode(crc, m[n]) else page[18] == FORMAT_VERSION_UNINIT
  }

  /** The bytes of the file are those of a segment with these pages. */
  ghost predicate Holds(crc: seq<byte> -> nat, file: seq<byte>, m: PageMap) {
    && |file| == SEGMENT_SIZE && FILE_HEADER <= file[..PAGE_SIZE]
    && forall n: nat :: IsPageNum(n) ==> PageHolds(crc, PageAt(file, n), n, m)
  }

  function NewFile(): (file: seq<byte>) {
    FILE_HEADER + seq(SEGMENT_SIZE - |FILE_HEADER|, _ => 0)
  }

  /** Opens a file that exists; the header must be that of a segment, and the file whole. */
  function CheckFile(file: seq<byte>): (r: Result<()>)
    ensures r.Ok? ==> |file| == SEGMENT_SIZE
  {
    if |file| != SEGMENT_SIZE || file[..|FILE_HEADER|] != FILE_HEADER then Err(Corrupted) else Ok(())
  }

  lemma NewFileIsEmpty(crc: seq<byte> -> nat)
    ensures Holds(crc, NewFile(), map[])
  {
    var file := NewFile();
    assert file[..PAGE_SIZE][..|FILE_HEADER|] == FILE_HEADER;
    forall n: nat | IsPageNum(n) ensures PageHolds(crc, PageAt(file, n), n, map[]) {
      PagesAreDisjoint(n, n);
      assert PageAt(file, n)[18] == file[PageOffset(n) + 18];
    }
  }

  lemma ReadHolds(crc: seq<byte> -> nat, file: seq<byte>, m: PageMap, n: nat)
    requires Holds(crc, file, m) && IsPageNum(n)
    ensures Decode(crc, PageAt(file, n)) == Ok(Lookup(m, n))
  {
    assert PageHolds(crc, PageAt(file, n), n, m);
    if n in m { DecodeEncode(crc, m[n]); }
  }

  lemma WriteHolds(crc: seq<byte> -> nat, file: seq<byte>, m: PageMap, n: nat, s: Stored)
    requires Holds(crc, file, m) && IsPageNum(n) && IndexFits(s.index)
    ensures Holds(crc, Overlay(file, PageOffset(n), Encode(crc, s)), m[n := s])
  {
    var next := Overlay(file, PageOffset(n), Encode(crc, s));
    WriteAt(file, n, Encode(crc, s), n);
    forall k: nat | IsPageNum(k) ensures PageHolds(crc, PageAt(next, k), k, m[n := s]) {
      WriteAt(file, n, Encode(crc, s), k);
      assert PageHolds(crc, PageAt(file, k), k, m);
    }
  }

  // ----- running operations in order -----

  function MapAfter(m: PageMap, ops: seq<SegmentOp>): PageMap {
    if ops == [] then m
    else
      var before := MapAfter(m, ops[..|ops| - 1]);
      match ops[|ops| - 1]
      case Read(_) => before
      case Write(n, s) => before[n := s]
  }

  /** What the operation at `i` should give its caller. */
  function Answer(m: PageMap, ops: seq<SegmentOp>, i: nat): Option<Found>
    requires i < |ops|
  {
    if ops[i].Read? then Some(Lookup(MapAfter(m, ops[..i]), ops[i].pageNum)) else None
  }

  method ReadPage(crc: seq<byte> -> nat, file: seq<byte>, n: nat) returns (r: Result<Found>)
    requires |file| == SEGMENT_SIZE && IsPageNum(n)
    ensures forall m :: Holds(crc, file, m) ==> r == Ok(Lookup(m, n))
  {
    forall m | Holds(crc, file, m) ensures Decode(crc, PageAt(file, n)) == Ok(Lookup(m, n)) {
      ReadHolds(crc, file, m, n);
    }
    r := Decode(crc, file[PageOffset(n)..PageOffset(n) + PAGE_SIZE]);
  }

  method WritePage(crc: seq<byte> -> nat, file: seq<byte>, n: nat, s: Stored) returns (next: seq<byte>)
    requires |file| == SEGMENT_SIZE && IsPageNum(n) && IndexFits(s.index)
    ensures |next| == |file| && next[..PAGE_SIZE] == file[..PAGE_SIZE]
    ensures forall k: nat :: IsPageNum(k) && k != n ==> PageAt(next, k) == PageAt(file, k)
    ensures forall m :: Holds(crc, file, m) ==> Holds(crc, next, m[n := s])
  {
    WriteAt(file, n, Encode(crc, s), n);
    forall k: nat | IsPageNum(k) && k != n
      ensures PageAt(Overlay(file, PageOffset(n), Encode(crc, s)), k) == PageAt(file, k) {
      WriteAt(file, n, Encode(crc, s), k);
    }
    forall m | Holds(crc, file, m) ensures Holds(crc, Overlay(file, PageOffset(n), Encode(crc, s)), m[n := s]) {
      WriteHolds(crc, file, m, n, s);
    }
    next := Overlay(file, PageOffset(n), Encode(crc, s));
  }

  datatype RawOp = RawRead(offset: nat, buf: seq<byte>) | RawWrite(offset: nat, buf: seq<byte>)

  function RawOf(crc: seq<byte> -> nat, op: SegmentOp): RawOp {
    match op
    case Read(n) => RawRead(PageOffset(n), seq(PAGE_SIZE, _ => 0))
    case Write(n, s) => RawWrite(PageOffset(n), Encode(crc, s))
  }

  // ----- a batch on any file, damaged or not -----

  ghost predicate AllFit(ops: seq<SegmentOp>) {
    forall i :: 0 <= i < |ops| ==> OpFits(ops[i])
  }

  /** The bytes of the file after the operations, in order. */
  ghost function FileAfter(crc: seq<byte> -> nat, file: seq<byte>, ops: seq<SegmentOp>): (next: seq<byte>)
    ensures |next| == |file|
  {
    if ops == [] then file
    else
      var before := FileAfter(crc, file, ops[..|ops| - 1]);
      match ops[|ops| - 1]
      case Read(_) => before
      case Write(n, s) => Overlay(before, PageOffset(n), Encode(crc, s))
  }

  /** What a read at place `i` makes of the bytes it finds. */
  ghost function Reading(crc: seq<byte> -> nat, file: seq<byte>, ops: seq<SegmentOp>, i: nat): Result<Found>
    requires i < |ops| && |file| == SEGMENT_SIZE && OpFits(ops[i])
  {
    Decode(crc, PageAt(FileAfter(crc, file, ops[..i]), ops[i].pageNum))
  }

  lemma FileAfterOne(crc: seq<byte> -> nat, file: seq<byte>, ops: seq<SegmentOp>, i: nat)
    requires i < |ops|
    ensures var before := FileAfter(crc, file, ops[..i]);
            FileAfter(crc, file, ops[..i + 1]) ==
            if ops[i].Read? then before else Overlay(before, PageOffset(ops[i].pageNum), Encode(crc, ops[i].stored))
  {
    assert ops[..i + 1][..i] == ops[..i];
  }

  lemma MapAfterOne(m: PageMap, ops: seq<SegmentOp>, i: nat)
    requires i < |ops|
    ensures var before := MapAfter(m, ops[..i]);
            MapAfter(m, ops[..i + 1]) == if ops[i].Read? then before else before[ops[i].pageNum := ops[i].stored]
  {
    assert ops[..i + 1][..i] == ops[..i];
  }

  /** On the file of a segment, the bytes follow the map. */
  lemma {:induction false} FileFollowsMap(crc: seq<byte> -> nat, file: seq<byte>, m: PageMap, ops: seq<SegmentOp>,
                                          i: nat)
    requires Holds(crc, file, m) && AllFit(ops) && i <= |ops|
    ensures Holds(crc, FileAfter(crc, file, ops[..i]), MapAfter(m, ops[..i]))
  {
    if i > 0 {
      FileFollowsMap(crc, file, m, ops, i - 1);
      assert OpFits(ops[i - 1]);
      FollowsOne(crc, file, m, ops, i - 1);
    }
  }

  lemma FollowsOne(crc: seq<byte> -> nat, file: seq<byte>, m: PageMap, ops: seq<SegmentOp>, i: nat)
    requires i < |ops| && OpFits(ops[i]) && Holds(crc, FileAfter(crc, file, ops[..i]), MapAfter(m, ops[..i]))
    ensures Holds(crc, FileAfter(crc, file, ops[..i + 1]), MapAfter(m, ops[..i + 1]))
  {
    FileAfterOne(crc, file, ops, i);
    MapAfterOne(m, ops, i);
    if ops[i].Write? {
      WriteHolds(crc, FileAfter(crc, file, ops[..i]), MapAfter(m, ops[..i]), ops[i].pageNum, ops[i].stored);
    }
  }

  lemma ReadingIsAnswer(crc: seq<byte> -> nat, file: seq<byte>, m: PageMap, ops: seq<SegmentOp>, i: nat)
    requires Holds(crc, file, m) && AllFit(ops) && i < |ops| && ops[i].Read?
    ensures Reading(crc, file, ops, i).Ok? && Answer(m, ops, i) == Some(Reading(crc, file, ops, i).value)
  {
    FileFollowsMap(crc, file, m, ops, i);
    ReadHolds(crc, FileAfter(crc, file, ops[..i]), MapAfter(m, ops[..i]), ops[i].pageNum);
  }

  /** What the buffer of an operation holds once it has run. */
  ghost predicate IsDone(crc: seq<byte> -> nat, file: seq<byte>, ops: seq<SegmentOp>, i: nat, raw: RawOp)
    requires i < |ops| && |file| == SEGMENT_SIZE && OpFits(ops[i])
  {
    && raw.RawRead? == ops[i].Read? && |raw.buf| == PAGE_SIZE
    && (ops[i].Read? ==> Decode(crc, raw.buf) == Reading(crc, file, ops, i))
  }

  lemma OneIsDone(crc: seq<byte> -> nat, file: seq<byte>, ops: seq<SegmentOp>, i: nat, raw: RawOp, next: seq<byte>)
    requires i < |ops| && |file| == SEGMENT_SIZE && OpFits(ops[i]) && raw == RawOf(crc, ops[i])
    requires next == FileAfter(crc, file, ops[..i])
    ensures raw.offset + PAGE_SIZE <= |next|
    ensures raw.RawRead? ==>
              && FileAfter(crc, file, ops[..i + 1]) == next
              && IsDone(crc, file, ops, i, RawRead(raw.offset, next[raw.offset..raw.offset + PAGE_SIZE]))
    ensures raw.RawWrite? ==> FileAfter(crc, file, ops[..i + 1]) == Overlay(next, raw.offset, raw.buf)
                              && IsDone(crc, file, ops, i, raw)
  {
    PagesAreDisjoint(ops[i].pageNum, ops[i].pageNum);
    FileAfterOne(crc, file, ops, i);
  }

  method ExecBatch(crc: seq<byte> -> nat, file: seq<byte>, raws: seq<RawOp>, ghost ops: seq<SegmentOp>)
    returns (next: seq<byte>, done: seq<RawOp>)
    requires |file| == SEGMENT_SIZE && |raws| == |ops| && AllFit(ops)
    requires forall i :: 0 <= i < |ops| ==> raws[i] == RawOf(crc, ops[i])
    ensures next == FileAfter(crc, file, ops)
    ensures |done| == |ops| && forall i :: 0 <= i < |ops| ==> IsDone(crc, file, ops, i, done[i])
  {
    next, done := file, [];
    assert ops[..0] == [] && ops[..|ops|] == ops;
    for i := 0 to |raws|
      invariant next == FileAfter(crc, file, ops[..i])
      invariant |done| == i && forall j :: 0 <= j < i ==> IsDone(crc, file, ops, j, done[j])
    {
      var one;
      next, one := ExecOne(crc, file, raws[i], next, ops, i);
      done := done + [one];
    }
  }

  method ExecOne(crc: seq<byte> -> nat, ghost file: seq<byte>, raw: RawOp, before: seq<byte>, ghost ops: seq<SegmentOp>,
                 ghost i: nat)
    returns (after: seq<byte>, done: RawOp)
    requires i < |ops| && |file| == SEGMENT_SIZE && OpFits(ops[i]) && raw == RawOf(crc, ops[i])
    requires before == FileAfter(crc, file, ops[..i])
    ensures after == FileAfter(crc, file, ops[..i + 1]) && IsDone(crc, file, ops, i, done)
  {
    OneIsDone(crc, file, ops, i, raw, before);
    if raw.RawRead? {
      after, done := before, RawRead(raw.offset, before[raw.offset..raw.offset + PAGE_SIZE]);
    } else {
      after, done := Overlay(before, raw.offset, raw.buf), raw;
    }
  }

  /** The first answers, up to a read of a damaged page. */
  ghost predicate Answered(crc: seq<byte> -> nat, file: seq<byte>, ops: seq<SegmentOp>, answers: seq<Option<Found>>)
    requires |file| == SEGMENT_SIZE && AllFit(ops)
  {
    && |answers| <= |ops|
    && forall i :: 0 <= i < |answers| ==>
                     if ops[i].Read?
                     then Reading(crc, file, ops, i).Ok? && answers[i] == Some(Reading(crc, file, ops, i).value)
                     else answers[i] == None
  }

  method RawsOf(crc: seq<byte> -> nat, ops: seq<SegmentOp>) returns (raws: seq<RawOp>)
    ensures |raws| == |ops| && forall i :: 0 <= i < |ops| ==> raws[i] == RawOf(crc, ops[i])
  {
    raws := [];
    for i := 0 to |ops|
      invariant |raws| == i && forall j :: 0 <= j < i ==> raws[j] == RawOf(crc, ops[j])
    {
      raws := raws + [RawOf(crc, ops[i])];
    }
  }

  /** Where the answers end: at the end of the list, or at a read of a damaged page. */
  ghost predicate EndsWith(crc: seq<byte> -> nat, file: seq<byte>, ops: seq<SegmentOp>, n: nat,
                           error: Option<FileError>)
    requires |file| == SEGMENT_SIZE && AllFit(ops)
  {
    if error.None? then n == |ops| else n < |ops| && ops[n].Read? && Reading(crc, file, ops, n) == Err(error.value)
  }

  /** Decodes what the reads have found. */
  method Complete(crc: seq<byte> -> nat, ghost file: seq<byte>, raws: seq<RawOp>, ghost ops: seq<SegmentOp>)
    returns (answers: seq<Option<Found>>, error: Option<FileError>)
    requires |file| == SEGMENT_SIZE && AllFit(ops)
    requires |raws| == |ops| && forall i :: 0 <= i < |ops| ==> IsDone(crc, file, ops, i, raws[i])
    ensures Answered(crc, file, ops, answers) && EndsWith(crc, file, ops, |answers|, error)
  {
    answers := [];
    for i := 0 to |raws|
      invariant |answers| == i && Answered(crc, file, ops, answers)
    {
      assert IsDone(crc, file, ops, i, raws[i]);
      if raws[i].RawRead? {
        var found := Decode(crc, raws[i].buf);
        if found.Err? { return answers, Some(found.error); }
        answers := answers + [Some(found.value)];
      } else {
        answers := answers + [None];
      }
    }
    error := None;
  }

  /** Runs all operations on the file and only then looks at what the reads have found. A damaged page is reported, but
      all writes have been done, and the reads after it get no answer. */
  method Batch(crc: seq<byte> -> nat, file: seq<byte>, ops: seq<SegmentOp>, ghost m: PageMap)
    returns (next: seq<byte>, answers: seq<Option<Found>>, error: Option<FileError>)
    requires |file| == SEGMENT_SIZE && AllFit(ops)
    ensures next == FileAfter(crc, file, ops)
    ensures Answered(crc, file, ops, answers) && EndsWith(crc, file, ops, |answers|, error)
    ensures Holds(crc, file, m) ==>
              && error == None && Holds(crc, next, MapAfter(m, ops))
              && |answers| == |ops| && forall i :: 0 <= i < |ops| ==> answers[i] == Answer(m, ops, i)
  {
    var raws := RawsOf(crc, ops);
    next, raws := ExecBatch(crc, file, raws, ops);
    answers, error := Complete(crc, file, raws, ops);
    if Holds(crc, file, m) { BatchHolds(crc, file, m, ops, answers, error); }
  }

  /** On the file of a segment no read fails, and the answers are those of the list run in order on the map. */
  lemma BatchHolds(crc: seq<byte> -> nat, file: seq<byte>, m: PageMap, ops: seq<SegmentOp>,
                   answers: seq<Option<Found>>, error: Option<FileError>)
    requires Holds(crc, file, m) && AllFit(ops)
    requires Answered(crc, file, ops, answers) && EndsWith(crc, file, ops, |answers|, error)
    ensures error == None && Holds(crc, FileAfter(crc, file, ops), MapAfter(m, ops))
    ensures |answers| == |ops| && forall i :: 0 <= i < |ops| ==> answers[i] == Answer(m, ops, i)
  {
    FileFollowsMap(crc, file, m, ops, |ops|);
    assert ops[..|ops|] == ops;
    if |answers| < |ops| && ops[|answers|].Read? { ReadingIsAnswer(crc, file, m, ops, |answers|); }
    forall i | 0 <= i < |answers| ensures answers[i] == Answer(m, ops, i) {
      if ops[i].Read? { ReadingIsAnswer(crc, file, m, ops, i); }
    }
  }
}
