/** Pages across all segments. */
module PhysicalStorage {
  // Reads and writes of pages of any segment, with a bounded number of segment files open.

  import opened Bytes
  import opened WalTypes
  import Segment
  import Replacer

  datatype Op = Read(address: PageAddress) | Write(address: PageAddress, stored: Segment.Stored)

  function SegmentOpOf(op: Op): Segment.SegmentOp {
    match op
    case Read(a) => Segment.Read(a.pageNum)
    case Write(a, s) => Segment.Write(a.pageNum, s)
  }

  ghost predicate OpFits(op: Op) {
    Segment.OpFits(SegmentOpOf(op))
  }

  // ----- what a list of operations means: run in order -----

  /** The pages of every segment. A segment without a file has none. */
  type Disk = map<nat, Segment.PageMap>

  function PagesOf(disk: Disk, s: nat): Segment.PageMap {
    if s in disk then disk[s] else map[]
  }

  function DiskAfter(disk: Disk, ops: seq<Op>): Disk {
    if ops == [] then disk
    else
      var before := DiskAfter(disk, ops[..|ops| - 1]);
      match ops[|ops| - 1]
      case Read(_) => before
      case Write(a, stored) => before[a.segmentNum := PagesOf(before, a.segmentNum)[a.pageNum := stored]]
  }

  function Answer(disk: Disk, ops: seq<Op>, i: nat): Option<Segment.Found>
    requires i < |ops|
  {
    var a := ops[i].address;
    if ops[i].Read? then Some(Segment.Lookup(PagesOf(DiskAfter(disk, ops[..i]), a.segmentNum), a.pageNum)) else None
  }

  // ----- the operations on one segment -----

  /** The places in the list of the operations on a segment. */
  function Positions(ops: seq<Op>, s: nat): (r: seq<nat>)
    ensures forall k :: 0 <= k < |r| ==> r[k] < |ops| && ops[r[k]].address.segmentNum == s
  {
    if ops == [] then []
    else
      var n := |ops| - 1;
      Positions(ops[..n], s) + (if ops[n].address.segmentNum == s then [n] else [])
  }

  function OpsAt(ops: seq<Op>, at: seq<nat>): (r: seq<Segment.SegmentOp>)
    requires forall k :: 0 <= k < |at| ==> at[k] < |ops|
    ensures |r| == |at| && forall k :: 0 <= k < |at| ==> r[k] == SegmentOpOf(ops[at[k]])
  {
    seq(|at|, k requires 0 <= k < |at| => SegmentOpOf(ops[at[k]]))
  }

  function Group(ops: seq<Op>, s: nat): seq<Segment.SegmentOp> {
    OpsAt(ops, Positions(ops, s))
  }

  lemma GroupStep(ops: seq<Op>, s: nat, n: nat)
    requires n < |ops|
    ensures Positions(ops[..n + 1], s) == Positions(ops[..n], s) + (if ops[n].address.segmentNum == s then [n] else [])
    ensures Group(ops[..n + 1], s) ==
            Group(ops[..n], s) + (if ops[n].address.segmentNum == s then [SegmentOpOf(ops[n])] else [])
  {
    assert ops[..n + 1][..n] == ops[..n];
  }

  /** A segment has the same pages whether the whole list is run in order or just the operations on it. */
  lemma {:induction false} GroupMeansTheSame(disk: Disk, ops: seq<Op>, s: nat)
    ensures PagesOf(DiskAfter(disk, ops), s) == Segment.MapAfter(PagesOf(disk, s), Group(ops, s))
  {
    if ops != [] {
      var n := |ops| - 1;
      GroupMeansTheSame(disk, ops[..n], s);
      GroupStep(ops, s, n);
      assert ops[..n + 1] == ops;
      if ops[n].address.segmentNum == s {
        var group := Group(ops[..n], s);
        assert (group + [SegmentOpOf(ops[n])])[..|group|] == group;
      } else {
        assert Group(ops, s) == Group(ops[..n], s);
      }
    }
  }

  /** Every operation is in its group, after exactly the operations on its segment that come before it in the list. */
  lemma {:induction false} PlaceInGroup(ops: seq<Op>, i: nat) returns (k: nat)
    requires i < |ops|
    ensures var s := ops[i].address.segmentNum;
            k < |Positions(ops, s)| && Positions(ops, s)[k] == i && Group(ops, s)[..k] == Group(ops[..i], s)
  {
    var s, n := ops[i].address.segmentNum, |ops| - 1;
    GroupStep(ops, s, n);
    assert ops[..n + 1] == ops;
    if i == n {
      k := |Positions(ops[..n], s)|;
    } else {
      assert ops[..n][..i] == ops[..i];
      k := PlaceInGroup(ops[..n], i);
      assert Group(ops, s)[..k] == Group(ops[..n], s)[..k];
    }
  }

  /** A read finds in its group what it finds in the list. */
  lemma SameAnswer(disk: Disk, ops: seq<Op>, s: nat, k: nat)
    requires k < |Positions(ops, s)|
    ensures Segment.Answer(PagesOf(disk, s), Group(ops, s), k) == Answer(disk, ops, Positions(ops, s)[k])
  {
    var i := Positions(ops, s)[k];
    var j := PlaceInGroup(ops, i);
    PositionsAscend(ops, s);
    assert j == k;
    GroupMeansTheSame(disk, ops[..i], s);
  }

  lemma {:induction false} PositionsAscend(ops: seq<Op>, s: nat)
    ensures forall j, k :: 0 <= j < k < |Positions(ops, s)| ==> Positions(ops, s)[j] < Positions(ops, s)[k]
  {
    if ops != [] {
      PositionsAscend(ops[..|ops| - 1], s);
    }
  }

  // ----- files -----

  ghost predicate FolderHolds(crc: seq<byte> -> nat, folder: map<nat, seq<byte>>, disk: Disk) {
    forall s: nat :: SegmentHolds(crc, folder, disk, s)
  }

  ghost predicate SegmentHolds(crc: seq<byte> -> nat, folder: map<nat, seq<byte>>, disk: Disk, s: nat) {
    if s in folder then Segment.Holds(crc, folder[s], PagesOf(disk, s)) else PagesOf(disk, s) == map[]
  }

  lemma FileCreated(crc: seq<byte> -> nat, folder: map<nat, seq<byte>>, disk: Disk, s: nat)
    requires s !in folder && Segment.Holds(crc, Segment.NewFile(), map[])
    ensures FolderHolds(crc, folder, disk) ==> FolderHolds(crc, folder[s := Segment.NewFile()], disk)
  {
    if FolderHolds(crc, folder, disk) {
      assert SegmentHolds(crc, folder, disk, s);
      var next := folder[s := Segment.NewFile()];
      forall t: nat ensures SegmentHolds(crc, next, disk, t) {
        assert SegmentHolds(crc, folder, disk, t);
      }
    }
  }

  lemma SegmentReplaced(crc: seq<byte> -> nat, folder: map<nat, seq<byte>>, disk: Disk, s: nat, file: seq<byte>,
                        pages: Segment.PageMap)
    ensures FolderHolds(crc, folder, disk) && Segment.Holds(crc, file, pages) ==>
              FolderHolds(crc, folder[s := file], disk[s := pages])
  {
    if FolderHolds(crc, folder, disk) && Segment.Holds(crc, file, pages) {
      var next, after := folder[s := file], disk[s := pages];
      forall t: nat ensures SegmentHolds(crc, next, after, t) {
        assert SegmentHolds(crc, folder, disk, t);
      }
    }
  }

  lemma SamePages(crc: seq<byte> -> nat, folder: map<nat, seq<byte>>, disk: Disk, other: Disk)
    requires FolderHolds(crc, folder, disk) && forall s: nat :: PagesOf(other, s) == PagesOf(disk, s)
    ensures FolderHolds(crc, folder, other)
  {
    forall s: nat ensures SegmentHolds(crc, folder, other, s) {
      assert SegmentHolds(crc, folder, disk, s);
    }
  }

  // ----- between two groups -----

  /** The pages when the groups of the segments in `left` have not run yet, and all others have. */
  function Partly(disk: Disk, ops: seq<Op>, left: set<nat>): Disk {
    var all := DiskAfter(disk, ops);
    map s | s in all.Keys + disk.Keys :: if s in left then PagesOf(disk, s) else PagesOf(all, s)
  }

  lemma PartlyPages(disk: Disk, ops: seq<Op>, left: set<nat>, s: nat)
    ensures PagesOf(Partly(disk, ops, left), s) ==
            if s in left then PagesOf(disk, s) else Segment.MapAfter(PagesOf(disk, s), Group(ops, s))
  {
    GroupMeansTheSame(disk, ops, s);
  }

  lemma PartlyStarts(disk: Disk, ops: seq<Op>, left: set<nat>, s: nat)
    requires s !in left ==> Positions(ops, s) == []
    ensures PagesOf(Partly(disk, ops, left), s) == PagesOf(disk, s)
  {
    PartlyPages(disk, ops, left, s);
    if s !in left { assert Group(ops, s) == []; }
  }

  lemma PartlyMoves(disk: Disk, ops: seq<Op>, left: set<nat>, s: nat, t: nat)
    requires s in left
    ensures PagesOf(Partly(disk, ops, left)[s := Segment.MapAfter(PagesOf(disk, s), Group(ops, s))], t)
         == PagesOf(Partly(disk, ops, left - {s}), t)
  {
    PartlyPages(disk, ops, left, t);
    PartlyPages(disk, ops, left - {s}, t);
  }

  lemma PartlyDone(disk: Disk, ops: seq<Op>, s: nat)
    ensures PagesOf(Partly(disk, ops, {}), s) == PagesOf(DiskAfter(disk, ops), s)
  {
    PartlyPages(disk, ops, {}, s);
    GroupMeansTheSame(disk, ops, s);
  }

  lemma FolderStarts(crc: seq<byte> -> nat, folder: map<nat, seq<byte>>, disk: Disk, ops: seq<Op>, left: set<nat>)
    requires FolderHolds(crc, folder, disk) && forall s: nat :: s !in left ==> Positions(ops, s) == []
    ensures FolderHolds(crc, folder, Partly(disk, ops, left))
  {
    forall s: nat ensures PagesOf(Partly(disk, ops, left), s) == PagesOf(disk, s) { PartlyStarts(disk, ops, left, s); }
    SamePages(crc, folder, disk, Partly(disk, ops, left));
  }

  lemma FolderMoves(crc: seq<byte> -> nat, folder: map<nat, seq<byte>>, disk: Disk, ops: seq<Op>, left: set<nat>,
                    s: nat)
    requires s in left
    requires FolderHolds(crc, folder, Partly(disk, ops, left)[s := Segment.MapAfter(PagesOf(disk, s), Group(ops, s))])
    ensures FolderHolds(crc, folder, Partly(disk, ops, left - {s}))
  {
    var ran := Partly(disk, ops, left)[s := Segment.MapAfter(PagesOf(disk, s), Group(ops, s))];
    forall t: nat ensures PagesOf(ran, t) == PagesOf(Partly(disk, ops, left - {s}), t) {
      PartlyMoves(disk, ops, left, s, t);
    }
    SamePages(crc, folder, ran, Partly(disk, ops, left - {s}));
  }

  lemma FolderDone(crc: seq<byte> -> nat, folder: map<nat, seq<byte>>, disk: Disk, ops: seq<Op>)
    requires FolderHolds(crc, folder, Partly(disk, ops, {}))
    ensures FolderHolds(crc, folder, DiskAfter(disk, ops))
  {
    forall s: nat ensures PagesOf(Partly(disk, ops, {}), s) == PagesOf(DiskAfter(disk, ops), s) {
      PartlyDone(disk, ops, s);
    }
    SamePages(crc, folder, Partly(disk, ops, {}), DiskAfter(disk, ops));
  }

  /** An open file, known by the number of its segment. */
  datatype Descriptor = Descriptor(segmentNum: nat)

  class DescriptorCache {
    var descriptors: map<nat, Descriptor>
    const replacer: Replacer.CacheReplacer<nat>
    const maxNumOpenSegments: nat

    /** The open files are the residents of the replacer. */
    ghost predicate Valid()
      reads this, replacer
    {
      && Replacer.Ok(replacer.Model()) && replacer.size == maxNumOpenSegments
      && descriptors.Keys == Replacer.Residents(replacer.Model())
      && forall s :: s in descriptors ==> descriptors[s] == Descriptor(s)
    }

    constructor (maxNumOpenSegments: nat)
      ensures descriptors == map[] && fresh(replacer) && this.maxNumOpenSegments == maxNumOpenSegments
      ensures maxNumOpenSegments >= 1 ==> Valid()
    {
      descriptors, this.maxNumOpenSegments := map[], maxNumOpenSegments;
      replacer := new Replacer.CacheReplacer(maxNumOpenSegments);
      new;
      assert Replacer.Queue(replacer.Model()) == [];
    }

    method GetDescriptor(s: nat) returns (d: Option<Descriptor>)
      requires Valid()
      modifies replacer
      ensures Valid() && d == (if s in descriptors then Some(Descriptor(s)) else None)
      ensures replacer.Model() == if s in descriptors then Replacer.Accessed(old(replacer.Model()), s)
                                  else old(replacer.Model())
    {
      if s !in descriptors { return None; }
      Replacer.AccessedResidents(replacer.Model(), s);
      var found := replacer.Access(s);
      d := Some(descriptors[s]);
    }

    /** Keeps a file open; the replacer's victim is closed. */
    method StoreDescriptor(s: nat, d: Descriptor)
      requires Valid() && s !in descriptors && d == Descriptor(s)
      modifies this`descriptors, replacer
      ensures Valid()
      ensures var victim := old(Replacer.Victim(replacer.Model()));
              descriptors == (old(descriptors) - (if victim.Some? then {victim.value} else {}))[s := d]
      ensures replacer.Model() == Replacer.Replaced(old(replacer.Model()), s)
    {
      var evicted := replacer.EvictReplace(s);
      if evicted.Some? {
        descriptors := descriptors - {evicted.value};
      }
      descriptors := descriptors[s := d];
      assert descriptors.Keys == Replacer.Residents(replacer.Model());
    }
  }

  /** No more files are open than the configuration allows. */
  lemma OpenFilesAreBounded(cache: DescriptorCache)
    requires cache.Valid()
    ensures |cache.descriptors| <= cache.maxNumOpenSegments
  {
    Replacer.ResidentCount(cache.replacer.Model());
    assert |cache.descriptors| == |cache.descriptors.Keys|;
  }

  class PhysicalStorage {
    const crc: seq<byte> -> nat
    var folder: map<nat, seq<byte>>
    const cache: DescriptorCache

    ghost predicate Valid()
      reads this, cache, cache.replacer
    {
      cache.Valid() && forall s :: s in cache.descriptors ==> s in folder && |folder[s]| == Segment.SEGMENT_SIZE
    }

    constructor (crc: seq<byte> -> nat, folder: map<nat, seq<byte>>, maxNumOpenSegments: nat)
      ensures this.crc == crc && this.folder == folder && fresh(cache) && fresh(cache.replacer)
      ensures maxNumOpenSegments >= 1 ==> Valid()
    {
      this.crc, this.folder := crc, folder;
      cache := new DescriptorCache(maxNumOpenSegments);
    }

    /** Makes sure that the file of a segment is open, creating it if need be. */
    method UseSegment(s: nat, ghost disk: Disk) returns (r: Segment.Result<Descriptor>)
      requires Valid()
      modifies this, cache, cache.replacer
      ensures Valid()
      ensures r.Ok? ==> r.value == Descriptor(s) && s in folder && |folder[s]| == Segment.SEGMENT_SIZE
      ensures r.Ok? ==> s in cache.descriptors
      ensures forall t :: t != s && t in old(folder) ==> t in folder && folder[t] == old(folder)[t]
      ensures FolderHolds(crc, old(folder), disk) ==> r.Ok? && FolderHolds(crc, folder, disk)
    {
      var open := cache.GetDescriptor(s);
      if open.Some? { return Segment.Ok(open.value); }
      assert SegmentHolds(crc, folder, disk, s) ==> s in folder ==> Segment.CheckFile(folder[s]).Ok? by {
        assert forall f: seq<byte> :: |f| == Segment.SEGMENT_SIZE ==> f[..Segment.PAGE_SIZE][..9] == f[..9];
      }
      if s in folder {
        var ok := Segment.CheckFile(folder[s]);
        if ok.Err? { return Segment.Err(ok.error); }
      } else {
        Segment.NewFileIsEmpty(crc);
        FileCreated(crc, folder, disk, s);
        folder := folder[s := Segment.NewFile()];
      }
      cache.StoreDescriptor(s, Descriptor(s));
      r := Segment.Ok(Descriptor(s));
    }

    method Read(a: PageAddress, ghost disk: Disk) returns (r: Segment.Result<Segment.Found>)
      requires Valid() && Segment.IsPageNum(a.pageNum)
      modifies this, cache, cache.replacer
      ensures Valid()
      ensures FolderHolds(crc, old(folder), disk) ==>
                FolderHolds(crc, folder, disk)
                && r == Segment.Ok(Segment.Lookup(PagesOf(disk, a.segmentNum), a.pageNum))
    {
      var open := UseSegment(a.segmentNum, disk);
      if open.Err? { return Segment.Err(open.error); }
      assert FolderHolds(crc, folder, disk) ==> SegmentHolds(crc, folder, disk, a.segmentNum);
      r := Segment.ReadPage(crc, folder[a.segmentNum], a.pageNum);
    }

    method Write(a: PageAddress, stored: Segment.Stored, ghost disk: Disk) returns (r: Segment.Result<()>)
      requires Valid() && OpFits(Op.Write(a, stored))
      modifies this, cache, cache.replacer
      ensures Valid()
      ensures FolderHolds(crc, old(folder), disk) ==>
                r.Ok? && FolderHolds(crc, folder,
                                     disk[a.segmentNum := PagesOf(disk, a.segmentNum)[a.pageNum := stored]])
    {
      var open := UseSegment(a.segmentNum, disk);
      if open.Err? { return Segment.Err(open.error); }
      assert FolderHolds(crc, folder, disk) ==> SegmentHolds(crc, folder, disk, a.segmentNum);
      var next := Segment.WritePage(crc, folder[a.segmentNum], a.pageNum, stored);
      SegmentReplaced(crc, folder, disk, a.segmentNum, next, PagesOf(disk, a.segmentNum)[a.pageNum := stored]);
      folder := folder[a.segmentNum := next];
      r := Segment.Ok(());
    }

    /** Runs the operations on one segment, and gives each its answer. */
    method RunGroup(s: nat, ops: seq<Op>, at: seq<nat>, answers: seq<Option<Segment.Found>>, ghost disk: Disk,
                    ghost now: Disk)
      returns (r: Segment.Result<seq<Option<Segment.Found>>>)
      requires Valid() && (forall i :: 0 <= i < |ops| ==> OpFits(ops[i])) && at == Positions(ops, s)
               && |answers| == |ops|
      modifies this, cache, cache.replacer
      ensures Valid() && (r.Ok? ==> |r.value| == |ops|)
      ensures FolderHolds(crc, old(folder), now) && PagesOf(now, s) == PagesOf(disk, s) ==>
                && r.Ok? && FolderHolds(crc, folder, now[s := Segment.MapAfter(PagesOf(disk, s), Group(ops, s))])
                && forall i :: 0 <= i < |ops| ==>
                                 r.value[i] ==
                                 if ops[i].address.segmentNum == s then Answer(disk, ops, i) else answers[i]
    {
      ghost var good := FolderHolds(crc, folder, now) && PagesOf(now, s) == PagesOf(disk, s);
      var open := UseSegment(s, now);
      if open.Err? { return Segment.Err(open.error); }
      assert good ==> SegmentHolds(crc, folder, now, s);
      var next, found, error := Segment.Batch(crc, folder[s], OpsAt(ops, at), PagesOf(now, s));
      if good { SegmentReplaced(crc, folder, now, s, next, Segment.MapAfter(PagesOf(disk, s), Group(ops, s))); }
      folder := folder[s := next];
      if error.Some? { return Segment.Err(error.value); }
      var all := Placed(answers, ops, s, at, found, disk, good);
      r := Segment.Ok(all);
    }

    method Placed(answers: seq<Option<Segment.Found>>, ops: seq<Op>, s: nat, at: seq<nat>,
                  found: seq<Option<Segment.Found>>,
                  ghost disk: Disk, ghost good: bool)
      returns (all: seq<Option<Segment.Found>>)
      requires |answers| == |ops| && at == Positions(ops, s) && (good ==> |found| == |at|)
      requires good ==> forall k :: 0 <= k < |at| ==> found[k] == Segment.Answer(PagesOf(disk, s), Group(ops, s), k)
      ensures |all| == |ops|
      ensures good ==> forall i :: 0 <= i < |ops| ==>
                                     all[i] ==
                                     if ops[i].address.segmentNum == s then Answer(disk, ops, i) else answers[i]
    {
      all := answers;
      var k := 0;
      while k < |at| && k < |found|
        invariant 0 <= k <= |at| && |all| == |ops|
        invariant good ==> forall j :: 0 <= j < k ==> all[at[j]] == Answer(disk, ops, at[j])
        invariant forall i :: 0 <= i < |ops| && ops[i].address.segmentNum != s ==> all[i] == answers[i]
      {
        PositionsAscend(ops, s);
        if good { SameAnswer(disk, ops, s, k); }
        all := all[at[k] := found[k]];
        k := k + 1;
      }
      forall i | 0 <= i < |ops| && ops[i].address.segmentNum == s && good ensures all[i] == Answer(disk, ops, i) {
        var j := PlaceInGroup(ops, i);
      }
    }

    /** Splits the operations by segment, and runs the groups in whatever order they come up. */
    method Batch(ops: seq<Op>, ghost disk: Disk)
      returns (answers: seq<Option<Segment.Found>>, error: Option<Segment.FileError>)
      requires Valid() && forall i :: 0 <= i < |ops| ==> OpFits(ops[i])
      modifies this, cache, cache.replacer
      ensures Valid()
      ensures FolderHolds(crc, old(folder), disk) ==>
                && error == None && FolderHolds(crc, folder, DiskAfter(disk, ops))
                && |answers| == |ops| && forall i :: 0 <= i < |ops| ==> answers[i] == Answer(disk, ops, i)
    {
      var at := Grouped(ops);
      answers, error := seq(|ops|, _ => None), None;
      ghost var good := FolderHolds(crc, folder, disk);
      var left := at.Keys;
      if good { FolderStarts(crc, folder, disk, ops, left); }
      while left != {}
        invariant Valid() && left <= at.Keys && |answers| == |ops| && error == None
        invariant good ==> FolderHolds(crc, folder, Partly(disk, ops, left))
        invariant good ==> forall i :: 0 <= i < |ops| && ops[i].address.segmentNum !in left ==>
                                         answers[i] == Answer(disk, ops, i)
      {
        var s :| s in left;
        PartlyPages(disk, ops, left, s);
        var done := RunGroup(s, ops, at[s], answers, disk, Partly(disk, ops, left));
        if done.Err? { return answers, Some(done.error); }
        answers := done.value;
        if good { FolderMoves(crc, folder, disk, ops, left, s); }
        left := left - {s};
      }
      if good { FolderDone(crc, folder, disk, ops); }
    }
  }

  /** The segments that occur in the list, with the places of their operations. */
  ghost predicate IsGrouping(ops: seq<Op>, at: map<nat, seq<nat>>) {
    && (forall s: nat :: Positions(ops, s) == (if s in at then at[s] else []))
    && (forall i :: 0 <= i < |ops| ==> ops[i].address.segmentNum in at)
  }

  lemma GroupingStep(ops: seq<Op>, at: map<nat, seq<nat>>, i: nat)
    requires i < |ops| && IsGrouping(ops[..i], at)
    ensures var s := ops[i].address.segmentNum;
            IsGrouping(ops[..i + 1], at[s := (if s in at then at[s] else []) + [i]])
  {
    var s := ops[i].address.segmentNum;
    var next := at[s := (if s in at then at[s] else []) + [i]];
    var longer := ops[..i + 1];
    forall t: nat ensures Positions(longer, t) == (if t in next then next[t] else []) { GroupStep(ops, t, i); }
    forall j | 0 <= j < i + 1 ensures longer[j].address.segmentNum in next {
      if j < i { assert ops[..i][j].address.segmentNum in at; }
    }
  }

  method Grouped(ops: seq<Op>) returns (at: map<nat, seq<nat>>)
    ensures IsGrouping(ops, at)
  {
    at := map[];
    for i := 0 to |ops|
      invariant IsGrouping(ops[..i], at)
    {
      GroupingStep(ops, at, i);
      var s := ops[i].address.segmentNum;
      at := at[s := (if s in at then at[s] else []) + [i]];
    }
    assert ops[..|ops|] == ops;
  }
}
