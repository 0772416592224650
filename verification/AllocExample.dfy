/** Concrete images on which the allocator and the extent writer fail. */
module AllocExample {
  import opened Arith
  import opened Groups
  import opened Allocator
  import opened AllocHistory
  import opened Regions
  import opened Extents
  import opened ExtentWriter

  /** Groups 0 and 1 hold a superblock, whether or not sparse_super is set. */
  lemma FirstHeaders(info: Info, bg: nat)
    requires bg <= 1
    ensures HeaderBlocks(info, bg) == 3 + info.inodeTableBlocks + info.bgDescBlocks + info.bgDescReserve
  {
    hide IsPower;
  }

  /** The group count and length when the last group is not too short for its header. */
  lemma AuxIs(info: Info, groups: nat, last: nat)
    requires info.lenBlocks >= info.firstDataBlock && groups > 0
    requires DivRoundUp(info.lenBlocks - info.firstDataBlock, info.blocksPerGroup) == groups
    requires info.lenBlocks % info.blocksPerGroup == last >= HeaderBlocks(info, groups - 1)
    ensures AuxInfo(info) == (groups, info.lenBlocks)
  {
    hide HeaderBlocks, DivRoundUp;
  }

  // ----- a last group with nothing but its header

  /** 4K blocks, and an image that ends right behind the header of group 1. */
  function FullHeader(): Info {
    Info(32768, 500, 1, 7, 0, 33279, true)
  }

  lemma FullHeaderGroups()
    ensures HeaderBlocks(FullHeader(), 0) == HeaderBlocks(FullHeader(), 1) == 511
    ensures FirstBlock(FullHeader(), 0) == 0 && FirstBlock(FullHeader(), 1) == 32768
    ensures AuxInfo(FullHeader()) == (2, 33279)
  {
    hide HeaderBlocks, AuxInfo, FirstBlock;
    FullHeaderSizes();
    FullHeaderStarts();
    FullHeaderAux();
  }

  lemma FullHeaderSizes()
    ensures HeaderBlocks(FullHeader(), 0) == 511 && HeaderBlocks(FullHeader(), 1) == 511
  {
    hide HeaderBlocks;
    FirstHeaders(FullHeader(), 0);
    FirstHeaders(FullHeader(), 1);
  }

  lemma FullHeaderStarts()
    ensures FirstBlock(FullHeader(), 0) == 0 && FirstBlock(FullHeader(), 1) == 32768
  {
    hide FirstBlock;
    FirstStarts(FullHeader());
  }

  lemma FirstStarts(info: Info)
    ensures FirstBlock(info, 0) == info.firstDataBlock
    ensures FirstBlock(info, 1) == info.firstDataBlock + info.blocksPerGroup
  {
  }

  lemma FullHeaderAux()
    ensures AuxInfo(FullHeader()) == (2, 33279)
  {
    hide HeaderBlocks, AuxInfo, DivRoundUp;
    FullHeaderSizes();
    FullHeaderCounts();
    AuxIs(FullHeader(), 2, 511);
  }

  lemma FullHeaderCounts()
    ensures DivRoundUp(33279, 32768) == 2 && 33279 % 32768 == 511
  {
    DivModUnique(32768, 2, 510);
    DivModUnique(32768, 1, 511);
  }

  /** Both groups are kept, group 1 starts with no free block, and a request for one block more than group 0 has
      never ends: group 0 serves all but one block, and from then on every round takes nothing. */
  method BuildStalled() returns (b: Blocks)
    ensures b.Valid() && |b.Views()| == 2 && AuxInfo(FullHeader()).0 == 2
    ensures InLayout(FullHeader(), b.Views())
    ensures !LoopEnds(b.Views(), 32258) && Contiguous(b.Views(), 32258).None?
    ensures forall n: nat :: AfterRounds(Running(b.Views(), 32258), n).Running?
  {
    hide HeaderBlocks, FirstBlock, AuxInfo, HasSuper, Ends, Contiguous, LoopEnds, InLayout, AfterRounds;
    FullHeaderGroups();
    FirstBlocks(FullHeader());
    b := new Blocks(FullHeader(), 2, 32768);
    FreshInLayout(b, FullHeader());
    StalledViews(b.Views());
    LoopEndsExactly(b.Views(), 32258);
    forall n: nat { StuckForever(b.Views(), 32258, n); }
  }

  lemma FirstBlocks(info: Info)
    ensures forall i: nat | i < 2 :: FirstBlock(info, i) <= info.firstDataBlock + info.blocksPerGroup
  {
  }

  lemma StalledViews(v: seq<View>)
    requires FreshViews(FullHeader(), v) && |v| == 2
    ensures !Ends(v, 32258) && Contiguous(v, 32258).None?
  {
    hide HeaderBlocks, FirstBlock;
    FullHeaderGroups();
    assert FreshView(FullHeader(), v[0], 0) && FreshView(FullHeader(), v[1], 1);
    assert v[0].free == 32257 && v[1].free == 0;
    assert UntouchedFree(v, 1) == UntouchedFree(v, 0) + v[0].free;
    assert StuckAt(v, 32258, 1);
  }

  // ----- a last group too short for its header

  /** 1K blocks, numbered from 1, and an image that ends one block before the end of the header of group 1. */
  function ShortHeader(): Info {
    Info(8192, 256, 1, 0, 1, 8452, true)
  }

  lemma ShortHeaderGroups()
    ensures HeaderBlocks(ShortHeader(), 0) == HeaderBlocks(ShortHeader(), 1) == 260
    ensures FirstBlock(ShortHeader(), 0) == 1 && FirstBlock(ShortHeader(), 1) == 8193
    ensures AuxInfo(ShortHeader()) == (2, 8452)
  {
    hide HeaderBlocks, AuxInfo, DivRoundUp, FirstBlock;
    FirstStarts(ShortHeader());
    FirstHeaders(ShortHeader(), 0);
    FirstHeaders(ShortHeader(), 1);
    ShortHeaderCounts();
    AuxIs(ShortHeader(), 2, 260);
  }

  lemma ShortHeaderSize()
    ensures GroupSize(ShortHeader(), 8452, 1) == 259
  {
  }

  lemma ShortHeaderCounts()
    ensures DivRoundUp(8451, 8192) == 2 && 8452 % 8192 == 260
  {
    DivModUnique(8192, 2, 258);
    DivModUnique(8192, 1, 260);
  }

  /** Group 1 is kept although its header does not fit, and a request that reaches it gets a block behind the end
      of the image. */
  method BuildOutside() returns (b: Blocks)
    ensures b.Valid() && |b.Views()| == 2 && AuxInfo(ShortHeader()).0 == 2
    ensures Answered(b.Views(), 7933)
    ensures var rs := DoAllocate(b.Views(), 7933).0;
      |rs| == 2 && rs[1].len == 1 && rs[1].block >= ShortHeader().lenBlocks
  {
    hide HeaderBlocks, FirstBlock, AuxInfo, HasSuper, Answered, DoAllocate, InLayout;
    ShortHeaderGroups();
    FirstBlocks(ShortHeader());
    b := new Blocks(ShortHeader(), 2, 8192);
    FreshInLayout(b, ShortHeader());
    OutsideViews(b.Views());
  }

  lemma OutsideViews(v: seq<View>)
    requires FreshViews(ShortHeader(), v) && |v| == 2
    ensures Answered(v, 7933)
    ensures var rs := DoAllocate(v, 7933).0; |rs| == 2 && rs[1].len == 1 && rs[1].block >= 8452
  {
    hide HeaderBlocks, FirstBlock;
    ShortHeaderGroups();
    ShortHeaderSize();
    assert FreshView(ShortHeader(), v[0], 0) && FreshView(ShortHeader(), v[1], 1);
    assert v == [View(1, 260, 7932, 0), View(8193, 260, 7932, 0)];
    TwoGroups(View(1, 260, 7932, 0), View(8193, 260, 7932, 0), 1);
  }

  /** A request for one group's blocks and `more` of the next: two regions. */
  lemma TwoGroups(g: View, h: View, more: nat)
    requires g.used == 0 && h.used == 0 && g.free > 0 && 0 < more <= h.free < g.free + more
    ensures Answered([g, h], g.free + more)
    ensures DoAllocate([g, h], g.free + more)
      == ([Region(g.firstBlock + g.firstFree, g.free, 0), Region(h.firstBlock + h.firstFree, more, 1)], true)
  {
    var v, len := [g, h], g.free + more;
    PlentyEnds(v, len);
    var r, q := RegionIn(v, 0, g.free), Region(h.firstBlock + h.firstFree, more, 1);
    assert Partial(v, len) == Some(r) && Contiguous(v, len).None?;
    var w := Take(v, r);
    MultipleStep(v, len);
    assert w[1] == h && w[0].free == 0 && w[0].used > 0;
    LastRound(w, more);
    assert [r] + [q] == [r, q];
  }

  lemma LastRound(w: seq<View>, more: nat)
    requires |w| == 2 && w[0].used > 0 && w[0].free < more <= w[1].free && w[1].used == 0 && Ends(w, more)
    ensures Multiple(w, more) == ([RegionIn(w, 1, more)], true)
  {
    assert FirstUntouched(w, 0) == FirstUntouched(w, 1) == 1;
    FirstFitIs(w, more, 0, 1);
    assert Partial(w, more) == Some(RegionIn(w, 1, more));
    MultipleStep(w, more);
    MultipleNone(Take(w, RegionIn(w, 1, more)));
    assert [RegionIn(w, 1, more)] + [] == [RegionIn(w, 1, more)];
  }

  // ----- a file that does not read back

  /** Two groups, of which the first has one free block. */
  function OneBlockFirst(): seq<View> {
    [View(0, 32767, 1, 0), View(32768, 511, 50, 0)]
  }

  /** A file of 50 blocks is allocated in two regions, and its inode does not read back. */
  lemma FileIsLost(disk: map<nat, Node>)
    ensures Answered(OneBlockFirst(), 51)
    ensures var rs := DoAllocate(OneBlockFirst(), 51).0;
      && rs == [Region(32767, 1, 0), Region(33279, 50, 1)]
      && !ReadsBack(WriteTree(NewChain(rs), 4096), disk, 50)
  {
    hide ReadsBack, WriteTree, DoAllocate, Answered;
    TwoGroups(View(0, 32767, 1, 0), View(32768, 511, 50, 0), 50);
    var rs := [Region(32767, 1, 0), Region(33279, 50, 1)];
    assert Sum(rs) == 51 by { assert rs[1..] == [Region(33279, 50, 1)] && rs[1..][1..] == []; }
    ExtentRoundTrip(rs, 4096, disk);
  }

  // ----- more regions than the leaf holds

  /** 1K blocks in groups of 16, of which 14 are header, and an image of 86 groups, the last one dropped. */
  function TightGroups(): Info {
    Info(16, 4, 3, 4, 1, 1377, false)
  }

  lemma TightGroupsAre()
    ensures AuxInfo(TightGroups()) == (85, 1376)
    ensures forall i: nat | i < 85 :: HeaderBlocks(TightGroups(), i) == 14
    ensures forall i: nat | i < 85 :: FirstBlock(TightGroups(), i) == 1 + 16 * i
  {
    assert DivRoundUp(1376, 16) == 86 by { DivModUnique(16, 86, 15); }
    assert Remainder(1377, 16) == 1 by { DivModUnique(16, 86, 1); }
    assert HeaderBlocks(TightGroups(), 85) == 14;
  }

  /** A file of 169 blocks on that image: it gets 85 regions of two blocks, and its extent records leave the leaf. */
  method BuildOverrun() returns (b: Blocks)
    ensures b.Valid() && |b.Views()| == AuxInfo(TightGroups()).0
    ensures Answered(b.Views(), 170)
    ensures var rs := DoAllocate(b.Views(), 170).0;
      |rs| == 85 && Sized(rs) && WriteTree(NewChain(rs), 1024) == Overrun
  {
    hide HeaderBlocks, AuxInfo, HasSuper, Answered, DoAllocate, InLayout, WriteTree;
    TightGroupsAre();
    var now := TightGroups().(lenBlocks := 1376);
    SameHeaders(TightGroups(), 1376);
    b := new Blocks(now, 85, 8192);
    FreshInLayout(b, now);
    TightViews(b.Views());
    PairsOverrun(b.Views());
  }

  lemma TightViews(v: seq<View>)
    requires FreshViews(TightGroups().(lenBlocks := 1376), v) && |v| == 85
    ensures Pairs(v)
  {
    hide HeaderBlocks, AuxInfo;
    TightGroupsAre();
    SameHeaders(TightGroups(), 1376);
    forall i: nat | i < 85
      ensures v[i].used == 0 && v[i].free == 2 && v[i].firstBlock > 0
    {
      assert FreshView(TightGroups().(lenBlocks := 1376), v[i], i);
    }
  }

  /** Untouched groups with two free blocks each. */
  ghost predicate Pairs(v: seq<View>) {
    forall i: nat | i < |v| :: v[i].used == 0 && v[i].free == 2 && v[i].firstBlock > 0
  }

  /** With the first i groups emptied, a request for all that is left gets the other groups one by one. */
  lemma {:induction false} PairByPair(v: seq<View>, i: nat)
    requires Pairs(v) && i <= |v|
    ensures var w, len := Drained(v, i), 2 * (|v| - i);
      && Ends(w, len) && |Multiple(w, len).0| == |v| - i
      && forall k: nat | k < |v| - i :: Multiple(w, len).0[k].len == 2 && Multiple(w, len).0[k].block > 0
    decreases |v| - i
  {
    hide Drained, Multiple, Ends, Partial, Contiguous;
    var w, len: nat := Drained(v, i), 2 * (|v| - i);
    DrainedPairs(v, i);
    PlentyEnds(w, len);
    if i < |v| {
      NextPair(v, i);
      MultipleStep(w, len);
      PairByPair(v, i + 1);
    } else {
      MultipleNone(w);
    }
  }

  lemma {:induction false} DrainedPairs(v: seq<View>, i: nat)
    requires Pairs(v) && i <= |v|
    ensures UntouchedHaveBlocks(Drained(v, i))
    ensures forall j: nat | j < i :: Drained(v, i)[j].used == 2 && Drained(v, i)[j].free == 0
  {
    if i > 0 { DrainedPairs(v, i - 1); }
  }

  lemma NextPair(v: seq<View>, i: nat)
    requires Pairs(v) && i < |v|
    ensures var w := Drained(v, i);
      && Partial(w, 2 * (|v| - i)) == Some(RegionIn(w, i, 2)) && w[i] == v[i]
      && Fits(w, RegionIn(w, i, 2)) && Take(w, RegionIn(w, i, 2)) == Drained(v, i + 1)
  {
    var w := Drained(v, i);
    DrainedPairs(v, i);
    FirstUntouchedIs(w, 0, i);
    FirstFitIs(w, 2, 0, i);
  }

  lemma {:induction false} FirstUntouchedIs(v: seq<View>, i: nat, k: nat)
    requires i <= k < |v| && v[k].used == 0 && forall j: nat | i <= j < k :: v[j].used != 0
    ensures FirstUntouched(v, i) == k
    decreases k - i
  {
    if i < k { FirstUntouchedIs(v, i + 1, k); }
  }

  lemma PairsOverrun(v: seq<View>)
    requires Pairs(v) && |v| == 85
    ensures Answered(v, 170)
    ensures var rs := DoAllocate(v, 170).0;
      |rs| == 85 && Sized(rs) && WriteTree(NewChain(rs), 1024) == Overrun
  {
    hide WriteTree, Multiple, Ends;
    PairByPair(v, 0);
    DrainedNone(v);
    assert Contiguous(v, 170).None?;
    var rs := DoAllocate(v, 170).0;
    assert LeafCapacity(1024) == 84 by { DivModUnique(RECORD_BYTES, 84, 4); }
    OverrunExactly(rs, 1024);
  }
}
