/** Allocating the blocks of a file and writing its extent tree, step by step. */
module ExtentWriter {
  import opened Arith
  import opened Groups
  import opened Allocator
  import opened AllocHistory
  import opened Regions
  import opened Extents

  // ----- what the allocator hands the writer

  lemma {:induction false} MultipleNonEmpty(v: seq<View>, len: nat)
    requires Ends(v, len)
    ensures NonEmpty(Multiple(v, len).0)
    ensures Multiple(v, len).1 && len > 0 ==> Multiple(v, len).0 != []
    decreases len
  {
    hide Partial, Take, Ends;
    if len > 0 {
      MultipleStep(v, len);
      match Partial(v, len)
      case None =>
      case Some(r) => MultipleNonEmpty(Take(v, r), len - r.len);
    }
  }

  lemma RequestNonEmpty(v: seq<View>, len: nat)
    requires Answered(v, len) && len > 0
    ensures NonEmpty(DoAllocate(v, len).0)
    ensures DoAllocate(v, len).1 ==> DoAllocate(v, len).0 != []
  {
    ChosenFits(v, len);
    if Contiguous(v, len).None? { MultipleNonEmpty(v, len); }
  }

  /** A group without free blocks takes no further part. */
  lemma {:induction false} FullGroupStays(v: seq<View>, rs: seq<Region>, g: nat, k: nat)
    requires AllFit(v, rs) && NonEmpty(rs) && g < |v| && v[g].free == 0 && k < |rs|
    ensures rs[k].bg != g
    decreases |rs|
  {
    if k > 0 { FullGroupStays(Take(v, rs[0]), rs[1..], g, k - 1); }
  }

  /** The regions of one request lie in different groups. */
  lemma {:induction false} MultipleDistinct(v: seq<View>, len: nat, i: nat, j: nat)
    requires Ends(v, len) && i < j < |Multiple(v, len).0|
    ensures Multiple(v, len).0[i].bg != Multiple(v, len).0[j].bg
    decreases len
  {
    hide Partial, Take, Ends, AllFit;
    MultipleStep(v, len);
    var r := Partial(v, len).value;
    var v' := Take(v, r);
    var rest := Multiple(v', len - r.len).0;
    assert Multiple(v, len).0 == [r] + rest;
    if i > 0 {
      MultipleDistinct(v', len - r.len, i - 1, j - 1);
    } else {
      MultipleNone(v');
      RoundFillsGroup(v, len);
      MultipleNonEmpty(v', len - r.len);
      FullGroupStays(v', rest, r.bg, j - 1);
    }
  }

  /** A round that leaves blocks to allocate fills its group. */
  lemma RoundFillsGroup(v: seq<View>, len: nat)
    requires Partial(v, len).Some? && Partial(v, len).value.len < len
    ensures var r := Partial(v, len).value; Fits(v, r) && Take(v, r)[r.bg].free == 0
  {
  }

  lemma RegionsDistinct(v: seq<View>, len: nat, i: nat, j: nat)
    requires Answered(v, len) && i < j < |DoAllocate(v, len).0|
    ensures DoAllocate(v, len).0[i].bg != DoAllocate(v, len).0[j].bg
  {
    ChosenFits(v, len);
    match Contiguous(v, len)
    case Some(_) =>
    case None => MultipleDistinct(v, len, i, j);
  }

  /** Groups without a region keep their bookkeeping. */
  lemma {:induction false} OthersStay(v: seq<View>, rs: seq<Region>, g: nat)
    requires AllFit(v, rs) && g < |v| && forall k :: 0 <= k < |rs| ==> rs[k].bg != g
    ensures TakeAll(v, rs)[g] == v[g]
    decreases |rs|
  {
    if rs != [] { OthersStay(Take(v, rs[0]), rs[1..], g); }
  }

  /** The last block taken from the group of a request's first region is the last block of that region. */
  lemma HeadIsLastTaken(v: seq<View>, len: nat)
    requires Answered(v, len) && DoAllocate(v, len).0 != []
    ensures var rs := DoAllocate(v, len).0; var v' := TakeAll(v, rs);
      && rs[0].bg < |v|
      && v'[rs[0].bg].firstBlock + v'[rs[0].bg].firstFree == rs[0].block + rs[0].len
      && v'[rs[0].bg].firstFree >= rs[0].len
  {
    hide DoAllocate, Answered;
    var rs := DoAllocate(v, len).0;
    forall k | 1 <= k < |rs|
      ensures rs[k].bg != rs[0].bg
    {
      RegionsDistinct(v, len, 0, k);
    }
    OthersStay(Take(v, rs[0]), rs[1..], rs[0].bg);
  }

  /** Giving the extra block back frees exactly the last block of the first region. */
  lemma ReductionFrees(v: seq<View>, len: nat, n: nat)
    requires Answered(v, len) && Separate(v) && DoAllocate(v, len).0 != [] && DoAllocate(v, len).0[0].len > 0
    ensures var rs := DoAllocate(v, len).0; var v' := TakeAll(v, rs);
      && rs[0].bg < |v'| && v'[rs[0].bg].firstFree >= 1
      && (IsFree(Give(v', rs[0].bg, 1), n) <==> IsFree(v', n) || n == rs[0].block + rs[0].len - 1)
  {
    HeadIsLastTaken(v, len);
    var rs := DoAllocate(v, len).0;
    var v' := TakeAll(v, rs);
    hide DoAllocate, Answered, TakeAll, AllFit, Separate;
    var g := rs[0].bg;
    var w := Give(v', g, 1);
    if IsFree(w, n) {
      var h: nat :| h < |w| && FreeIn(w[h], n);
      if h != g { assert FreeIn(v'[h], n); } else { assert FreeIn(v'[g], n) || n == rs[0].block + rs[0].len - 1; }
    }
    if IsFree(v', n) {
      var h: nat :| h < |v'| && FreeIn(v'[h], n);
      assert FreeIn(w[h], n);
    }
    if n == rs[0].block + rs[0].len - 1 { assert FreeIn(w[g], n); }
  }

  // ----- the steps

  /** Write a record for each region from the current one on. */
  method FillRecords(a: Allocation, capacity: nat) returns (area: Option<seq<Extent>>)
    requires a.iter <= |a.regions| && a.partial == 0
    modifies a`iter, a`partial
    ensures var es := Records(old(a.regions[a.iter..]), 0);
      area == if |es| > capacity then None else Some(Filled(es, capacity))
  {
    hide Records, U16;
    var slots := seq(capacity, i => Extent(0, 0, 0));
    var k, fileBlock: nat := 0, 0;
    ghost var rs, first := a.regions, a.iter;
    ghost var es := Records(rs[first..], 0);
    while a.iter < |a.regions|
      modifies a`iter, a`partial
      invariant first <= a.iter <= |rs| && a.partial == 0 && k == a.iter - first
      invariant |slots| == capacity && k <= capacity
      invariant slots[..k] + Records(rs[first + k..], fileBlock) == es
      invariant forall i :: k <= i < capacity ==> slots[i] == Extent(0, 0, 0)
    {
      var r := a.regions[a.iter];
      var len: nat := r.len - a.partial;
      RecordsNext(rs, first + k, fileBlock);
      if k == capacity { return None; }
      SlotFilled(slots, k, Extent(fileBlock, U16(len), r.block), Records(rs[first + k + 1..], fileBlock + len));
      slots := slots[k := Extent(fileBlock, U16(len), r.block)];
      fileBlock := fileBlock + len;
      a.iter, a.partial := a.iter + 1, 0;
      k := k + 1;
    }
    RecordsEnd(rs, first + k, fileBlock);
    area := Some(slots);
    FilledIs(slots, k, es, capacity);
  }

  /** Fill in the root in the inode and, when a block was set aside for it, the leaf. */
  method WriteNodes(a: Allocation, ghost c: Chain, blockSize: nat, n: nat) returns (w: Outcome)
    requires NewAllocation(c) && blockSize >= RECORD_BYTES
    requires n == |c.regions| && a.Value() == Plan(c)
    modifies a`iter, a`partial
    ensures w == WriteTree(c, blockSize)
  {
    hide Plan, Records, Filled;
    PlanPartial(c);
    var extentBlock: nat := 0;
    PlanSetsAside(c);
    if n > 3 { extentBlock := a.oob[0].block; }
    if extentBlock != 0 && blockSize - 1 < n { return Failed; }
    var area := FillRecords(a, if extentBlock == 0 then 4 else LeafCapacity(blockSize));
    if area.None? { return Overrun; }
    a.iter, a.partial := 0, 0;
    var alloc := Chain(a.regions, a.iter, a.partial, a.last, a.oob);
    if extentBlock == 0 {
      w := Written(Leaf(MAGIC, n, 3, area.value), map[], alloc);
    } else {
      var leaf := Leaf(MAGIC, n, LeafCapacity(blockSize), area.value);
      w := Written(Index(MAGIC, 1, 3, 1, [extentBlock]), map[extentBlock := leaf], alloc);
    }
  }

  /** Allocate blockLen blocks and one for a leaf, and write the tree. */
  method DoInodeAllocateExtents(blocks: Blocks, blockLen: nat, blockSize: nat) returns (w: Outcome)
    requires blocks.Valid() && Answered(blocks.Views(), blockLen + 1) && blockSize >= RECORD_BYTES
    modifies blocks.groups, set g <- blocks.groups :: g.bitmap
    ensures blocks.Valid()
    ensures var v := old(blocks.Views()); var (rs, ok) := DoAllocate(v, blockLen + 1);
      if !ok then w == Failed && blocks.Views() == TakeAll(v, rs)
      else
        && rs != [] && NonEmpty(rs)
        && w == WriteTree(NewChain(rs), blockSize)
        && rs[0].bg < |v| && TakeAll(v, rs)[rs[0].bg].firstFree >= 1
        && blocks.Views() == if |rs| <= 3 then Give(TakeAll(v, rs), rs[0].bg, 1) else TakeAll(v, rs)
  {
    hide DoAllocate, TakeAll, AllFit, Answered, ReserveOob, Reduce, WriteTree, Give;
    ghost var v := blocks.Views();
    RequestNonEmpty(v, blockLen + 1);
    var rs, ok := blocks.Allocate(blockLen + 1);
    if !ok { return Failed; }
    HeadIsLastTaken(v, blockLen + 1);
    var a := new Allocation(rs);
    ghost var c := a.Value();
    if |rs| <= 3 {
      a.ReduceAllocation(blocks, 1);
    } else {
      var _ := a.ReserveOobBlocks(1);
    }
    w := WriteNodes(a, c, blockSize, |rs|);
  }

  lemma PlanPartial(c: Chain)
    requires c.Valid() && c.regions != [] && c.last == 0 && c.partial == 0
    ensures Plan(c).partial == 0 && Plan(c).iter <= |Plan(c).regions|
  {
  }

  lemma RecordsStep(r: Region, rest: seq<Region>, at: nat)
    ensures Records([r] + rest, at) == [Extent(at, U16(r.len), r.block)] + Records(rest, at + r.len)
  {
    assert ([r] + rest)[1..] == rest;
  }

  lemma RecordsNext(rs: seq<Region>, i: nat, at: nat)
    requires i < |rs|
    ensures Records(rs[i..], at) == [Extent(at, U16(rs[i].len), rs[i].block)] + Records(rs[i + 1..], at + rs[i].len)
  {
    hide Records, U16;
    assert rs[i..] == [rs[i]] + rs[i + 1..];
    RecordsStep(rs[i], rs[i + 1..], at);
  }

  lemma RecordsEnd(rs: seq<Region>, i: nat, at: nat)
    requires i == |rs|
    ensures Records(rs[i..], at) == []
  {
  }

  lemma FilledIs(slots: seq<Extent>, k: nat, es: seq<Extent>, capacity: nat)
    requires |slots| == capacity && k <= capacity && slots[..k] + [] == es
    requires forall i :: k <= i < capacity ==> slots[i] == Extent(0, 0, 0)
    ensures |es| <= capacity && slots == Filled(es, capacity)
  {
    assert |es| == k;
    forall i | 0 <= i < k
      ensures slots[i] == es[i]
    {
      assert slots[..k][i] == slots[i];
    }
  }

  lemma SlotFilled(slots: seq<Extent>, k: nat, e: Extent, rest: seq<Extent>)
    requires k < |slots|
    ensures slots[k := e][..k + 1] + rest == slots[..k] + ([e] + rest)
  {
    assert slots[k := e][..k + 1] == slots[..k] + [e];
  }

  // ----- files written with blocks from the allocator

  lemma {:induction false} RegionsSized(info: Info, v: seq<View>, rs: seq<Region>, i: nat)
    requires AllFit(v, rs) && InLayout(info, v) && info.blocksPerGroup < 0x1_0000 && i < |rs|
    ensures 0 < rs[i].block && rs[i].len < 0x1_0000
    decreases |rs|
  {
    hide FirstBlock, SuperBlocks;
    var r := rs[0];
    assert ViewInLayout(info, v[r.bg], r.bg);
    if i > 0 {
      assert forall bg: nat | bg < |v| :: ViewInLayout(info, v[bg], bg);
      RegionsSized(info, Take(v, r), rs[1..], i - 1);
    }
  }

  /** On any image in the layout a file of blockLen blocks that could be allocated reads back exactly when it is
      empty, or its first region has more than one block and its regions fit the inode or the leaf. */
  lemma FilesReadBack(info: Info, v: seq<View>, blockLen: nat, blockSize: nat, disk: map<nat, Node>)
    requires InLayout(info, v) && Answered(v, blockLen + 1) && info.blocksPerGroup < 0x1_0000 && blockSize >= 1024
    requires DoAllocate(v, blockLen + 1).1
    ensures var rs := DoAllocate(v, blockLen + 1).0;
      && rs != [] && NonEmpty(rs)
      && (ReadsBack(WriteTree(NewChain(rs), blockSize), disk, blockLen) <==>
          blockLen == 0 || (rs[0].len > 1 && (|rs| <= 3 || |rs| <= LeafCapacity(blockSize))))
  {
    hide DoAllocate, WriteTree, ReadsBack, InLayout, Answered;
    var rs := DoAllocate(v, blockLen + 1).0;
    RequestNonEmpty(v, blockLen + 1);
    AllocateIsExact(v, blockLen + 1);
    forall i | 0 <= i < |rs|
      ensures 0 < rs[i].block && rs[i].len < 0x1_0000
    {
      RegionsSized(info, v, rs, i);
    }
    ExtentRoundTrip(rs, blockSize, disk);
  }
}
