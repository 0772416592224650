/** Block allocation over all groups: first fit for the whole request, else whole untouched groups. */
module Allocator {
  import opened Arith
  import opened BlockGroup
  import opened Groups

  /** A run of blocks taken from one group. */
  datatype Region = Region(block: nat, len: nat, bg: nat)

  /** The bookkeeping of one group. */
  datatype View = View(firstBlock: nat, firstFree: nat, free: nat, used: nat)

  // ----- the allocation policy

  /** The first group, from i on, with len free blocks. */
  function FirstFit(v: seq<View>, len: nat, i: nat): (k: nat)
    requires i <= |v|
    ensures i <= k <= |v|
    ensures forall j :: i <= j < k ==> v[j].free < len
    ensures k < |v| ==> v[k].free >= len
    decreases |v| - i
  {
    if i == |v| || v[i].free >= len then i else FirstFit(v, len, i + 1)
  }

  /** The first group, from i on, without data blocks. */
  function FirstUntouched(v: seq<View>, i: nat): (k: nat)
    requires i <= |v|
    ensures i <= k <= |v|
    ensures k < |v| ==> v[k].used == 0
    decreases |v| - i
  {
    if i == |v| || v[i].used == 0 then i else FirstUntouched(v, i + 1)
  }

  function RegionIn(v: seq<View>, g: nat, len: nat): Region
    requires g < |v|
  {
    Region(v[g].firstBlock + v[g].firstFree, len, g)
  }

  function Contiguous(v: seq<View>, len: nat): Option<Region> {
    var k := FirstFit(v, len, 0);
    if k == |v| then None else Some(RegionIn(v, k, len))
  }

  function Partial(v: seq<View>, len: nat): Option<Region> {
    var k := FirstUntouched(v, 0);
    if k == |v| then None
    else if len <= v[k].free then Contiguous(v, len)
    else Some(RegionIn(v, k, v[k].free))
  }

  /** The region is at the front of its group's free interval. */
  predicate Fits(v: seq<View>, r: Region) {
    && r.bg < |v|
    && r.block == v[r.bg].firstBlock + v[r.bg].firstFree
    && r.len <= v[r.bg].free
  }

  /** The bookkeeping after taking a region. */
  function Take(v: seq<View>, r: Region): (v': seq<View>)
    requires Fits(v, r)
    ensures |v'| == |v|
  {
    var g := v[r.bg];
    v[r.bg := g.(firstFree := g.firstFree + r.len, free := g.free - r.len, used := g.used + r.len)]
  }

  /** The bookkeeping after group i got its last n blocks back. */
  function Give(v: seq<View>, i: nat, n: nat): (v': seq<View>)
    requires i < |v| && n <= v[i].firstFree
    ensures |v'| == |v|
  {
    v[i := v[i].(firstFree := v[i].firstFree - n, free := v[i].free + n)]
  }

  predicate AllFit(v: seq<View>, rs: seq<Region>)
    decreases |rs|
  {
    rs == [] || (Fits(v, rs[0]) && AllFit(Take(v, rs[0]), rs[1..]))
  }

  function TakeAll(v: seq<View>, rs: seq<Region>): (v': seq<View>)
    requires AllFit(v, rs)
    ensures |v'| == |v|
    decreases |rs|
  {
    if rs == [] then v else TakeAll(Take(v, rs[0]), rs[1..])
  }

  lemma ChosenFits(v: seq<View>, len: nat)
    ensures Contiguous(v, len).Some? ==> Fits(v, Contiguous(v, len).value) && Contiguous(v, len).value.len == len
    ensures Partial(v, len).Some? ==> Fits(v, Partial(v, len).value) && Partial(v, len).value.len <= len
  {
  }

  predicate UntouchedHaveBlocks(v: seq<View>) {
    forall k :: 0 <= k < |v| && v[k].used == 0 ==> v[k].free > 0
  }

  // ----- when the loop over untouched groups ends

  /** The free blocks of the untouched groups before group j. */
  function UntouchedFree(v: seq<View>, j: nat): nat
    requires j <= |v|
  {
    if j == 0 then 0 else UntouchedFree(v, j - 1) + if v[j - 1].used == 0 then v[j - 1].free else 0
  }

  /** Group j is untouched, has no free block, and is reached before the untouched groups in front of it have
      served len blocks. */
  predicate StuckAt(v: seq<View>, len: nat, j: nat)
    requires j < |v|
  {
    v[j].used == 0 && v[j].free == 0 && UntouchedFree(v, j) < len
  }

  predicate Ends(v: seq<View>, len: nat) {
    forall j: nat | j < |v| :: !StuckAt(v, len, j)
  }

  /** The loop that serves a request with several regions: still running with `left` blocks to go, or over. */
  datatype Loop = Running(v: seq<View>, left: nat) | Over

  function Round(s: Loop): Loop {
    if s.Over? || s.left == 0 then Over
    else
      ChosenFits(s.v, s.left);
      match Partial(s.v, s.left)
      case None => Over
      case Some(r) => Running(Take(s.v, r), s.left - r.len)
  }

  function AfterRounds(s: Loop, n: nat): Loop
    decreases n
  {
    if n == 0 then s else AfterRounds(Round(s), n - 1)
  }

  ghost predicate LoopEnds(v: seq<View>, len: nat) {
    exists n: nat :: AfterRounds(Running(v, len), n).Over?
  }

  lemma {:induction false} UntouchedFreeGrows(v: seq<View>, i: nat, j: nat)
    requires i <= j <= |v|
    ensures UntouchedFree(v, i) <= UntouchedFree(v, j)
    ensures i < j && v[i].used == 0 ==> UntouchedFree(v, i) + v[i].free <= UntouchedFree(v, j)
  {
    if i < j { UntouchedFreeGrows(v, i, j - 1); }
  }

  lemma {:induction false} NoneBeforeFirst(v: seq<View>, i: nat)
    requires i <= FirstUntouched(v, 0)
    ensures UntouchedFree(v, i) == 0
    ensures forall j: nat | j < i :: v[j].used != 0
  {
    if i > 0 {
      NoneBeforeFirst(v, i - 1);
      BeforeFirst(v, 0, i - 1);
    }
  }

  lemma {:induction false} BeforeFirst(v: seq<View>, i: nat, j: nat)
    requires i <= |v| && i <= j < FirstUntouched(v, i)
    ensures v[j].used != 0
    decreases |v| - i
  {
    if i < j { BeforeFirst(v, i + 1, j); }
  }

  /** Marking group k as used takes its blocks out of the sums behind it. */
  lemma {:induction false} UsedUp(v: seq<View>, k: nat, w: View, j: nat)
    requires k < |v| && j <= |v| && v[k].used == 0 && w.used > 0
    ensures UntouchedFree(v[k := w], j) + (if k < j then v[k].free else 0) == UntouchedFree(v, j)
  {
    if j > 0 { UsedUp(v, k, w, j - 1); }
  }

  /** A round takes nothing only when a request is stuck, and otherwise leaves it as stuck as it was. */
  lemma RoundKeepsEnds(v: seq<View>, len: nat)
    requires len > 0
    ensures match Partial(v, len)
      case None => Ends(v, len)
      case Some(r) => Fits(v, r) && r.len <= len && (r.len == 0 ==> !Ends(v, len) && Take(v, r) == v)
                      && (Ends(v, len) <==> Ends(Take(v, r), len - r.len))
  {
    hide UntouchedFree;
    ChosenFits(v, len);
    var k := FirstUntouched(v, 0);
    NoneBeforeFirst(v, k);
    if k == |v| {
    } else if len <= v[k].free {
      forall j: nat | j < |v|
        ensures !StuckAt(v, len, j)
      {
        if k < j { UntouchedFreeGrows(v, k, j); }
      }
    } else if v[k].free == 0 {
      assert StuckAt(v, len, k);
      assert Take(v, RegionIn(v, k, 0)) == v;
    } else {
      var r := RegionIn(v, k, v[k].free);
      WholeGroupKeepsEnds(v, len, k);
    }
  }

  lemma WholeGroupKeepsEnds(v: seq<View>, len: nat, k: nat)
    requires k < |v| && k == FirstUntouched(v, 0) && 0 < v[k].free < len
    ensures var r := RegionIn(v, k, v[k].free); Ends(v, len) <==> Ends(Take(v, r), len - r.len)
  {
    hide UntouchedFree;
    NoneBeforeFirst(v, k);
    var r := RegionIn(v, k, v[k].free);
    forall j: nat | j < |v|
      ensures StuckAt(v, len, j) <==> StuckAt(Take(v, r), len - r.len, j)
    {
      UsedUp(v, k, Take(v, r)[k], j);
      if k < j { UntouchedFreeGrows(v, k, j); }
    }
    SameStuck(v, len, Take(v, r), len - r.len);
  }

  lemma SameStuck(v: seq<View>, len: nat, v': seq<View>, len': nat)
    requires |v'| == |v| && forall j: nat | j < |v| :: StuckAt(v, len, j) <==> StuckAt(v', len', j)
    ensures Ends(v, len) <==> Ends(v', len')
  {
    hide StuckAt;
    if j: nat :| j < |v| && StuckAt(v, len, j) { assert StuckAt(v', len', j); }
    if j: nat :| j < |v'| && StuckAt(v', len', j) { assert StuckAt(v, len, j); }
  }

  lemma {:induction false} EndsInRounds(v: seq<View>, len: nat) returns (n: nat)
    requires Ends(v, len)
    ensures AfterRounds(Running(v, len), n).Over?
    decreases len
  {
    hide Ends, Partial, Take;
    if len == 0 || Partial(v, len).None? {
      n := 1;
      assert AfterRounds(Running(v, len), 1) == AfterRounds(Over, 0);
    } else {
      RoundKeepsEnds(v, len);
      var r := Partial(v, len).value;
      var m := EndsInRounds(Take(v, r), len - r.len);
      n := m + 1;
    }
  }

  lemma {:induction false} StuckForever(v: seq<View>, len: nat, n: nat)
    requires !Ends(v, len)
    ensures AfterRounds(Running(v, len), n).Running?
    decreases n
  {
    if n > 0 {
      hide UntouchedFree, Partial, Take;
      var j: nat :| j < |v| && StuckAt(v, len, j);
      RoundKeepsEnds(v, len);
      var r := Partial(v, len).value;
      StuckForever(Take(v, r), len - r.len, n - 1);
    }
  }

  /** The loop over untouched groups ends exactly when no untouched group without free blocks comes before the
      untouched groups in front of it have served the request. */
  lemma LoopEndsExactly(v: seq<View>, len: nat)
    ensures LoopEnds(v, len) <==> Ends(v, len)
  {
    hide Ends, AfterRounds;
    if Ends(v, len) {
      var n := EndsInRounds(v, len);
    } else {
      forall n: nat { StuckForever(v, len, n); }
    }
  }

  /** Untouched groups that all have a free block never hold a request up. */
  lemma PlentyEnds(v: seq<View>, len: nat)
    requires UntouchedHaveBlocks(v)
    ensures Ends(v, len)
  {
  }

  /** A request for len blocks is answered: one group has room, or the loop over untouched groups ends. */
  predicate Answered(v: seq<View>, len: nat) {
    Contiguous(v, len).Some? || Ends(v, len)
  }

  // ----- the regions a request gets

  /** The regions taken for len blocks, one after the other, and whether all of len was found. */
  function Multiple(v: seq<View>, len: nat): (r: (seq<Region>, bool))
    requires Ends(v, len)
    ensures AllFit(v, r.0)
    decreases len
  {
    if len == 0 then ([], true)
    else
      RoundKeepsEnds(v, len);
      match Partial(v, len)
      case None => ([], false)
      case Some(r) =>
        var (rest, ok) := Multiple(Take(v, r), len - r.len);
        ([r] + rest, ok)
  }

  /** One round: the region taken is not empty, so fewer blocks are left. */
  lemma MultipleStep(v: seq<View>, len: nat)
    requires Ends(v, len) && len > 0
    ensures match Partial(v, len)
      case None => Multiple(v, len) == ([], false)
      case Some(r) =>
        && Fits(v, r) && 0 < r.len <= len && Ends(Take(v, r), len - r.len)
        && var (rest, ok) := Multiple(Take(v, r), len - r.len);
        Multiple(v, len) == ([r] + rest, ok)
  {
    hide Ends, Partial, Take, Fits;
    RoundKeepsEnds(v, len);
  }

  /** When the first untouched group has no free block, a round takes nothing and changes nothing. */
  lemma EmptyGroupStalls(v: seq<View>, len: nat)
    requires var k := FirstUntouched(v, 0); k < |v| && v[k].free == 0
    requires len > 0
    ensures Partial(v, len).Some? && Fits(v, Partial(v, len).value)
    ensures Partial(v, len).value.len == 0 && Take(v, Partial(v, len).value) == v
  {
  }

  /** The regions taken for a request of len blocks. */
  function DoAllocate(v: seq<View>, len: nat): (r: (seq<Region>, bool))
    requires Answered(v, len)
    ensures AllFit(v, r.0)
  {
    ChosenFits(v, len);
    match Contiguous(v, len)
    case Some(r) => assert [r][1..] == []; ([r], true)
    case None => Multiple(v, len)
  }

  // ----- what the policy promises

  function Sum(rs: seq<Region>): nat {
    if rs == [] then 0 else rs[0].len + Sum(rs[1..])
  }

  function TotalFree(v: seq<View>): nat {
    if v == [] then 0 else v[0].free + TotalFree(v[1..])
  }

  function UntouchedCount(v: seq<View>): nat {
    if v == [] then 0 else (if v[0].used == 0 then 1 else 0) + UntouchedCount(v[1..])
  }

  /** Block n is free: it lies in the free interval of a group. */
  ghost predicate IsFree(v: seq<View>, n: nat) {
    exists g: nat :: g < |v| && FreeIn(v[g], n)
  }

  predicate FreeIn(g: View, n: nat) {
    g.firstBlock + g.firstFree <= n < g.firstBlock + g.firstFree + g.free
  }

  predicate In(r: Region, n: nat) {
    r.block <= n < r.block + r.len
  }

  /** The free intervals of different groups do not meet. */
  ghost predicate Separate(v: seq<View>) {
    forall g: nat, h: nat | g < h < |v| ::
      v[g].firstBlock + v[g].firstFree + v[g].free <= v[h].firstBlock + v[h].firstFree
                                     && v[g].firstBlock + v[g].firstFree + v[g].free <= v[h].firstBlock
  }

  lemma {:induction false} UpdateTotals(v: seq<View>, g: nat, w: View)
    requires g < |v|
    ensures TotalFree(v[g := w]) + v[g].free == TotalFree(v) + w.free
    ensures UntouchedCount(v[g := w]) + (if v[g].used == 0 then 1 else 0)
        == UntouchedCount(v) + (if w.used == 0 then 1 else 0)
  {
    if g == 0 {
      assert v[g := w][1..] == v[1..];
    } else {
      assert v[g := w][1..] == v[1..][g - 1 := w];
      UpdateTotals(v[1..], g - 1, w);
    }
  }

  /** Taking regions lowers the free total by exactly their length. */
  lemma {:induction false} TakeAllConserves(v: seq<View>, rs: seq<Region>)
    requires AllFit(v, rs)
    ensures TotalFree(TakeAll(v, rs)) + Sum(rs) == TotalFree(v)
    decreases |rs|
  {
    if rs != [] {
      var r := rs[0];
      UpdateTotals(v, r.bg, Take(v, r)[r.bg]);
      TakeAllConserves(Take(v, r), rs[1..]);
    }
  }

  /** Taking a region keeps the groups apart and frees nothing. */
  lemma TakeKeepsSeparate(v: seq<View>, r: Region)
    requires Separate(v) && Fits(v, r)
    ensures Separate(Take(v, r))
    ensures forall n: nat :: IsFree(Take(v, r), n) <==> IsFree(v, n) && !In(r, n)
  {
    var v' := Take(v, r);
    forall g: nat, h: nat | g < h < |v'|
      ensures v'[g].firstBlock + v'[g].firstFree + v'[g].free <= v'[h].firstBlock + v'[h].firstFree
           && v'[g].firstBlock + v'[g].firstFree + v'[g].free <= v'[h].firstBlock
    {
      assert v[g].firstBlock + v[g].firstFree + v[g].free <= v[h].firstBlock;
    }
    forall n: nat
      ensures IsFree(v', n) <==> IsFree(v, n) && !In(r, n)
    {
      TakeFree(v, r, n);
    }
  }

  lemma TakeFree(v: seq<View>, r: Region, n: nat)
    requires Separate(v) && Fits(v, r)
    ensures IsFree(Take(v, r), n) <==> IsFree(v, n) && !In(r, n)
  {
    var v' := Take(v, r);
    if IsFree(v', n) {
      var g: nat :| g < |v'| && FreeIn(v'[g], n);
      assert FreeIn(v[g], n);
    }
    if IsFree(v, n) && !In(r, n) {
      var g: nat :| g < |v| && FreeIn(v[g], n);
      assert FreeIn(v'[g], n);
    }
  }

  /** The blocks of the regions are taken once each: they were free, are not free afterwards,
      and no two regions meet. */
  lemma {:induction false} RegionsAreDisjoint(v: seq<View>, rs: seq<Region>, n: nat)
    requires Separate(v) && AllFit(v, rs)
    ensures Separate(TakeAll(v, rs))
    ensures forall i: nat | i < |rs| && In(rs[i], n) :: IsFree(v, n) && !IsFree(TakeAll(v, rs), n)
    ensures forall i: nat, j: nat | i < j < |rs| :: !(In(rs[i], n) && In(rs[j], n))
    ensures IsFree(v, n) && (forall i: nat | i < |rs| :: !In(rs[i], n)) ==> IsFree(TakeAll(v, rs), n)
    ensures IsFree(TakeAll(v, rs), n) ==> IsFree(v, n)
    decreases |rs|
  {
    if rs != [] {
      var r, rest := rs[0], rs[1..];
      TakeKeepsSeparate(v, r);
      RegionsAreDisjoint(Take(v, r), rest, n);
      if In(r, n) { assert FreeIn(v[r.bg], n); }
      forall i: nat | i < |rs| && In(rs[i], n)
        ensures IsFree(v, n) && !IsFree(TakeAll(v, rs), n)
      {
        if i > 0 { assert rs[i] == rest[i - 1]; }
      }
      forall i: nat, j: nat | i < j < |rs|
        ensures !(In(rs[i], n) && In(rs[j], n))
      {
        assert rs[j] == rest[j - 1];
        if i > 0 { assert rs[i] == rest[i - 1]; }
      }
    }
  }

  /** A round that does not finish uses up one untouched group. */
  lemma RoundCounts(v: seq<View>, len: nat)
    requires Ends(v, len) && len > 0 && Partial(v, len).Some?
    ensures var r := Partial(v, len).value;
      && Fits(v, r)
      && UntouchedCount(Take(v, r)) + (if r.len < len then 1 else 0) <= UntouchedCount(v)
  {
    hide UntouchedCount, Ends;
    RoundKeepsEnds(v, len);
    ChosenFits(v, len);
    var r := Partial(v, len).value;
    UpdateTotals(v, r.bg, Take(v, r)[r.bg]);
  }

  /** A successful request gets exactly len blocks, in at most one region more than there are untouched groups. */
  lemma {:induction false} MultipleIsExact(v: seq<View>, len: nat)
    requires Ends(v, len)
    ensures Multiple(v, len).1 ==> Sum(Multiple(v, len).0) == len
    ensures !Multiple(v, len).1 ==> Sum(Multiple(v, len).0) < len
    ensures |Multiple(v, len).0| <= UntouchedCount(v) + 1
    decreases len
  {
    hide Partial, Take, Ends;
    if len > 0 {
      MultipleStep(v, len);
      match Partial(v, len)
      case None =>
      case Some(r) =>
        var v' := Take(v, r);
        RoundCounts(v, len);
        MultipleNone(v');
        MultipleIsExact(v', len - r.len);
        assert Multiple(v, len).0[1..] == Multiple(v', len - r.len).0;
    }
  }

  lemma AllocateIsExact(v: seq<View>, len: nat)
    requires Answered(v, len)
    ensures var (rs, ok) := DoAllocate(v, len);
      && (ok ==> Sum(rs) == len && TotalFree(TakeAll(v, rs)) + len == TotalFree(v))
      && |rs| <= UntouchedCount(v) + 1
  {
    var (rs, ok) := DoAllocate(v, len);
    TakeAllConserves(v, rs);
    match Contiguous(v, len)
    case Some(r) =>
      assert [r][1..] == [];
    case None =>
      MultipleIsExact(v, len);
  }

  // ----- the allocator

  /** The bookkeeping of group i as it starts out. */
  ghost predicate FreshView(info: Info, g: View, i: nat) {
    && g.firstBlock == FirstBlock(info, i) && g.used == 0
    && g.firstFree >= ReservedHeader(info, i) && (g.free > 0 ==> g.firstFree == ReservedHeader(info, i))
    && g.firstFree + g.free <= info.blocksPerGroup
    && g.free == var size := GroupSize(info, info.lenBlocks, i);
                 if size >= ReservedHeader(info, i) then size - ReservedHeader(info, i)
                 else info.blocksPerGroup - ReservedHeader(info, i)
  }

  /** Group i as it starts out. */
  ghost predicate Fresh(info: Info, g: Group, i: nat)
    reads g, g.bitmap
  {
    && g.Packed(info.blocksPerGroup)
    && FreshView(info, View(g.firstBlock, g.firstFreeBlock, g.freeBlocks, g.dataBlocksUsed), i)
  }

  class Blocks {
    const groups: seq<Group>
    const perGroup: nat

    ghost predicate Valid()
      reads this, groups, set g <- groups :: g.bitmap
    {
      && (forall i: nat, j: nat | i < j < |groups| :: groups[i] != groups[j] && groups[i].bitmap != groups[j].bitmap)
      && (forall i: nat | i < |groups| :: groups[i].Packed(perGroup))
    }

    ghost function ViewOf(g: Group): View
      reads g
    {
      View(g.firstBlock, g.firstFreeBlock, g.freeBlocks, g.dataBlocksUsed)
    }

    ghost function Views(): (v: seq<View>)
      reads this, groups
      ensures |v| == |groups|
    {
      seq(|groups|, i requires 0 <= i < |groups| reads this, groups => ViewOf(groups[i]))
    }

    /** All groups of a new image. */
    constructor (info: Info, n: nat, bits: nat)
      requires info.blocksPerGroup <= bits
      requires forall i: nat | i < n :: FirstBlock(info, i) + info.blocksPerGroup < 0x1_0000_0000
      requires info.lenBlocks < 0x1_0000_0000 - info.blocksPerGroup
      ensures |groups| == n && perGroup == info.blocksPerGroup && Valid()
      ensures forall i: nat | i < n :: fresh(groups[i]) && fresh(groups[i].bitmap) && Fresh(info, groups[i], i)
    {
      hide FirstBlock, HeaderBlocks, GroupSize;
      var gs: seq<Group> := [];
      for i := 0 to n
        invariant |gs| == i
        invariant forall k: nat | k < i :: fresh(gs[k]) && fresh(gs[k].bitmap) && Fresh(info, gs[k], k)
        invariant forall j: nat, k: nat | j < k < i :: gs[j] != gs[k] && gs[j].bitmap != gs[k].bitmap
      {
        var hasSuper := BgHasSuperBlock(info, i);
        var g := new Group(info, i, bits, hasSuper);
        gs := gs + [g];
      }
      groups, perGroup := gs, info.blocksPerGroup;
    }

    /** Take len blocks from the front of a group's free interval; the error branch of reserve_blocks is unreachable. */
    method AllocateFromGroup(len: nat, i: nat) returns (block: Option<nat>)
      requires Valid() && i < |groups|
      modifies groups[i], groups[i].bitmap
      ensures Valid()
      ensures block.Some? <==> len <= old(groups[i].freeBlocks)
      ensures block.Some? ==> block.value == RegionIn(old(Views()), i, len).block
      ensures Views() == if block.Some? then Take(old(Views()), RegionIn(old(Views()), i, len)) else old(Views())
    {
      var g := groups[i];
      if g.freeBlocks < len { return None; }
      var first := g.firstFreeBlock;
      assert forall j: nat | j < |groups| && j != i :: groups[j].Packed(perGroup);
      var ok := g.ReserveBlocks(first, len);
      assert ok;
      g.dataBlocksUsed := g.dataBlocksUsed + len;
      block := Some(g.firstBlock + first);
    }
  
    /** Give the last n blocks taken from group i back. */
    method FreeFrom(i: nat, n: nat)
      requires Valid() && i < |groups| && n <= groups[i].firstFreeBlock
      modifies groups[i], groups[i].bitmap
      ensures Valid()
      ensures Views() == Give(old(Views()), i, n)
    {
      assert forall j: nat | j < |groups| && j != i :: groups[j].Packed(perGroup);
      groups[i].FreeBlocks(n, perGroup);
    }

    /** The first group with room for the whole request serves it. */
    method AllocateContiguous(len: nat) returns (r: Option<Region>)
      requires Valid()
      modifies groups, set g <- groups :: g.bitmap
      ensures Valid()
      ensures r == Contiguous(old(Views()), len)
      ensures Views() == if r.Some? then Take(old(Views()), r.value) else old(Views())
    {
      ghost var v := Views();
      var i := 0;
      while i < |groups|
        invariant 0 <= i <= |groups| && Valid() && Views() == v
        invariant FirstFit(v, len, 0) == FirstFit(v, len, i)
      {
        var block := AllocateFromGroup(len, i);
        if block.Some? { return Some(Region(block.value, len, i)); }
        assert v[i].free < len;
        i := i + 1;
      }
      r := None;
    }

    /** A request that fits an untouched group goes to the first group it fits; a larger one takes that group whole. */
    method AllocatePartial(len: nat) returns (r: Option<Region>)
      requires Valid()
      modifies groups, set g <- groups :: g.bitmap
      ensures Valid()
      ensures r == Partial(old(Views()), len)
      ensures Views() == if r.Some? then (ChosenFits(old(Views()), len); Take(old(Views()), r.value)) else old(Views())
    {
      ghost var v := Views();
      var i := 0;
      while i < |groups|
        invariant 0 <= i <= |groups| && Valid() && Views() == v
        invariant FirstUntouched(v, 0) == FirstUntouched(v, i)
      {
        if groups[i].dataBlocksUsed == 0 {
          var bgLen := groups[i].freeBlocks;
          if len <= bgLen {
            r := AllocateContiguous(len);
          } else {
            var block := AllocateFromGroup(bgLen, i);
            r := Some(Region(block.value, bgLen, i));
          }
          return;
        }
        i := i + 1;
      }
      r := None;
    }

    /** Take regions until the request is served or no untouched group is left. */
    method AllocateMultiple(len: nat) returns (rs: seq<Region>, ok: bool)
      requires Valid() && Ends(Views(), len)
      modifies groups, set g <- groups :: g.bitmap
      ensures Valid()
      ensures (rs, ok) == Multiple(old(Views()), len)
      ensures Views() == TakeAll(old(Views()), rs)
    {
      hide Multiple, Partial, Take, Fits, Ends, Valid, Views, Served;
      ghost var v := Views();
      rs := [];
      var left: nat := len;
      ServedNothing(v, len);
      while left > 0
        invariant Valid() && Served(v, len, rs, Views(), left)
      {
        ghost var now := Views();
        ServedMore(v, len, rs, now, left);
        var r := AllocatePartial(left);
        if r.None? { return rs, false; }
        rs := rs + [r.value];
        left := left - r.value.len;
      }
      ServedAll(v, len, rs, Views());
      ok := true;
    }

    /** Take len blocks, in one region when some group has room, else in several. */
    method Allocate(len: nat) returns (rs: seq<Region>, ok: bool)
      requires Valid() && Answered(Views(), len)
      modifies groups, set g <- groups :: g.bitmap
      ensures Valid()
      ensures (rs, ok) == DoAllocate(old(Views()), len)
      ensures Views() == TakeAll(old(Views()), rs)
    {
      ghost var v := Views();
      ChosenFits(v, len);
      var r := AllocateContiguous(len);
      if r.Some? {
        rs, ok := [r.value], true;
        assert rs[1..] == [];
      } else {
        rs, ok := AllocateMultiple(len);
      }
    }
  }

  /** Of a request for len blocks from v the regions rs have been taken, leaving w and `left` blocks to be found. */
  ghost predicate Served(v: seq<View>, len: nat, rs: seq<Region>, w: seq<View>, left: nat) {
    && Ends(v, len) && Ends(w, left) && AllFit(v, rs) && w == TakeAll(v, rs) && left <= len
    && Multiple(v, len).0 == rs + Multiple(w, left).0 && Multiple(v, len).1 == Multiple(w, left).1
  }

  lemma ServedNothing(v: seq<View>, len: nat)
    requires Ends(v, len)
    ensures Served(v, len, [], v, len)
  {
    hide Multiple, Ends;
    assert [] + Multiple(v, len).0 == Multiple(v, len).0;
  }

  lemma ServedMore(v: seq<View>, len: nat, rs: seq<Region>, w: seq<View>, left: nat)
    requires Served(v, len, rs, w, left) && left > 0
    ensures Ends(v, len) && Ends(w, left) && AllFit(v, rs) && w == TakeAll(v, rs)
    ensures match Partial(w, left)
      case None => Multiple(v, len) == (rs, false)
      case Some(r) => Fits(w, r) && 0 < r.len <= left && Served(v, len, rs + [r], Take(w, r), left - r.len)
  {
    hide Multiple, Partial, Take, TakeAll, AllFit, Fits, Ends;
    MultipleStep(w, left);
    match Partial(w, left)
    case None =>
      assert rs + [] == rs;
    case Some(r) =>
      TakeAllGrows(v, rs, r);
      var rest := Multiple(Take(w, r), left - r.len).0;
      assert rs + ([r] + rest) == (rs + [r]) + rest;
  }

  lemma ServedAll(v: seq<View>, len: nat, rs: seq<Region>, w: seq<View>)
    requires Served(v, len, rs, w, 0)
    ensures Ends(v, len) && AllFit(v, rs) && w == TakeAll(v, rs) && Multiple(v, len) == (rs, true)
  {
    hide Multiple, TakeAll, AllFit, Ends;
    MultipleNone(w);
    assert rs + [] == rs;
  }

  lemma MultipleNone(v: seq<View>)
    ensures Ends(v, 0) && Multiple(v, 0) == ([], true)
  {
  }

  lemma {:induction false} TakeAllGrows(v: seq<View>, rs: seq<Region>, r: Region)
    requires AllFit(v, rs) && Fits(TakeAll(v, rs), r)
    ensures AllFit(v, rs + [r]) && TakeAll(v, rs + [r]) == Take(TakeAll(v, rs), r)
    decreases |rs|
  {
    if rs == [] {
      assert [r][1..] == [];
    } else {
      assert (rs + [r])[1..] == rs[1..] + [r];
      TakeAllGrows(Take(v, rs[0]), rs[1..], r);
    }
  }
}
