/** Whole histories of the block allocator: any mix of requests and of returns of the blocks taken last. */
module AllocHistory {
  import opened Arith
  import opened Groups
  import opened Allocator

  /** A request for len blocks, or the return of the last n blocks of group bg. */
  datatype Op = Request(len: nat) | Return(bg: nat, n: nat)

  /** Every group starts at its place, and the blocks it can hand out lie between its header and its end. */
  ghost predicate InLayout(info: Info, v: seq<View>) {
    forall bg: nat | bg < |v| :: ViewInLayout(info, v[bg], bg)
  }

  ghost predicate ViewInLayout(info: Info, g: View, bg: nat) {
    && g.firstBlock == FirstBlock(info, bg)
    && HeaderBlocks(info, bg) <= g.firstFree && g.firstFree + g.free <= info.blocksPerGroup
  }

  /** What may be asked of a group: any request that is answered, and the return of blocks handed out since the
      start v0, which leaves no more than was free then. */
  ghost predicate Allowed(v0: seq<View>, v: seq<View>, op: Op) {
    match op
    case Request(len) => Answered(v, len)
    case Return(bg, n) => bg < |v| && bg < |v0| && v0[bg].firstFree + n <= v[bg].firstFree
  }

  ghost function Apply(v0: seq<View>, v: seq<View>, op: Op): (v': seq<View>)
    requires Allowed(v0, v, op)
    ensures |v'| == |v|
  {
    match op
    case Request(len) => TakeAll(v, DoAllocate(v, len).0)
    case Return(bg, n) => Give(v, bg, n)
  }

  /** The groups keep their place, what one has free and has handed out adds up to the same, and none has more
      free than at the start. */
  ghost predicate Since(v0: seq<View>, v: seq<View>) {
    && |v| == |v0|
    && forall bg: nat | bg < |v0| :: SinceView(v0[bg], v[bg])
  }

  predicate SinceView(g0: View, g: View) {
    g.firstBlock == g0.firstBlock && g.firstFree >= g0.firstFree && g.firstFree + g.free == g0.firstFree + g0.free
  }

  /** The states a history goes through, each operation being one that may be asked. */
  ghost predicate History(vs: seq<seq<View>>, ops: seq<Op>) {
    && |vs| == |ops| + 1
    && forall k: nat | k < |ops| :: Step(vs[0], vs[k], ops[k], vs[k + 1])
  }

  ghost predicate Step(v0: seq<View>, v: seq<View>, op: Op, v': seq<View>) {
    Allowed(v0, v, op) && v' == Apply(v0, v, op)
  }

  lemma HistoryLength(vs: seq<seq<View>>, ops: seq<Op>)
    requires History(vs, ops)
    ensures |vs| == |ops| + 1
  {
  }

  lemma {:induction false} TakeAllKeeps(v0: seq<View>, v: seq<View>, rs: seq<Region>)
    requires AllFit(v, rs) && Since(v0, v)
    ensures Since(v0, TakeAll(v, rs))
    decreases |rs|
  {
    if rs != [] {
      assert forall bg: nat | bg < |v0| :: SinceView(v0[bg], v[bg]);
      TakeAllKeeps(v0, Take(v, rs[0]), rs[1..]);
    }
  }

  lemma ApplyKeeps(v0: seq<View>, v: seq<View>, op: Op)
    requires Since(v0, v) && Allowed(v0, v, op)
    ensures Since(v0, Apply(v0, v, op))
  {
    match op
    case Request(len) =>
      TakeAllKeeps(v0, v, DoAllocate(v, len).0);
    case Return(bg, n) =>
      assert forall b: nat | b < |v0| :: SinceView(v0[b], v[b]);
  }

  lemma {:induction false} HistoryKeepsSince(vs: seq<seq<View>>, ops: seq<Op>, k: nat)
    requires History(vs, ops) && k <= |ops|
    ensures Since(vs[0], vs[k])
  {
    hide Since, Allowed, Apply;
    if k == 0 {
      SinceSelf(vs[0]);
    } else {
      HistoryKeepsSince(vs, ops, k - 1);
      assert Step(vs[0], vs[k - 1], ops[k - 1], vs[k - 1 + 1]);
      ApplyKeeps(vs[0], vs[k - 1], ops[k - 1]);
    }
  }

  lemma SinceSelf(v: seq<View>)
    ensures Since(v, v)
  {
  }

  lemma SinceLayout(info: Info, v0: seq<View>, v: seq<View>)
    requires Since(v0, v) && InLayout(info, v0)
    ensures InLayout(info, v)
  {
    hide HeaderBlocks, FirstBlock;
    forall bg: nat | bg < |v|
      ensures ViewInLayout(info, v[bg], bg)
    {
      assert ViewInLayout(info, v0[bg], bg) && SinceView(v0[bg], v[bg]);
    }
  }

  lemma SinceFree(v0: seq<View>, v: seq<View>, n: nat)
    requires Since(v0, v) && IsFree(v, n)
    ensures IsFree(v0, n)
  {
    var g: nat :| g < |v| && FreeIn(v[g], n);
    assert SinceView(v0[g], v[g]);
    assert FreeIn(v0[g], n);
  }

  /** No history moves a group's free interval into its header or beyond where it was at the start. */
  lemma HistoryKeepsLayout(info: Info, vs: seq<seq<View>>, ops: seq<Op>, k: nat)
    requires History(vs, ops) && InLayout(info, vs[0]) && k <= |ops|
    ensures InLayout(info, vs[k]) && Since(vs[0], vs[k])
  {
    hide InLayout, Since, History;
    HistoryLength(vs, ops);
    HistoryKeepsSince(vs, ops, k);
    SinceLayout(info, vs[0], vs[k]);
  }

  lemma GroupsApart(info: Info, g: nat, h: nat)
    requires g < h
    ensures FirstBlock(info, g) + info.blocksPerGroup <= FirstBlock(info, h)
  {
    MulMonotone(g + 1, h, info.blocksPerGroup);
    assert (g + 1) * info.blocksPerGroup == g * info.blocksPerGroup + info.blocksPerGroup;
  }

  lemma LayoutSeparates(info: Info, v: seq<View>)
    requires InLayout(info, v)
    ensures Separate(v)
  {
    hide HeaderBlocks, FirstBlock;
    forall g: nat, h: nat | g < h < |v|
      ensures v[g].firstBlock + v[g].firstFree + v[g].free <= v[h].firstBlock
    {
      assert ViewInLayout(info, v[g], g) && ViewInLayout(info, v[h], h);
      GroupsApart(info, g, h);
    }
  }

  /** A free block is not metadata, of its own group or of any other. */
  lemma FreeIsNotMetadata(info: Info, v: seq<View>, n: nat, bg: nat)
    requires InLayout(info, v) && IsFree(v, n) && HeaderBlocks(info, bg) <= info.blocksPerGroup
    ensures !IsMetadata(info, bg, n)
  {
    MetadataIsHeader(info, bg, n);
    hide HeaderBlocks, FirstBlock, IsMetadata;
    var g: nat :| g < |v| && FreeIn(v[g], n);
    assert ViewInLayout(info, v[g], g);
    if g < bg { GroupsApart(info, g, bg); }
    if bg < g { GroupsApart(info, bg, g); }
  }

  /** After any history, the blocks of a new request were free, then and at the start, are free no longer, belong
      to one region only and hold no metadata of any group. */
  lemma RequestsAreSafe(info: Info, vs: seq<seq<View>>, ops: seq<Op>, k: nat, len: nat, i: nat, n: nat)
    requires HeadersFit(info)
    requires History(vs, ops) && InLayout(info, vs[0]) && k <= |ops| && Answered(vs[k], len)
    requires i < |DoAllocate(vs[k], len).0| && In(DoAllocate(vs[k], len).0[i], n)
    ensures IsFree(vs[0], n) && IsFree(vs[k], n) && !IsFree(TakeAll(vs[k], DoAllocate(vs[k], len).0), n)
    ensures forall j: nat | j < |DoAllocate(vs[k], len).0| && In(DoAllocate(vs[k], len).0[j], n) :: j == i
    ensures forall bg: nat :: !IsMetadata(info, bg, n)
  {
    hide InLayout, Since, Answered, History, IsMetadata, IsFree, Separate, In, AllFit, DoAllocate, TakeAll,
        HeaderBlocks;
    HistoryLength(vs, ops);
    HistoryKeepsLayout(info, vs, ops, k);
    LayoutSeparates(info, vs[k]);
    RegionsAreDisjoint(vs[k], DoAllocate(vs[k], len).0, n);
    SinceFree(vs[0], vs[k], n);
    forall bg: nat
      ensures !IsMetadata(info, bg, n)
    {
      FreeIsNotMetadata(info, vs[k], n, bg);
    }
  }

  // ----- which blocks a history can hand out

  /** Some history from v0 ends with a request that gets block n. */
  ghost predicate HandsOut(v0: seq<View>, n: nat) {
    exists vs: seq<seq<View>>, ops: seq<Op>, len: nat :: HandsOutBy(v0, vs, ops, len, n)
  }

  ghost predicate HandsOutBy(v0: seq<View>, vs: seq<seq<View>>, ops: seq<Op>, len: nat, n: nat) {
    && History(vs, ops) && vs[0] == v0 && Answered(vs[|ops|], len)
    && exists i: nat :: i < |DoAllocate(vs[|ops|], len).0| && In(DoAllocate(vs[|ops|], len).0[i], n)
  }

  /** The first i groups emptied one after the other. */
  ghost function Drained(v: seq<View>, i: nat): (w: seq<View>)
    requires i <= |v|
    ensures |w| == |v|
    ensures forall j :: i <= j < |v| ==> w[j] == v[j]
    ensures forall j :: 0 <= j < i ==> w[j].free == 0
  {
    if i == 0 then v else Take(Drained(v, i - 1), RegionIn(Drained(v, i - 1), i - 1, v[i - 1].free))
  }

  /** A request for all that group i has left goes to that group when the groups before it are empty. */
  lemma RequestWhole(v: seq<View>, i: nat)
    requires i < |v| && v[i].free > 0
    ensures var w := Drained(v, i);
      && Contiguous(w, v[i].free) == Some(RegionIn(w, i, v[i].free))
      && DoAllocate(w, v[i].free).0 == [RegionIn(w, i, v[i].free)]
  {
    var w := Drained(v, i);
    FirstFitIs(w, v[i].free, 0, i);
  }

  lemma {:induction false} FirstFitIs(v: seq<View>, len: nat, i: nat, k: nat)
    requires i <= k < |v| && v[k].free >= len && forall j :: i <= j < k ==> v[j].free < len
    ensures FirstFit(v, len, i) == k
    decreases k - i
  {
    if i < k { FirstFitIs(v, len, i + 1, k); }
  }

  lemma DrainStep(v: seq<View>, i: nat)
    requires i < |v|
    ensures Step(v, Drained(v, i), Request(v[i].free), Drained(v, i + 1))
  {
    var w := Drained(v, i);
    if v[i].free > 0 {
      RequestWhole(v, i);
      TakeOne(w, RegionIn(w, i, v[i].free));
    } else {
      FirstFitIs(w, 0, 0, 0);
      TakeOne(w, RegionIn(w, 0, 0));
      assert Take(w, RegionIn(w, 0, 0)) == w == Take(w, RegionIn(w, i, 0));
    }
  }

  lemma TakeOne(v: seq<View>, r: Region)
    requires Fits(v, r)
    ensures AllFit(v, [r]) && TakeAll(v, [r]) == Take(v, r)
  {
    assert [r][1..] == [];
  }

  lemma DrainHistory(v: seq<View>, n: nat, bg: nat)
    requires bg < |v| && FreeIn(v[bg], n)
    ensures HandsOut(v, n)
  {
    hide Drained, Step, DoAllocate, Contiguous, In;
    var vs := seq(bg + 1, k requires 0 <= k < bg + 1 => Drained(v, k));
    var ops := seq(bg, k requires 0 <= k < bg => Request(v[k].free));
    DrainedNone(v);
    forall k: nat | k < bg
      ensures Step(vs[0], vs[k], ops[k], vs[k + 1])
    {
      DrainStep(v, k);
    }
    RequestWhole(v, bg);
    RegionHolds(Drained(v, bg), v, bg, n);
    assert HandsOutBy(v, vs, ops, v[bg].free, n) by {
      assert In(DoAllocate(vs[bg], v[bg].free).0[0], n);
    }
  }

  lemma DrainedNone(v: seq<View>)
    ensures Drained(v, 0) == v
  {
  }

  lemma RegionHolds(w: seq<View>, v: seq<View>, bg: nat, n: nat)
    requires bg < |w| && bg < |v| && w[bg] == v[bg] && FreeIn(v[bg], n)
    ensures In(RegionIn(w, bg, v[bg].free), n)
  {
  }

  /** The blocks that some history hands out are exactly those free at the start. */
  lemma HandsOutExactly(info: Info, v0: seq<View>, n: nat)
    requires HeadersFit(info) && InLayout(info, v0)
    ensures HandsOut(v0, n) <==> IsFree(v0, n)
  {
    if HandsOut(v0, n) {
      hide InLayout, HeadersFit, IsFree, In, DoAllocate, Answered, History;
      var vs: seq<seq<View>>, ops: seq<Op>, len: nat :| HandsOutBy(v0, vs, ops, len, n);
      HistoryLength(vs, ops);
      var i: nat :| i < |DoAllocate(vs[|ops|], len).0| && In(DoAllocate(vs[|ops|], len).0[i], n);
      RequestsAreSafe(info, vs, ops, |ops|, len, i, n);
    }
    if IsFree(v0, n) {
      var bg: nat :| bg < |v0| && FreeIn(v0[bg], n);
      DrainHistory(v0, n, bg);
    }
  }

  /** All groups of a new image. */
  ghost predicate FreshViews(info: Info, v: seq<View>) {
    forall bg: nat | bg < |v| :: FreshView(info, v[bg], bg)
  }

  /** Every block that a history hands out lies inside the image exactly when every group has room for its header;
      a group without it hands out blocks behind the end. */
  lemma InsideExactly(info: Info, v0: seq<View>)
    requires HeadersFit(info) && FreshViews(info, v0)
    ensures (forall n: nat | HandsOut(v0, n) :: n < info.lenBlocks) <==>
            (forall bg: nat | bg < |v0| :: GroupSize(info, info.lenBlocks, bg) >= HeaderBlocks(info, bg))
  {
    hide HandsOut, HeaderBlocks, FirstBlock, GroupSize, HeadersFit;
    FreshLayout(info, v0);
    if forall bg: nat | bg < |v0| :: GroupSize(info, info.lenBlocks, bg) >= HeaderBlocks(info, bg) {
      forall n: nat | HandsOut(v0, n)
        ensures n < info.lenBlocks
      {
        HandsOutExactly(info, v0, n);
        var bg: nat :| bg < |v0| && FreeIn(v0[bg], n);
        RoomIsInside(info, v0[bg], bg, n);
      }
    } else {
      var bg: nat :| bg < |v0| && GroupSize(info, info.lenBlocks, bg) < HeaderBlocks(info, bg);
      var n := v0[bg].firstBlock + v0[bg].firstFree;
      NoRoomIsOutside(info, v0[bg], bg);
      assert FreeIn(v0[bg], n);
      HandsOutExactly(info, v0, n);
    }
  }

  /** The length of the image decides it: after the group count has been derived from it, every block that a history
      hands out lies inside the image, unless blocks are numbered from 1 and the image ends one block short of the
      last header. */
  lemma InsideByLength(info: Info, v0: seq<View>)
    requires info.firstDataBlock <= 1 && HeadersFit(info) && info.lenBlocks > info.firstDataBlock
    requires |v0| == AuxInfo(info).0 && FreshViews(info.(lenBlocks := AuxInfo(info).1), v0)
    ensures (forall n: nat | HandsOut(v0, n) :: n < AuxInfo(info).1) <==>
            !(info.firstDataBlock == 1 && info.lenBlocks % info.blocksPerGroup
                == HeaderBlocks(info, DivRoundUp(info.lenBlocks - 1, info.blocksPerGroup) - 1))
  {
    var (groups, len) := AuxInfo(info);
    var now := info.(lenBlocks := len);
    hide HandsOut, HeaderBlocks, HeadersFit, AuxInfo, DivRoundUp, GroupSize;
    SameHeaders(info, len);
    HeadersFitExactly(info);
    InsideExactly(now, v0);
    assert forall bg: nat | bg < groups :: GroupSize(now, len, bg) == GroupSize(info, len, bg);
  }

  lemma SameHeaders(info: Info, len: nat)
    ensures HeadersFit(info.(lenBlocks := len)) <==> HeadersFit(info)
    ensures forall bg: nat :: HeaderBlocks(info.(lenBlocks := len), bg) == HeaderBlocks(info, bg)
    ensures forall bg: nat, n: nat :: GroupSize(info.(lenBlocks := len), n, bg) == GroupSize(info, n, bg)
  {
    forall bg: nat
      ensures HeaderBlocks(info.(lenBlocks := len), bg) == HeaderBlocks(info, bg)
    {
      assert HasSuper(info.(lenBlocks := len), bg) == HasSuper(info, bg);
    }
  }

  lemma RoomIsInside(info: Info, g: View, bg: nat, n: nat)
    requires FreshView(info, g, bg) && HeadersFit(info) && FreeIn(g, n)
    requires GroupSize(info, info.lenBlocks, bg) >= HeaderBlocks(info, bg)
    ensures n < info.lenBlocks
  {
    hide HeaderBlocks, FirstBlock;
    assert HeaderBlocks(info, bg) < info.blocksPerGroup;
  }

  lemma NoRoomIsOutside(info: Info, g: View, bg: nat)
    requires FreshView(info, g, bg) && HeadersFit(info) && GroupSize(info, info.lenBlocks, bg) < HeaderBlocks(info, bg)
    ensures g.free > 0 && g.firstBlock + g.firstFree >= info.lenBlocks
  {
    hide HeaderBlocks, FirstBlock;
    assert HeaderBlocks(info, bg) < info.blocksPerGroup;
  }

  /** A header larger than a group is not reserved at all: the group hands out its first block, which is metadata. */
  lemma OversizedHeader(info: Info, g: View, bg: nat)
    requires FreshView(info, g, bg) && HeaderBlocks(info, bg) > info.blocksPerGroup
    ensures GroupSize(info, info.lenBlocks, bg) != 0 ==>
      FreeIn(g, FirstBlock(info, bg)) && IsMetadata(info, bg, FirstBlock(info, bg))
  {
    MetadataIsHeader(info, bg, FirstBlock(info, bg));
  }

  lemma FreshLayout(info: Info, v: seq<View>)
    requires FreshViews(info, v) && HeadersFit(info)
    ensures InLayout(info, v)
  {
    hide HeaderBlocks, FirstBlock, GroupSize;
    forall bg: nat | bg < |v|
      ensures ViewInLayout(info, v[bg], bg)
    {
      assert FreshView(info, v[bg], bg) && HeaderBlocks(info, bg) < info.blocksPerGroup;
    }
  }

  /** Returning the n blocks taken last undoes a request for n blocks of one group, but for the mark
      that the group has been used. */
  lemma ReturnUndoes(v: seq<View>, r: Region)
    requires Fits(v, r)
    ensures Give(Take(v, r), r.bg, r.len) == v[r.bg := v[r.bg].(used := v[r.bg].used + r.len)]
  {
  }

  /** The groups of a new image are in the layout when every header fits its group. */
  lemma FreshInLayout(b: Blocks, info: Info)
    requires |b.Views()| == |b.groups|
    requires forall i: nat | i < |b.groups| ::
      Fresh(info, b.groups[i], i) && HeaderBlocks(info, i) <= info.blocksPerGroup
    ensures FreshViews(info, b.Views()) && InLayout(info, b.Views())
    ensures UntouchedHaveBlocks(b.Views()) <==> forall i: nat | i < |b.groups| :: b.groups[i].freeBlocks > 0
  {
    hide HeaderBlocks, FirstBlock, GroupSize;
    forall i: nat | i < |b.groups|
      ensures FreshView(info, b.Views()[i], i) && ViewInLayout(info, b.Views()[i], i)
      ensures b.Views()[i].used == 0 && b.Views()[i].free == b.groups[i].freeBlocks
    {
      assert Fresh(info, b.groups[i], i);
    }
  }
}
