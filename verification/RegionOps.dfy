/** What the operations on the list of regions do to the blocks in it. */
module RegionOps {
  import opened Arith
  import opened Allocator
  import opened Regions

  // ----- splitting

  /** Place `at` from region i on, found in region j, is that many blocks behind the regions before j. */
  lemma {:induction false} LocateSums(rs: seq<Region>, i: nat, at: nat)
    requires i <= |rs|
    ensures var (j, rest) := Locate(rs, i, at); Sum(rs[i..j]) + rest == at
    decreases |rs| - i
  {
    if i < |rs| && at >= rs[i].len {
      LocateSums(rs, i + 1, at - rs[i].len);
      var j := Locate(rs, i, at).0;
      assert rs[i..j][1..] == rs[i + 1..j];
    }
  }

  lemma {:induction false} BlocksAppend(xs: seq<Region>, ys: seq<Region>)
    ensures BlocksOf(xs + ys) == BlocksOf(xs) + BlocksOf(ys)
  {
    BlocksSplit(xs + ys, |xs|);
    assert (xs + ys)[..|xs|] == xs && (xs + ys)[|xs|..] == ys;
  }

  lemma OneRegion(r: Region)
    ensures BlocksOf([r]) == RegionBlocks(r) && Sum([r]) == r.len
  {
    assert [r][1..] == [];
  }

  lemma TwoParts(r: Region, at: nat)
    requires at <= r.len
    ensures RegionBlocks(r) == Run(r.block, at) + Run(r.block + at, r.len - at)
  {
  }

  /** A split takes the blocks from the current region on apart at `len`: the new current region begins there. */
  lemma SplitBlocks(c: Chain, len: nat)
    requires c.iter <= |c.regions|
    ensures var (j, at), (c', middle) := Locate(c.regions, c.iter, len), DoSplit(c, len);
      if j == |c.regions| || at == 0 then c' == c && middle == j
      else
        && middle == c.iter < c'.iter == j + 1 < |c'.regions| && c'.oob == c.oob && c'.partial == c.partial
        && c'.regions[..c.iter] == c.regions[..c.iter]
        && len < |Ahead(c)|
        && BlocksOf(c'.regions[c.iter..c'.iter]) == Ahead(c)[..len]
        && Ahead(c') == Ahead(c)[len..]
  {
    var (j, at) := Locate(c.regions, c.iter, len);
    if j < |c.regions| && at > 0 { CutBlocks(c, len, j, at); }
  }

  lemma CutBlocks(c: Chain, len: nat, j: nat, at: nat)
    requires c.iter <= |c.regions| && (j, at) == Locate(c.regions, c.iter, len) && j < |c.regions| && at > 0
    ensures var c' := DoSplit(c, len).0;
      && len < |Ahead(c)| && c'.iter == j + 1 < |c'.regions|
      && c'.regions[..c.iter] == c.regions[..c.iter]
      && BlocksOf(c'.regions[c.iter..c'.iter]) == Ahead(c)[..len]
      && Ahead(c') == Ahead(c)[len..]
  {
    hide BlocksOf, RegionBlocks, Run, Sum;
    var rs, i, r := c.regions, c.iter, c.regions[j];
    var front, back := r.(len := at), r.(block := r.block + at, len := r.len - at);
    var before, behind := rs[i..j], rs[j + 1..];
    LocateSums(rs, i, len);
    assert rs[i..] == before + ([r] + behind);
    BlocksAppend(before, [r] + behind);
    BlocksAppend([r], behind);
    OneRegion(r);
    OneRegion(front);
    OneRegion(back);
    PartBlocks(r, at);
    BlocksAppend(before, [front]);
    BlocksAppend([back], behind);
    var cut := Cut(rs, j, at);
    assert cut[i..j + 1] == before + [front];
    assert cut[j + 1..] == [back] + behind;
    Regroup(BlocksOf(before), RegionBlocks(front), RegionBlocks(back), BlocksOf(behind), len);
  }

  lemma PartBlocks(r: Region, at: nat)
    requires at <= r.len
    ensures RegionBlocks(r) == RegionBlocks(r.(len := at)) + RegionBlocks(r.(block := r.block + at, len := r.len - at))
  {
    TwoParts(r, at);
  }

  lemma Regroup(x: seq<nat>, y: seq<nat>, z: seq<nat>, w: seq<nat>, n: nat)
    requires n == |x| + |y|
    ensures (x + (y + z + w))[..n] == x + y && (x + (y + z + w))[n..] == z + w
  {
  }

  /** The region the list calls its last one is the same before and after a split, or the front of it. */
  lemma SplitKeepsLast(c: Chain, len: nat)
    requires c.iter <= |c.regions| && 0 <= c.last < |c.regions|
    ensures var c' := DoSplit(c, len).0;
      && 0 <= c'.last < |c'.regions| && c'.regions[c'.last].block == c.regions[c.last].block
      && (c'.regions[c'.last].len == c.regions[c.last].len || Locate(c.regions, c.iter, len).0 == c.last)
  {
  }

  // ----- setting blocks aside

  /** The position lies in the current region, or at the end of the list. */
  ghost predicate Placed(c: Chain) {
    c.Valid() && if c.iter < |c.regions| then c.partial < c.regions[c.iter].len else c.partial == 0
  }

  lemma PlacedInside(c: Chain)
    requires Placed(c)
    ensures c.partial <= |Ahead(c)|
  {
  }

  /** The blocks in front of the position, and those from it on. */
  ghost function Passed(c: Chain): (b: seq<nat>)
    requires Placed(c)
  {
    PlacedInside(c);
    BlocksOf(c.regions[..c.iter]) + Ahead(c)[..c.partial]
  }

  ghost function Coming(c: Chain): (b: seq<nat>)
    requires Placed(c)
  {
    PlacedInside(c);
    Ahead(c)[c.partial..]
  }

  /** Some region ends, and another begins, n blocks behind the position. */
  ghost predicate Boundary(c: Chain, n: nat)
    requires Placed(c)
  {
    n < |Coming(c)| && Locate(c.regions, c.iter, c.partial + n).1 == 0
  }

  lemma {:induction false} LocateShift(xs: seq<Region>, ys: seq<Region>, i: nat, at: nat)
    requires i <= |xs| && |ys| == |xs| + 1 && xs[i..] == ys[i + 1..]
    ensures Locate(ys, i + 1, at) == (Locate(xs, i, at).0 + 1, Locate(xs, i, at).1)
    decreases |xs| - i
  {
    if i < |xs| {
      assert xs[i..][0] == ys[i + 1..][0];
      if at >= xs[i].len {
        assert xs[i + 1..] == xs[i..][1..] && ys[i + 2..] == ys[i + 1..][1..];
        LocateShift(xs, ys, i + 1, at - xs[i].len);
      }
    }
  }

  /** First a boundary is made at the position. */
  lemma BoundaryHere(c: Chain, n: nat)
    requires Placed(c) && n > 0
    ensures var c1 := DoSplit(c, c.partial).0;
      && c1.iter <= |c1.regions| && c1.oob == c.oob
      && Ahead(c1) == Coming(c) && BlocksOf(c1.regions[..c1.iter]) == Passed(c)
      && (Locate(c1.regions, c1.iter, n).1 == 0 <==> Locate(c.regions, c.iter, c.partial + n).1 == 0)
  {
    hide BlocksOf, RegionBlocks, Sum, DoSplit;
    SplitBlocks(c, c.partial);
    PlacedInside(c);
    if c.partial == 0 {
      assert Ahead(c)[0..] == Ahead(c);
      assert BlocksOf(c.regions[..c.iter]) + [] == BlocksOf(c.regions[..c.iter]);
    } else {
      var c1 := DoSplit(c, c.partial).0;
      BlocksAppend(c1.regions[..c.iter], c1.regions[c.iter..c1.iter]);
      assert c1.regions[..c1.iter] == c1.regions[..c.iter] + c1.regions[c.iter..c1.iter];
      SameBoundary(c, n);
    }
  }

  lemma SameBoundary(c: Chain, n: nat)
    requires Placed(c) && n > 0 && c.partial > 0
    ensures var c1 := DoSplit(c, c.partial).0;
      && c1.iter <= |c1.regions|
      && (Locate(c1.regions, c1.iter, n).1 == 0 <==> Locate(c.regions, c.iter, c.partial + n).1 == 0)
  {
    hide NonEmpty;
    var c1, r := DoSplit(c, c.partial).0, c.regions[c.iter];
    assert Locate(c.regions, c.iter, c.partial) == (c.iter, c.partial);
    if c.partial + n >= r.len {
      assert c1.regions[c1.iter + 1..] == c.regions[c.iter + 1..];
      LocateShift(c.regions, c1.regions, c.iter + 1, c.partial + n - r.len);
    }
  }

  lemma ReachesBlock(c: Chain, n: nat)
    requires c.iter <= |c.regions|
    ensures Locate(c.regions, c.iter, n).0 < |c.regions| <==> n < |Ahead(c)|
  {
    LocateIsBlock(c.regions, c.iter, n);
  }

  /** Then n blocks are split off and a part of the list is moved: the blocks split off, when the split made the
      boundary behind them; those behind them, when there was one already. */
  lemma MovesPart(c1: Chain, n: nat)
    requires c1.iter <= |c1.regions| && n > 0
    ensures var at, (c2, middle) := Locate(c1.regions, c1.iter, n).1, DoSplit(c1, n);
      && (middle >= |c2.regions| <==> n >= |Ahead(c1)|)
      && (n >= |Ahead(c1)| ==> c2 == c1)
      && (n < |Ahead(c1)| ==>
            var end := if middle <= c2.iter then c2.iter else |c2.regions|;
            && middle <= end <= |c2.regions|
            && var c3 := Moved(c2.(partial := 0), middle, end);
               && c3.iter <= |c3.regions| && c3.partial == 0
               && BlocksOf(c3.regions[..c3.iter]) == BlocksOf(c1.regions[..c1.iter])
               && Ahead(c3) == (if at == 0 then Ahead(c1)[..n] else Ahead(c1)[n..])
               && BlocksOf(c3.oob) == BlocksOf(c1.oob) + if at == 0 then Ahead(c1)[n..] else Ahead(c1)[..n])
  {
    hide BlocksOf, Sum, DoSplit, Moved;
    SplitBlocks(c1, n);
    ReachesBlock(c1, n);
    if n < |Ahead(c1)| {
      if Locate(c1.regions, c1.iter, n).1 == 0 { MovesRest(c1, n); } else { MovesFront(c1, n); }
    }
  }

  lemma MovesRest(c1: Chain, n: nat)
    requires c1.iter <= |c1.regions| && 0 < n < |Ahead(c1)| && Locate(c1.regions, c1.iter, n).1 == 0
    ensures var j := Locate(c1.regions, c1.iter, n).0;
      && c1.iter < j < |c1.regions|
      && var c3 := Moved(c1.(partial := 0), j, |c1.regions|);
        && c3.iter == c1.iter <= |c3.regions| && c3.partial == 0
        && c3.regions[..c3.iter] == c1.regions[..c1.iter]
        && Ahead(c3) == Ahead(c1)[..n]
        && BlocksOf(c3.oob) == BlocksOf(c1.oob) + Ahead(c1)[n..]
  {
    hide BlocksOf, RegionBlocks, Sum;
    var j := Locate(c1.regions, c1.iter, n).0;
    ReachesBlock(c1, n);
    LocateSums(c1.regions, c1.iter, n);
    NoneBetween(c1, j);
    var front, back := c1.regions[c1.iter..j], c1.regions[j..];
    assert c1.regions[c1.iter..] == front + back;
    BlocksAppend(front, back);
    BlocksAppend(c1.oob, back);
    var c3 := Moved(c1.(partial := 0), j, |c1.regions|);
    assert c1.regions[j..|c1.regions|] == back;
    assert c3.regions == c1.regions[..j] + [] == c1.regions[..j];
    assert c3.regions[c3.iter..] == front;
  }

  lemma NoneBetween(c: Chain, j: nat)
    requires c.iter <= j <= |c.regions| && Sum(c.regions[c.iter..j]) > 0
    ensures c.iter < j
  {
  }

  lemma MovesFront(c1: Chain, n: nat)
    requires c1.iter <= |c1.regions| && 0 < n < |Ahead(c1)| && Locate(c1.regions, c1.iter, n).1 != 0
    ensures var (c2, middle) := DoSplit(c1, n);
      && middle == c1.iter < c2.iter <= |c2.regions|
      && var c3 := Moved(c2.(partial := 0), middle, c2.iter);
        && c3.iter == c1.iter <= |c3.regions| && c3.partial == 0
        && c3.regions[..c3.iter] == c1.regions[..c1.iter]
        && Ahead(c3) == Ahead(c1)[n..]
        && BlocksOf(c3.oob) == BlocksOf(c1.oob) + Ahead(c1)[..n]
  {
    hide BlocksOf, RegionBlocks, Sum;
    ReachesBlock(c1, n);
    SplitBlocks(c1, n);
    var (c2, middle) := DoSplit(c1, n);
    BlocksAppend(c1.oob, c2.regions[middle..c2.iter]);
    var c3 := Moved(c2.(partial := 0), middle, c2.iter);
    assert c3.regions == c1.regions[..middle] + c2.regions[c2.iter..];
    assert c3.regions[c3.iter..] == c2.regions[c2.iter..];
  }

  /** What setting n blocks aside does. With too few blocks behind the position it fails and loses none. Otherwise the
      next n blocks are set aside - but when a region ends behind them, those stay and all the others are set aside. */
  lemma ReserveExactly(c: Chain, n: nat)
    requires Placed(c) && n > 0
    ensures var (c', ok) := ReserveOob(c, n);
      && (ok <==> n < |Coming(c)|)
      && c'.iter <= |c'.regions| && c'.partial == 0 && BlocksOf(c'.regions[..c'.iter]) == Passed(c)
      && (!ok ==> Ahead(c') == Coming(c) && c'.oob == c.oob)
      && (ok && !Boundary(c, n) ==>
            Ahead(c') == Coming(c)[n..] && BlocksOf(c'.oob) == BlocksOf(c.oob) + Coming(c)[..n])
      && (ok && Boundary(c, n) ==>
            Ahead(c') == Coming(c)[..n] && BlocksOf(c'.oob) == BlocksOf(c.oob) + Coming(c)[n..])
  {
    hide BlocksOf, Sum, DoSplit, Moved, Placed, Passed, Coming;
    PlacedIsValid(c);
    BoundaryHere(c, n);
    MovesPart(DoSplit(c, c.partial).0, n);
  }

  lemma PlacedIsValid(c: Chain)
    requires Placed(c)
    ensures c.Valid() && c.iter <= |c.regions|
  {
  }

  // ----- moving the position, giving blocks back, new lists

  /** A move that leaves the current region ends at the place in a later region where it should be - but in the
      current region. It fails only when it would end behind the end of the list. */
  lemma {:induction false} CrossingMove(c: Chain, i: nat, n: nat)
    requires c.Valid() && i <= |c.regions| && c.partial == 0
    ensures var (j, at) := Locate(c.regions, i, n);
      AdvanceFrom(c, i, n) == if j < |c.regions| then (c.(partial := at), true) else (c, at == 0)
    decreases |c.regions| - i
  {
    if i < |c.regions| && n > 0 && c.regions[i].len <= n { CrossingMove(c, i + 1, n - c.regions[i].len); }
  }

  lemma MoveExactly(c: Chain, n: nat)
    requires Placed(c) && c.iter < |c.regions| && n > 0
    ensures var left := c.regions[c.iter].len - c.partial;
      if n < left then Advance(c, n) == (c.(partial := c.partial + n), true)
      else
        var (j, at) := Locate(c.regions, c.iter + 1, n - left);
        Advance(c, n) == if j < |c.regions| then (c.(partial := at), true) else (c.(partial := 0), at == 0)
  {
    var left := c.regions[c.iter].len - c.partial;
    if n >= left { CrossingMove(c.(partial := 0), c.iter + 1, n - left); }
  }

  /** Blocks are given back from the end of the list's first region; a list that loses its only known region has no
      last region any more. */
  lemma ReduceExactly(c: Chain, n: nat)
    requires c.Valid() && c.last == 0 < |c.regions| && 0 < n <= c.regions[0].len && c.iter == 0 && c.partial == 0
    ensures var c' := Reduce(c, n);
      && Placed(c') && c'.oob == c.oob && (c'.last == -1 <==> c'.regions == [])
      && (n < c.regions[0].len ==>
            BlocksOf(c'.regions) == RegionBlocks(c.regions[0])[..c.regions[0].len - n] + BlocksOf(c.regions[1..]))
      && (n == c.regions[0].len ==> c'.regions == [])
  {
    if n < c.regions[0].len { assert Reduce(c, n).regions[1..] == c.regions[1..]; }
  }

  /** A new list is at its first block and calls its first region the last one. */
  lemma NewChainIs(rs: seq<Region>)
    requires NonEmpty(rs)
    ensures var c := NewChain(rs);
      Placed(c) && Coming(c) == BlocksOf(rs) && c.oob == [] && c.last == (if rs == [] then -1 else 0)
  {
    assert rs[0..] == rs && BlocksOf(rs)[0..] == BlocksOf(rs);
  }
}
