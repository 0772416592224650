/** The blocks allocated to one file: a list of regions with a position in it, and the regions set
    aside for blocks that describe the file instead of holding its data. */
module Regions {
  import opened Arith
  import opened Allocator

  /** The list of data regions, the position of the next block (the region `iter`, |regions| for none, and
      `partial` blocks into it), the region the list calls its last one (-1 for none), and the list set aside. */
  datatype Chain = Chain(regions: seq<Region>, iter: nat, partial: nat, last: int, oob: seq<Region>)
  {
    predicate Valid() {
      iter <= |regions| && -1 <= last < |regions| && NonEmpty(regions) && NonEmpty(oob)
    }
  }

  predicate NonEmpty(rs: seq<Region>) {
    forall i :: 0 <= i < |rs| ==> rs[i].len > 0
  }

  /** The list of a new allocation: its last region is set to the first one. */
  function NewChain(rs: seq<Region>): Chain {
    Chain(rs, 0, 0, if rs == [] then -1 else 0, [])
  }

  /** The blocks of a list of regions, in order. */
  function BlocksOf(rs: seq<Region>): (b: seq<nat>)
    ensures |b| == Sum(rs)
  {
    if rs == [] then [] else RegionBlocks(rs[0]) + BlocksOf(rs[1..])
  }

  /** n consecutive block numbers. */
  function Run(p: nat, n: nat): (b: seq<nat>)
    ensures |b| == n && forall i :: 0 <= i < n ==> b[i] == p + i
  {
    seq(n, i requires 0 <= i < n => p + i)
  }

  function RegionBlocks(r: Region): (b: seq<nat>)
    ensures |b| == r.len
  {
    Run(r.block, r.len)
  }

  /** The region in which block `at`, counted from region i, lies and its place there. */
  function Locate(rs: seq<Region>, i: nat, at: nat): (r: (nat, nat))
    requires i <= |rs|
    ensures i <= r.0 <= |rs|
    ensures r.0 < |rs| ==> r.1 < rs[r.0].len
    decreases |rs| - i
  {
    if i < |rs| && at >= rs[i].len then Locate(rs, i + 1, at - rs[i].len) else (i, at)
  }

  function Block(c: Chain, k: nat): Option<nat>
    requires c.iter <= |c.regions|
  {
    var (i, at) := Locate(c.regions, c.iter, k + c.partial);
    if i == |c.regions| then None else Some(c.regions[i].block + at)
  }

  /** The blocks from the current region on. */
  function Ahead(c: Chain): (b: seq<nat>)
    requires c.iter <= |c.regions|
  {
    BlocksOf(c.regions[c.iter..])
  }

  function Cut(rs: seq<Region>, i: nat, at: nat): seq<Region>
    requires i < |rs| && at < rs[i].len
  {
    rs[..i] + [rs[i].(len := at), rs[i].(block := rs[i].block + at, len := rs[i].len - at)] + rs[i + 1..]
  }

  /** Make a region end `len` blocks behind the start of the current region. The result is the region in front
      of the new boundary - but the one behind it when there was a boundary already. */
  function DoSplit(c: Chain, len: nat): (r: (Chain, nat))
    requires c.iter <= |c.regions|
  {
    var (i, at) := Locate(c.regions, c.iter, len);
    if i == |c.regions| || at == 0 then (c, i)
    else
      var last := if c.last > i then c.last + 1 else c.last;
      (c.(regions := Cut(c.regions, i, at), iter := i + 1, last := last), c.iter)
  }

  function Split(c: Chain, len: nat): (Chain, nat)
    requires c.Valid()
  {
    var c1 := DoSplit(c, c.partial).0;
    var (c2, middle) := DoSplit(c1, len);
    (c2.(partial := 0), middle)
  }

  /** Set the next `blocks` blocks aside: everything from the split-off region up to the current one. */
  function ReserveOob(c: Chain, blocks: nat): (r: (Chain, bool))
    requires c.Valid()
  {
    var (c1, middle) := Split(c, blocks);
    if middle >= |c1.regions| then (c1, false)
    else
      var end := if middle <= c1.iter then c1.iter else |c1.regions|;
      (Moved(c1, middle, end), true)
  }

  /** Regions middle up to end moved to the back of the list set aside. */
  function Moved(c: Chain, middle: nat, end: nat): Chain
    requires middle <= end <= |c.regions|
  {
    c.(regions := c.regions[..middle] + c.regions[end..],
       iter := if c.iter >= end then c.iter - (end - middle) else c.iter,
       last := if c.last < middle then c.last else if c.last < end then middle - 1 else c.last - (end - middle),
       oob := c.oob + c.regions[middle..end])
  }

  /** The next block `blocks` further on. The position moves within the current region only: past its end the
      count of regions goes on but the current region stays. */
  function Advance(c: Chain, blocks: nat): (Chain, bool)
    requires c.iter <= |c.regions|
  {
    if c.iter == |c.regions| || blocks == 0 then (c, blocks == 0)
    else if c.regions[c.iter].len > c.partial + blocks then (c.(partial := c.partial + blocks), true)
    else AdvanceFrom(c.(partial := 0), c.iter + 1, blocks - (c.regions[c.iter].len - c.partial))
  }

  /** The rest of that loop, looking at region i with `blocks` still to go. */
  function AdvanceFrom(c: Chain, i: nat, blocks: int): (Chain, bool)
    requires c.iter <= |c.regions| && i <= |c.regions|
    decreases |c.regions| - i
  {
    if i == |c.regions| || blocks <= 0 then (c, blocks <= 0)
    else if c.regions[i].len > blocks then (c.(partial := blocks), true)
    else AdvanceFrom(c, i + 1, blocks - c.regions[i].len)
  }

  /** The last n blocks of the list's last region given up; a list whose only known region ends with that is emptied. */
  function Reduce(c: Chain, n: nat): Chain
    requires n > 0 ==> c.last == 0 < |c.regions| && n <= c.regions[0].len
  {
    if n == 0 then c
    else if c.regions[0].len > n then c.(regions := c.regions[0 := c.regions[0].(len := c.regions[0].len - n)])
    else Chain([], 0, 0, -1, c.oob)
  }

  function Rewind(c: Chain): Chain {
    c.(iter := 0, partial := 0)
  }

  // ----- which blocks a position means

  /** Position k of a list of regions is the k-th of their blocks. */
  lemma {:induction false} LocateIsBlock(rs: seq<Region>, i: nat, k: nat)
    requires i <= |rs|
    ensures var (j, at) := Locate(rs, i, k);
      (j < |rs| <==> k < Sum(rs[i..])) && (j < |rs| ==> rs[j].block + at == BlocksOf(rs[i..])[k])
    decreases |rs| - i
  {
    if i < |rs| {
      assert rs[i..][1..] == rs[i + 1..];
      if k >= rs[i].len { LocateIsBlock(rs, i + 1, k - rs[i].len); }
    }
  }

  lemma {:induction false} BlocksSplit(rs: seq<Region>, k: nat)
    requires k <= |rs|
    ensures BlocksOf(rs) == BlocksOf(rs[..k]) + BlocksOf(rs[k..])
  {
    if k > 0 {
      BlocksSplit(rs[1..], k - 1);
      assert rs[1..][..k - 1] == rs[..k][1..] && rs[1..][k - 1..] == rs[k..];
    } else {
      assert rs[..0] == [] && rs[0..] == rs;
    }
  }

  lemma LastBlocks(rs: seq<Region>)
    requires rs != []
    ensures BlocksOf(rs) == BlocksOf(rs[..|rs| - 1]) + RegionBlocks(rs[|rs| - 1])
    ensures Sum(rs) == Sum(rs[..|rs| - 1]) + rs[|rs| - 1].len
  {
    BlocksSplit(rs, |rs| - 1);
    assert rs[|rs| - 1..] == [rs[|rs| - 1]];
    assert [rs[|rs| - 1]][1..] == [];
  }

  lemma BlockAt(c: Chain, k: nat)
    requires c.iter == 0 && c.partial == 0
    ensures Block(c, k) == if k < Sum(c.regions) then Some(BlocksOf(c.regions)[k]) else None
  {
    LocateIsBlock(c.regions, 0, k);
    assert c.regions[0..] == c.regions;
  }

  // ----- the same operations on the lists of the program

  class Allocation {
    var regions: seq<Region>
    var iter: nat
    var partial: nat
    var last: int
    var oob: seq<Region>

    ghost function Value(): Chain
      reads this
    {
      Chain(regions, iter, partial, last, oob)
    }

    constructor (rs: seq<Region>)
      ensures Value() == NewChain(rs)
    {
      regions, iter, partial, oob := rs, 0, 0, [];
      last := if rs == [] then -1 else 0;
    }

    method GetBlock(k: nat) returns (block: Option<nat>)
      requires iter <= |regions|
      ensures block == Block(Value(), k)
    {
      var i, at: nat := iter, k + partial;
      while i < |regions|
        invariant iter <= i <= |regions| && Locate(regions, iter, k + partial) == Locate(regions, i, at)
      {
        if at < regions[i].len { return Some(regions[i].block + at); }
        i, at := i + 1, at - regions[i].len;
      }
      block := None;
    }

    method DoSplitAllocation(len: nat) returns (middle: nat)
      requires iter <= |regions|
      modifies this
      ensures (Value(), middle) == DoSplit(old(Value()), len)
    {
      var i, at: nat := iter, len;
      while i < |regions| && at >= regions[i].len
        invariant iter <= i <= |regions| && Locate(regions, iter, len) == Locate(regions, i, at)
      {
        i, at := i + 1, at - regions[i].len;
      }
      if i == |regions| || at == 0 { return i; }
      middle := iter;
      var front := regions[i].(len := at);
      var back := regions[i].(block := regions[i].block + at, len := regions[i].len - at);
      regions := regions[..i] + [front, back] + regions[i + 1..];
      iter := i + 1;
      if last > i { last := last + 1; }
    }

    method SplitAllocation(len: nat) returns (middle: nat)
      requires Value().Valid()
      modifies this
      ensures (Value(), middle) == Split(old(Value()), len)
    {
      var _ := DoSplitAllocation(partial);
      middle := DoSplitAllocation(len);
      partial := 0;
    }

    /** Moves one region after the other to the list set aside, until it meets the current region or the end. */
    method ReserveOobBlocks(blocks: nat) returns (ok: bool)
      requires Value().Valid()
      modifies this
      ensures (Value(), ok) == ReserveOob(old(Value()), blocks)
    {
      hide Moved, Split;
      SplitInRange(Value(), blocks);
      var middle := SplitAllocation(blocks);
      if middle >= |regions| { return false; }
      ghost var c := Value();
      ghost var end: nat := middle;
      MovedNone(c, middle);
      while middle < |regions| && middle != iter
        invariant middle <= end <= |c.regions| && (c.iter >= middle ==> end <= c.iter)
        invariant Value() == Moved(c, middle, end)
        decreases |regions| - middle
      {
        MovedSizes(c, middle, end);
        MoveOne(c, middle, end);
        oob := oob + [regions[middle]];
        regions := regions[..middle] + regions[middle + 1..];
        if last >= middle { last := last - 1; }
        if iter > middle { iter := iter - 1; }
        end := end + 1;
      }
      MovedSizes(c, middle, end);
      ok := true;
    }

    method AdvanceBlocks(blocks: nat) returns (ok: bool)
      requires Value().Valid()
      modifies this`partial
      ensures (Value(), ok) == Advance(old(Value()), blocks)
    {
      var i, left: int := iter, blocks;
      ghost var c := Value();
      while i < |regions| && left > 0
        invariant iter <= i <= |regions|
        invariant (i == iter && left == blocks && partial == c.partial)
               || (i > iter && partial == 0 && c.iter < |regions| && blocks > 0
                 && Advance(c, blocks) == AdvanceFrom(Value(), i, left))
      {
        if regions[i].len > partial + left {
          partial := partial + left;
          return true;
        }
        left := left - (regions[i].len - partial);
        partial := 0;
        i := i + 1;
      }
      ok := left <= 0;
    }

    /** Give the last n blocks back to their group. */
    method ReduceAllocation(blocks: Blocks, n: nat)
      requires blocks.Valid() && Value().Valid()
      requires n > 0 ==>
        && last == 0 < |regions| && n <= regions[0].len
        && regions[0].bg < |blocks.groups| && n <= blocks.groups[regions[0].bg].firstFreeBlock
      modifies this, blocks.groups, set g <- blocks.groups :: g.bitmap
      ensures blocks.Valid()
      ensures Value() == Reduce(old(Value()), n)
      ensures n > 0 ==> blocks.Views() == Give(old(blocks.Views()), old(regions[0].bg), n)
      ensures n == 0 ==> blocks.Views() == old(blocks.Views())
    {
      if n == 0 { return; }
      if regions[0].len > n {
        blocks.FreeFrom(regions[0].bg, n);
        regions := regions[0 := regions[0].(len := regions[0].len - n)];
      } else {
        blocks.FreeFrom(regions[0].bg, regions[0].len);
        regions, iter, partial, last := [], 0, 0, -1;
      }
    }
  }

  lemma SplitInRange(c: Chain, len: nat)
    requires c.Valid()
    ensures Split(c, len).0.iter <= |Split(c, len).0.regions|
  {
  }

  lemma MovedNone(c: Chain, middle: nat)
    requires middle <= |c.regions|
    ensures Moved(c, middle, middle) == c
  {
    assert c.regions[..middle] + c.regions[middle..] == c.regions;
    assert c.oob + c.regions[middle..middle] == c.oob;
  }

  lemma MovedSizes(c: Chain, middle: nat, end: nat)
    requires middle <= end <= |c.regions| && (c.iter >= middle ==> end <= c.iter)
    ensures var m := Moved(c, middle, end);
      && |m.regions| == |c.regions| - (end - middle)
      && m.iter == if c.iter >= middle then c.iter - (end - middle) else c.iter
  {
  }

  /** Moving one more region, as the list operations do it. */
  lemma MoveOne(c: Chain, middle: nat, end: nat)
    requires middle <= end < |c.regions| && (c.iter >= middle ==> end < c.iter)
    ensures var m := Moved(c, middle, end);
      && middle < |m.regions|
      && Moved(c, middle, end + 1) ==
         Chain(m.regions[..middle] + m.regions[middle + 1..], if m.iter > middle then m.iter - 1 else m.iter, m.partial,
               if m.last >= middle then m.last - 1 else m.last, m.oob + [m.regions[middle]])
  {
    var m := Moved(c, middle, end);
    assert c.regions[middle..end + 1] == c.regions[middle..end] + [c.regions[end]];
    assert m.regions[middle + 1..] == c.regions[end + 1..];
  }
}
