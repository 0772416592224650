/** Setting aside the indirect blocks of a file among the blocks allocated to it. */
module Indirect {
  import opened Arith
  import opened Allocator
  import opened Regions

  const DIRECT: nat := 12

  /** How many blocks one indirect, doubly indirect and triply indirect block leads to. */
  datatype Fan = Fan(ind: pos, dind: pos, tind: nat)

  /** The numbers as the program computes them, in 32 bits; the last one is the square of the one before. */
  function FanOf(blockSize: nat): Fan
    requires 1024 <= blockSize <= 0x1_0000
  {
    var ind: pos := blockSize / 4;
    FanFits(ind);
    Fan(ind, U32(ind * ind), U32(U32(ind * ind) * U32(ind * ind)))
  }

  lemma FanFits(ind: pos)
    requires ind <= 0x4000
    ensures 0 < ind * ind < 0x1_0000_0000
  {
    MulMonotone(1, ind, ind);
    MulMonotone(ind, 0x4000, ind);
  }

  /** The indirect blocks a file of len blocks needs; a file that is too large stops the program, be it by its own
      check or by a division by zero. */
  function Needed(len0: nat, f: Fan): Option<nat> {
    if len0 <= DIRECT then Some(0) else
    var len := len0 - DIRECT;
    var ind := DivRoundUp(len, f.ind);
    if len <= f.ind then Some(ind) else
    var len := len - f.ind;
    var ind := ind + DivRoundUp(len, f.dind);
    if len <= f.dind then Some(ind) else
    var len := len - f.dind;
    if f.tind == 0 then None else
    var ind := ind + DivRoundUp(len, f.tind);
    if len <= f.tind then Some(ind) else None
  }

  method IndirectBlocksNeeded(len0: nat, f: Fan) returns (needed: Option<nat>)
    ensures needed == Needed(len0, f)
  {
    var ind, len: nat := 0, len0;
    if len <= DIRECT { return Some(ind); }
    len := len - DIRECT;
    ind := ind + DivRoundUp(len, f.ind);
    if len <= f.ind { return Some(ind); }
    len := len - f.ind;
    ind := ind + DivRoundUp(len, f.dind);
    if len <= f.dind { return Some(ind); }
    len := len - f.dind;
    if f.tind == 0 { return None; }
    ind := ind + DivRoundUp(len, f.tind);
    if len <= f.tind { return Some(ind); }
    needed := None;
  }

  // ----- the operations

  lemma {:induction false} AdvanceFromKeepsValid(c: Chain, i: nat, blocks: int)
    requires c.Valid() && i <= |c.regions|
    ensures var c' := AdvanceFrom(c, i, blocks).0;
      c'.Valid() && c'.regions == c.regions && c'.iter == c.iter && c'.oob == c.oob
    decreases |c.regions| - i
  {
    if i < |c.regions| && blocks > 0 && c.regions[i].len <= blocks {
      AdvanceFromKeepsValid(c, i + 1, blocks - c.regions[i].len);
    }
  }

  /** Moving the position never moves it to another region of the list. */
  lemma AdvanceKeepsValid(c: Chain, blocks: nat)
    requires c.Valid()
    ensures var c' := Advance(c, blocks).0;
      c'.Valid() && c'.regions == c.regions && c'.iter == c.iter && c'.oob == c.oob
  {
    if c.iter < |c.regions| && blocks > 0 && c.regions[c.iter].len <= c.partial + blocks {
      AdvanceFromKeepsValid(c.(partial := 0), c.iter + 1, blocks - (c.regions[c.iter].len - c.partial));
    }
  }

  lemma DoSplitKeepsValid(c: Chain, len: nat)
    requires c.Valid()
    ensures DoSplit(c, len).0.Valid() && DoSplit(c, len).1 <= |DoSplit(c, len).0.regions|
  {
  }

  lemma ReserveKeepsValid(c: Chain, blocks: nat)
    requires c.Valid()
    ensures ReserveOob(c, blocks).0.Valid()
  {
    hide DoSplit;
    DoSplitKeepsValid(c, c.partial);
    DoSplitKeepsValid(DoSplit(c, c.partial).0, blocks);
  }

  function ReserveIndirect(c: Chain, len: nat): (r: Chain)
    requires c.Valid()
    ensures r.Valid()
  {
    ReserveKeepsValid(c, 1);
    var (c1, ok) := ReserveOob(c, 1);
    if !ok then c1 else
    AdvanceKeepsValid(c1, len);
    Advance(c1, len).0
  }

  function IndirectLoop(c: Chain, len: nat, f: Fan): (r: Chain)
    requires c.Valid()
    ensures r.Valid()
    decreases len
  {
    if len == 0 then c else IndirectLoop(ReserveIndirect(c, Min(f.ind, len)), len - Min(f.ind, len), f)
  }

  function ReserveDindirect(c: Chain, len: nat, f: Fan): (r: Chain)
    requires c.Valid()
    ensures r.Valid()
  {
    ReserveKeepsValid(c, 1);
    var (c1, ok) := ReserveOob(c, 1);
    if !ok then c1 else IndirectLoop(c1, len, f)
  }

  function DindirectLoop(c: Chain, len: nat, f: Fan): (r: Chain)
    requires c.Valid()
    ensures r.Valid()
    decreases len
  {
    if len == 0 then c else DindirectLoop(ReserveDindirect(c, Min(f.dind, len), f), len - Min(f.dind, len), f)
  }

  function ReserveTindirect(c: Chain, len: nat, f: Fan): (r: Chain)
    requires c.Valid()
    ensures r.Valid()
  {
    ReserveKeepsValid(c, 1);
    var (c1, ok) := ReserveOob(c, 1);
    if !ok then c1 else DindirectLoop(c1, len, f)
  }

  function ReserveAll(c: Chain, len0: nat, f: Fan): (r: Chain)
    requires c.Valid()
    ensures r.Valid()
  {
    if len0 <= DIRECT then c else
    AdvanceKeepsValid(c, DIRECT);
    var c := Advance(c, DIRECT).0;
    var len := len0 - DIRECT;
    var c := ReserveIndirect(c, Min(f.ind, len));
    var len := len - Min(f.ind, len);
    if len == 0 then c else
    var c := ReserveDindirect(c, Min(f.dind, len), f);
    var len := len - Min(f.dind, len);
    if len == 0 then c else ReserveTindirect(c, Min(f.tind, len), f)
  }

  method ReserveIndirectBlock(a: Allocation, len: nat)
    requires a.Value().Valid()
    modifies a
    ensures a.Value() == ReserveIndirect(old(a.Value()), len)
  {
    ReserveKeepsValid(a.Value(), 1);
    var ok := a.ReserveOobBlocks(1);
    if !ok { return; }
    ok := a.AdvanceBlocks(len);
  }

  method ReserveDindirectBlock(a: Allocation, len: nat, f: Fan)
    requires a.Value().Valid()
    modifies a
    ensures a.Value() == ReserveDindirect(old(a.Value()), len, f)
  {
    hide ReserveOob, ReserveIndirect, NonEmpty;
    ReserveKeepsValid(a.Value(), 1);
    var ok := a.ReserveOobBlocks(1);
    if !ok { return; }
    var left: nat := len;
    ghost var c := a.Value();
    while left > 0
      invariant a.Value().Valid() && IndirectLoop(c, len, f) == IndirectLoop(a.Value(), left, f)
    {
      var n: nat := Min(f.ind, left);
      ReserveIndirectBlock(a, n);
      left := left - n;
    }
  }

  method ReserveTindirectBlock(a: Allocation, len: nat, f: Fan)
    requires a.Value().Valid()
    modifies a
    ensures a.Value() == ReserveTindirect(old(a.Value()), len, f)
  {
    hide ReserveOob, ReserveDindirect, NonEmpty;
    ReserveKeepsValid(a.Value(), 1);
    var ok := a.ReserveOobBlocks(1);
    if !ok { return; }
    var left: nat := len;
    ghost var c := a.Value();
    while left > 0
      invariant a.Value().Valid() && DindirectLoop(c, len, f) == DindirectLoop(a.Value(), left, f)
    {
      var n: nat := Min(f.dind, left);
      ReserveDindirectBlock(a, n, f);
      left := left - n;
    }
  }

  method ReserveAllIndirectBlocks(a: Allocation, len0: nat, f: Fan)
    requires a.Value().Valid()
    modifies a
    ensures a.Value() == ReserveAll(old(a.Value()), len0, f)
  {
    hide ReserveIndirect, ReserveDindirect, ReserveTindirect;
    if len0 <= DIRECT { return; }
    var len: nat := len0 - DIRECT;
    AdvanceKeepsValid(a.Value(), DIRECT);
    var _ := a.AdvanceBlocks(DIRECT);
    var n: nat := Min(f.ind, len);
    ReserveIndirectBlock(a, n);
    len := len - n;
    if len == 0 { return; }
    n := Min(f.dind, len);
    ReserveDindirectBlock(a, n, f);
    len := len - n;
    if len == 0 { return; }
    ReserveTindirectBlock(a, Min(f.tind, len), f);
  }

  // ----- one contiguous allocation

  /** Of the blocks up to `end`, all allocated in one run, those before `pos` are dealt out: `data` to the file,
      `oob` set aside, in order. */
  ghost predicate Dealt(c: Chain, end: nat, pos: nat, data: seq<nat>, oob: seq<nat>) {
    && c.Valid() && c.regions != [] && c.iter == |c.regions| - 1
    && var rest := c.regions[c.iter];
    && c.partial < rest.len && rest.block + c.partial == pos && rest.block + rest.len == end
    && data == BlocksOf(c.regions[..c.iter]) + Run(rest.block, c.partial)
    && oob == BlocksOf(c.oob)
  }

  /** The same once nothing is left. */
  ghost predicate AllDealt(c: Chain, data: seq<nat>, oob: seq<nat>) {
    c.Valid() && data == BlocksOf(c.regions) && oob == BlocksOf(c.oob)
  }

  /** The blocks before `pos` are dealt out, and perhaps nothing is left. */
  ghost predicate DealtTo(c: Chain, end: nat, pos: nat, data: seq<nat>, oob: seq<nat>) {
    if pos < end then Dealt(c, end, pos, data, oob) else pos == end && AllDealt(c, data, oob)
  }

  lemma Append(rs: seq<Region>, r: Region)
    ensures BlocksOf(rs + [r]) == BlocksOf(rs) + RegionBlocks(r)
  {
    LastBlocks(rs + [r]);
    assert (rs + [r])[..|rs|] == rs;
  }

  /** One block set aside. */
  lemma ReserveDeals(c: Chain, end: nat, pos: nat, data: seq<nat>, oob: seq<nat>)
    requires Dealt(c, end, pos, data, oob) && pos + 1 < end
    ensures ReserveOob(c, 1).1
    ensures var c' := ReserveOob(c, 1).0;
      Dealt(c', end, pos + 1, data, oob + [pos]) && c'.partial == 0 && KeepsHead(c, c')
  {
    hide ReserveOob, NonEmpty, BlocksOf, RegionBlocks;
    var rest, done := c.regions[c.iter], c.regions[..c.iter];
    var front, back := rest.(len := c.partial), Region(pos + 1, end - pos - 1, rest.bg);
    var c' := ReserveOob(c, 1).0;
    ReserveKeepsValid(c, 1);
    ReserveIs(c);
    Append(done, front);
    OneBlock(pos, rest.bg);
    Append(c.oob, Region(pos, 1, rest.bg));
    var d := if c.partial > 0 then done + [front] else done;
    assert c'.regions == d + [back];
    assert c'.regions[..c'.iter] == d;
    FrontBlocks(front);
    assert BlocksOf(d) + Run(back.block, 0) == BlocksOf(d) + [] == BlocksOf(d);
    assert c.partial == 0 ==> BlocksOf(done) + Run(rest.block, 0) == BlocksOf(done) + [] == BlocksOf(done);
  }

  /** A first region that lies in front of the position stays. */
  ghost predicate KeepsHead(c: Chain, c': Chain) {
    0 < c.iter <= |c.regions| ==> 0 < c'.iter <= |c'.regions| && c'.regions[0] == c.regions[0]
  }

  lemma OneBlock(pos: nat, bg: nat)
    ensures RegionBlocks(Region(pos, 1, bg)) == [pos]
  {
  }

  lemma FrontBlocks(r: Region)
    ensures RegionBlocks(r) == Run(r.block, r.len)
  {
  }

  /** Splitting the last region, which is the current one. */
  lemma SplitLast(c: Chain, done: seq<Region>, rest: Region, q: nat)
    requires c.regions == done + [rest] && c.iter == |done| && q < rest.len
    ensures var (c', middle) := DoSplit(c, q);
      && middle == |done| && c'.oob == c.oob && c'.partial == c.partial
      && c'.regions == done + (if q > 0 then [rest.(len := q)] else [])
          + [Region(rest.block + q, rest.len - q, rest.bg)]
      && c'.iter == |c'.regions| - 1
  {
    assert Locate(c.regions, c.iter, q) == (c.iter, q);
    if q > 0 {
      var back := Region(rest.block + q, rest.len - q, rest.bg);
      assert Cut(c.regions, c.iter, q) == done + [rest.(len := q)] + [back];
    } else {
      assert done + [] + [rest] == done + [rest];
    }
  }

  /** Moving the region in front of the current one, the last of the list. */
  lemma MoveFront(c: Chain, done: seq<Region>, front: Region, rest: Region)
    requires c.regions == done + [front] + [rest] && c.iter == |done| + 1
    ensures var c' := Moved(c, |done|, |done| + 1);
      c'.regions == done + [rest] && c'.iter == |done| && c'.partial == c.partial && c'.oob == c.oob + [front]
  {
    assert c.regions[..|done|] == done;
    assert c.regions[|done| + 1..] == [rest];
    assert c.regions[|done|..|done| + 1] == [front];
  }

  /** The list after setting one block aside in the last region. */
  lemma ReserveIs(c: Chain)
    requires c.Valid() && c.regions != [] && c.iter == |c.regions| - 1
    requires c.partial + 1 < c.regions[c.iter].len
    ensures var rest, (c', ok) := c.regions[c.iter], ReserveOob(c, 1);
      var pos := rest.block + c.partial;
      && ok && c'.partial == 0
      && c'.oob == c.oob + [Region(pos, 1, rest.bg)]
      && c'.regions == c.regions[..c.iter] + (if c.partial > 0 then [rest.(len := c.partial)] else [])
                       + [Region(pos + 1, rest.len - c.partial - 1, rest.bg)]
      && c'.iter == |c'.regions| - 1
  {
    hide DoSplit, Moved, NonEmpty;
    var q, rest, done := c.partial, c.regions[c.iter], c.regions[..c.iter];
    var d := done + if q > 0 then [rest.(len := q)] else [];
    var tail := Region(rest.block + q, rest.len - q, rest.bg);
    var front, back := Region(tail.block, 1, rest.bg), Region(tail.block + 1, tail.len - 1, rest.bg);
    assert c.regions == done + [rest];
    SplitLast(c, done, rest, q);
    var c1 := DoSplit(c, q).0;
    assert c1.regions == d + [tail];
    SplitLast(c1, d, tail, 1);
    var c2 := DoSplit(c1, 1).0.(partial := 0);
    assert c2.regions == d + [front] + [back];
    MoveFront(c2, d, front, back);
  }

  /** Data blocks passed over; the last ones end the list. */
  lemma AdvanceDeals(c: Chain, end: nat, pos: nat, data: seq<nat>, oob: seq<nat>, n: nat)
    requires Dealt(c, end, pos, data, oob) && pos + n <= end && n > 0 && c.partial == 0
    ensures DealtTo(Advance(c, n).0, end, pos + n, data + Run(pos, n), oob)
  {
    AdvanceKeepsValid(c, n);
    var rest := c.regions[c.iter];
    assert Run(rest.block, 0) == [] && data + [] == data;
    if pos + n < end {
    } else {
      LastBlocks(c.regions);
    }
  }

  // ----- the order in which the blocks are dealt out

  /** The data and the set-aside blocks of a stretch of indirect blocks and their data, from block pos on. */
  function Chunks(pos: nat, len: nat, ind: pos): (r: (seq<nat>, seq<nat>))
    decreases len
  {
    if len == 0 then ([], []) else
    var n := Min(ind, len);
    var (data, oob) := Chunks(pos + 1 + n, len - n, ind);
    (Run(pos + 1, n) + data, [pos] + oob)
  }

  function ChunkBlocks(len: nat, ind: pos): nat
    decreases len
  {
    if len == 0 then 0 else 1 + Min(ind, len) + ChunkBlocks(len - Min(ind, len), ind)
  }

  lemma {:induction false} ChunkBlocksIs(len: nat, ind: pos)
    ensures ChunkBlocks(len, ind) == len + DivRoundUp(len, ind)
    decreases len
  {
    if len == 0 {
      DivModUnique(ind, 0, ind - 1);
    } else {
      var n: nat := Min(ind, len);
      ChunkBlocksIs(len - n, ind);
      RoundUpStep(len, ind);
    }
  }

  /** One indirect block more for each `ind` data blocks begun. */
  lemma RoundUpStep(len: nat, ind: pos)
    requires len > 0
    ensures DivRoundUp(len, ind) == 1 + DivRoundUp(len - Min(ind, len), ind)
  {
    var k: nat := ind - 1;
    if len <= ind {
      DivModUnique(ind, 1, len - 1);
      DivModUnique(ind, 0, k);
    } else {
      var x: nat := len - ind + k;
      DivModParts(x, ind);
      DivModUnique(ind, x / ind + 1, x % ind);
      assert (x / ind + 1) * ind + x % ind == x + ind;
    }
  }

  /** A position with blocks left, or the end: both are valid lists. */
  lemma DealtToValid(c: Chain, end: nat, pos: nat, data: seq<nat>, oob: seq<nat>)
    requires DealtTo(c, end, pos, data, oob)
    ensures c.Valid() && (pos < end ==> Dealt(c, end, pos, data, oob))
  {
  }

  lemma {:induction false} LoopDeals(c: Chain, end: nat, pos: nat, data: seq<nat>, oob: seq<nat>, len: nat, f: Fan)
    requires c.Valid() && Dealt(c, end, pos, data, oob) && len > 0 && pos + ChunkBlocks(len, f.ind) <= end
    ensures var (d, o) := Chunks(pos, len, f.ind);
      DealtTo(IndirectLoop(c, len, f), end, pos + ChunkBlocks(len, f.ind), data + d, oob + o)
    ensures KeepsHead(c, IndirectLoop(c, len, f))
    decreases len
  {
    hide Dealt, AllDealt, DealtTo, ReserveOob, Advance, Run, KeepsHead, NonEmpty;
    var n: nat := Min(f.ind, len);
    ReserveDeals(c, end, pos, data, oob);
    var c1 := ReserveOob(c, 1).0;
    AdvanceDeals(c1, end, pos + 1, data, oob + [pos], n);
    ReserveKeepsValid(c, 1);
    AdvanceKeepsHead(c, c1, n);
    var c2 := ReserveIndirect(c, n);
    var (d, o) := Chunks(pos + 1 + n, len - n, f.ind);
    if len > n {
      DealtToValid(c2, end, pos + 1 + n, data + Run(pos + 1, n), oob + [pos]);
      LoopDeals(c2, end, pos + 1 + n, data + Run(pos + 1, n), oob + [pos], len - n, f);
      HeadStays(c, c2, IndirectLoop(c2, len - n, f));
      assert data + Run(pos + 1, n) + d == data + (Run(pos + 1, n) + d);
      assert oob + [pos] + o == oob + ([pos] + o);
    } else {
      assert d == [] && o == [];
      assert Run(pos + 1, n) + [] == Run(pos + 1, n) && [pos] + [] == [pos];
    }
  }

  lemma HeadStays(c: Chain, c': Chain, c'': Chain)
    requires KeepsHead(c, c') && KeepsHead(c', c'')
    ensures KeepsHead(c, c'')
  {
  }

  lemma AdvanceKeepsHead(c: Chain, c': Chain, n: nat)
    requires c'.Valid() && KeepsHead(c, c')
    ensures KeepsHead(c, Advance(c', n).0)
  {
    hide Advance;
    AdvanceKeepsValid(c', n);
  }

  /** A doubly indirect block at `pos` and the indirect blocks and data below it. */
  lemma DindirectDeals(c: Chain, end: nat, pos: nat, data: seq<nat>, oob: seq<nat>, len: nat, f: Fan)
    requires c.Valid() && Dealt(c, end, pos, data, oob) && len > 0 && pos + 1 + ChunkBlocks(len, f.ind) <= end
    ensures var (d, o) := Chunks(pos + 1, len, f.ind);
      DealtTo(ReserveDindirect(c, len, f), end, pos + 1 + ChunkBlocks(len, f.ind), data + d, oob + ([pos] + o))
    ensures KeepsHead(c, ReserveDindirect(c, len, f))
  {
    hide Dealt, AllDealt, DealtTo, ReserveOob, Run, IndirectLoop, Chunks;
    SomeBlocks(len, f.ind);
    ReserveDeals(c, end, pos, data, oob);
    ReserveKeepsValid(c, 1);
    LoopDeals(ReserveOob(c, 1).0, end, pos + 1, data, oob + [pos], len, f);
    assert oob + [pos] + Chunks(pos + 1, len, f.ind).1 == oob + ([pos] + Chunks(pos + 1, len, f.ind).1);
  }

  lemma SomeBlocks(len: nat, ind: pos)
    requires len > 0
    ensures ChunkBlocks(len, ind) > 0
  {
  }

  /** The data and the set-aside blocks of a stretch of doubly indirect blocks, from block pos on. */
  function Nest(pos: nat, len: nat, f: Fan): (r: (seq<nat>, seq<nat>))
    decreases len
  {
    if len == 0 then ([], []) else
    var n := Min(f.dind, len);
    var (d, o) := Chunks(pos + 1, n, f.ind);
    var (data, oob) := Nest(pos + 1 + ChunkBlocks(n, f.ind), len - n, f);
    (d + data, [pos] + o + oob)
  }

  function NestBlocks(len: nat, f: Fan): nat
    decreases len
  {
    if len == 0 then 0 else
    1 + ChunkBlocks(Min(f.dind, len), f.ind) + NestBlocks(len - Min(f.dind, len), f)
  }

  lemma {:induction false} NestDeals(c: Chain, end: nat, pos: nat, data: seq<nat>, oob: seq<nat>, len: nat, f: Fan)
    requires c.Valid() && Dealt(c, end, pos, data, oob) && len > 0 && pos + NestBlocks(len, f) <= end
    ensures var (d, o) := Nest(pos, len, f);
      DealtTo(DindirectLoop(c, len, f), end, pos + NestBlocks(len, f), data + d, oob + o)
    ensures KeepsHead(c, DindirectLoop(c, len, f))
    decreases len
  {
    hide Dealt, AllDealt, DealtTo, ReserveDindirect, ChunkBlocks, Chunks;
    var n: nat := Min(f.dind, len);
    var next: nat := pos + 1 + ChunkBlocks(n, f.ind);
    DindirectDeals(c, end, pos, data, oob, n, f);
    var c' := ReserveDindirect(c, n, f);
    var (d, o) := Chunks(pos + 1, n, f.ind);
    var (d', o') := Nest(next, len - n, f);
    if len > n {
      NestStarts(len - n, f);
      DealtToValid(c', end, next, data + d, oob + ([pos] + o));
      NestDeals(c', end, next, data + d, oob + ([pos] + o), len - n, f);
      assert data + d + d' == data + (d + d');
      assert oob + ([pos] + o) + o' == oob + ([pos] + o + o');
    } else {
      assert d' == [] && o' == [] && NestBlocks(0, f) == 0;
      assert d + [] == d && [pos] + o + [] == [pos] + o;
    }
  }

  lemma NestStarts(len: nat, f: Fan)
    requires len > 0
    ensures NestBlocks(len, f) > 0
  {
    hide ChunkBlocks;
  }

  /** The blocks behind the first indirect one's, from block pos on: the doubly indirect part, then the triply
      indirect one. */
  function Below(pos: nat, len: nat, f: Fan): (r: (seq<nat>, seq<nat>)) {
    if len == 0 then ([], []) else
    var n := Min(f.dind, len);
    var (d, o) := Chunks(pos + 1, n, f.ind);
    var next: nat := pos + 1 + ChunkBlocks(n, f.ind);
    if len == n then (d, [pos] + o) else
    var (data, oob) := Nest(next + 1, len - n, f);
    (d + data, [pos] + o + ([next] + oob))
  }

  function BelowBlocks(len: nat, f: Fan): nat {
    if len == 0 then 0 else
    var n := Min(f.dind, len);
    1 + ChunkBlocks(n, f.ind) + if len == n then 0 else 1 + NestBlocks(len - n, f)
  }

  /** A triply indirect block at `pos` and what lies below it. */
  lemma TindirectDeals(c: Chain, end: nat, pos: nat, data: seq<nat>, oob: seq<nat>, len: nat, f: Fan)
    requires c.Valid() && Dealt(c, end, pos, data, oob) && len > 0 && pos + 1 + NestBlocks(len, f) <= end
    ensures var (d, o) := Nest(pos + 1, len, f);
      DealtTo(ReserveTindirect(c, len, f), end, pos + 1 + NestBlocks(len, f), data + d, oob + ([pos] + o))
    ensures KeepsHead(c, ReserveTindirect(c, len, f))
  {
    hide Dealt, AllDealt, DealtTo, ReserveOob, Run, DindirectLoop, Nest;
    NestStarts(len, f);
    ReserveDeals(c, end, pos, data, oob);
    ReserveKeepsValid(c, 1);
    NestDeals(ReserveOob(c, 1).0, end, pos + 1, data, oob + [pos], len, f);
    assert oob + [pos] + Nest(pos + 1, len, f).1 == oob + ([pos] + Nest(pos + 1, len, f).1);
  }

  /** What is set aside behind the first indirect block and its data. */
  function ReserveRest(c: Chain, len: nat, f: Fan): Chain
    requires c.Valid()
  {
    if len == 0 then c else
    var n := Min(f.dind, len);
    var c := ReserveDindirect(c, n, f);
    if len == n then c else ReserveTindirect(c, Min(f.tind, len - n), f)
  }

  lemma RestDeals(c: Chain, end: nat, pos: nat, data: seq<nat>, oob: seq<nat>, len: nat, f: Fan)
    requires c.Valid() && len > 0 && len <= f.dind + f.tind
    requires Dealt(c, end, pos, data, oob) && end == pos + BelowBlocks(len, f)
    ensures var (d, o) := Below(pos, len, f); AllDealt(ReserveRest(c, len, f), data + d, oob + o)
    ensures KeepsHead(c, ReserveRest(c, len, f))
  {
    hide Dealt, AllDealt, ReserveDindirect, ReserveTindirect, ChunkBlocks, NestBlocks, Chunks, Nest;
    var n: nat := Min(f.dind, len);
    var next: nat := pos + 1 + ChunkBlocks(n, f.ind);
    var (d, o) := Chunks(pos + 1, n, f.ind);
    DindirectDeals(c, end, pos, data, oob, n, f);
    if len > n {
      var c' := ReserveDindirect(c, n, f);
      TindirectDeals(c', end, next, data + d, oob + ([pos] + o), len - n, f);
      var (d', o') := Nest(next + 1, len - n, f);
      assert data + d + d' == data + (d + d');
      assert oob + ([pos] + o) + ([next] + o') == oob + ([pos] + o + ([next] + o'));
    }
  }

  /** The data blocks of a file of len blocks that starts at block b, in file order. */
  function DataOrder(b: nat, len: nat, f: Fan): seq<nat> {
    if len <= DIRECT then Run(b, len) else
    var n := Min(f.ind, len - DIRECT);
    Run(b, DIRECT) + Run(b + 13, n) + Below(b + 13 + n, len - DIRECT - n, f).0
  }

  /** Its indirect blocks in the order in which they are attached, each before those below it. */
  function OobOrder(b: nat, len: nat, f: Fan): seq<nat> {
    if len <= DIRECT then [] else
    var n := Min(f.ind, len - DIRECT);
    [b + 12] + Below(b + 13 + n, len - DIRECT - n, f).1
  }

  /** The files that indirect blocks lead to; a doubly indirect block leads to `ind` indirect ones. */
  ghost predicate InRange(len: nat, f: Fan) {
    f.dind == f.ind * f.ind && len <= DIRECT + f.ind + f.dind + f.tind
  }

  lemma OneForAll(len: nat, n: pos)
    requires 0 < len <= n
    ensures DivRoundUp(len, n) == 1
  {
    RoundUpStep(len, n);
    DivModUnique(n, 0, n - 1);
  }

  lemma RoundUpShift(len: nat, k: nat, n: pos)
    ensures DivRoundUp(len + k * n, n) == k + DivRoundUp(len, n)
  {
    var x: nat := len + n - 1;
    DivModParts(x, n);
    DivModUnique(n, k + x / n, x % n);
    assert (k + x / n) * n == k * n + x / n * n;
  }

  /** A file is too large exactly when it has more blocks than indirect blocks of all three kinds lead to. */
  lemma NeededExactly(len: nat, f: Fan)
    ensures Needed(len, f).None? <==> len > DIRECT + f.ind + f.dind + f.tind
  {
    hide DivRoundUp;
  }

  /** For block sizes that are multiples of 1024 the number kept for a triply indirect block is 0: it is a multiple of
      2^32. So every file that would need such a block stops the program. */
  lemma NoTriplyIndirect(blockSize: nat, len: nat)
    requires 1024 <= blockSize <= 0x1_0000 && blockSize % 1024 == 0
    ensures var f := FanOf(blockSize);
      && f.ind == blockSize / 4 && f.dind == f.ind * f.ind && f.tind == 0
      && (Needed(len, f).None? <==> len > DIRECT + f.ind + f.dind)
  {
    hide Needed;
    var k, ind: pos := blockSize / 1024, blockSize / 4;
    assert ind == 256 * k;
    FanFits(ind);
    var q := k * k * (k * k);
    assert ind * ind == 0x1_0000 * (k * k);
    assert ind * ind * (ind * ind) == q * 0x1_0000_0000 by {
      FourthPower(ind * ind, k * k);
    }
    DivModUnique(0x1_0000_0000, q, 0);
    NeededExactly(len, FanOf(blockSize));
  }

  lemma FourthPower(x: nat, y: nat)
    requires x == 0x1_0000 * y
    ensures x * x == y * y * 0x1_0000_0000
  {
    assert x * x == 0x1_0000 * (y * x);
    assert y * x == y * y * 0x1_0000;
  }

  /** The count of indirect blocks is how many are set aside. */
  lemma NeededIs(len: nat, f: Fan)
    requires InRange(len, f)
    ensures Needed(len, f).Some?
    ensures len <= DIRECT ==> Needed(len, f).value == 0
    ensures len > DIRECT ==>
      var n := Min(f.ind, len - DIRECT); len + Needed(len, f).value == DIRECT + 1 + n + BelowBlocks(len - DIRECT - n, f)
  {
    hide DivRoundUp, NestBlocks, ChunkBlocks;
    if len > DIRECT {
      var left: nat := len - DIRECT;
      if left <= f.ind {
        OneForAll(left, f.ind);
      } else {
        RoundUpShift(left - f.ind, 1, f.ind);
        NeededBelow(left - f.ind, f);
      }
    }
  }

  lemma NeededBelow(len: nat, f: Fan)
    requires f.dind == f.ind * f.ind && 0 < len <= f.dind + f.tind
    ensures len + DivRoundUp(len, f.ind) + DivRoundUp(len, f.dind)
            + (if len <= f.dind then 0 else DivRoundUp(len - f.dind, f.tind)) == BelowBlocks(len, f)
  {
    hide DivRoundUp, NestBlocks, ChunkBlocks;
    if len <= f.dind {
      OneForAll(len, f.dind);
      ChunkBlocksIs(len, f.ind);
    } else {
      var left: nat := len - f.dind;
      OneForAll(left, f.tind);
      RoundUpShift(left, 1, f.dind);
      RoundUpShift(left, f.ind, f.ind);
      FullChunks(f);
      NestBlocksIs(left, f);
    }
  }

  lemma FullChunks(f: Fan)
    requires f.dind == f.ind * f.ind
    ensures ChunkBlocks(f.dind, f.ind) == f.dind + f.ind
  {
    hide DivRoundUp;
    ChunkBlocksIs(f.dind, f.ind);
    RoundUpShift(0, f.ind, f.ind);
    NoneForNothing(f.ind);
  }

  lemma NoneForNothing(n: pos)
    ensures DivRoundUp(0, n) == 0
  {
    DivModUnique(n, 0, n - 1);
  }

  lemma {:induction false} NestBlocksIs(len: nat, f: Fan)
    requires f.dind == f.ind * f.ind
    ensures NestBlocks(len, f) == len + DivRoundUp(len, f.ind) + DivRoundUp(len, f.dind)
    decreases len
  {
    hide DivRoundUp, ChunkBlocks;
    NoneForNothing(f.ind);
    NoneForNothing(f.dind);
    if 0 < len <= f.dind {
      ChunkBlocksIs(len, f.ind);
      OneForAll(len, f.dind);
      assert NestBlocks(0, f) == 0;
    } else if len > 0 {
      NestBlocksIs(len - f.dind, f);
      FullChunks(f);
      RoundUpShift(len - f.dind, f.ind, f.ind);
      RoundUpShift(len - f.dind, 1, f.dind);
    }
  }

  /** On one run of exactly the blocks needed, the list ends up with the file's blocks and the list set aside
      with the indirect blocks, each in the order in which the program attaches them. */
  lemma ReserveAllDeals(b: nat, bg: nat, len: nat, f: Fan)
    requires InRange(len, f) && len > 0
    ensures Needed(len, f).Some?
    ensures var c := NewChain([Region(b, len + Needed(len, f).value, bg)]);
      c.Valid() && AllDealt(ReserveAll(c, len, f), DataOrder(b, len, f), OobOrder(b, len, f))
  {
    hide Dealt, AllDealt, Below, BelowBlocks, ReserveAll;
    NeededIs(len, f);
    var size := len + Needed(len, f).value;
    Start(b, bg, size);
    if len > DIRECT { FromStart(NewChain([Region(b, size, bg)]), b, len, f, size); } else { SmallIsAll(b, bg, len, f); }
  }

  lemma SmallIsAll(b: nat, bg: nat, len: nat, f: Fan)
    requires 0 < len <= DIRECT
    ensures var c := NewChain([Region(b, len, bg)]); c.Valid() && AllDealt(ReserveAll(c, len, f), Run(b, len), [])
  {
    Start(b, bg, len);
  }

  lemma FromStart(c: Chain, b: nat, len: nat, f: Fan, size: nat)
    requires InRange(len, f) && len > DIRECT && Needed(len, f) == Some(size - len)
    requires c.Valid() && c.partial == 0 && Dealt(c, b + size, b, [], [])
    ensures AllDealt(ReserveAll(c, len, f), DataOrder(b, len, f), OobOrder(b, len, f))
  {
    hide Needed, Dealt, AllDealt, Advance, Run, DivRoundUp, NonEmpty, ReserveIndirect, ReserveDindirect,
        ReserveTindirect, BelowBlocks;
    NeededIs(len, f);
    var n: nat := Min(f.ind, len - DIRECT);
    BelowStarts(len - DIRECT - n, f);
    FirstPart(c, b, len, f, b + size);
    var c' := ReserveIndirect(Advance(c, DIRECT).0, n);
    if len - DIRECT > n {
      RestDeals(c', b + size, b + 13 + n, Run(b, DIRECT) + Run(b + 13, n), [b + 12], len - DIRECT - n, f);
      ReserveAllIs(c, len, f);
    } else {
      assert Run(b, DIRECT) + Run(b + 13, n) + [] == Run(b, DIRECT) + Run(b + 13, n) && [b + 12] + [] == [b + 12];
    }
  }

  lemma BelowStarts(len: nat, f: Fan)
    ensures BelowBlocks(len, f) > 0 <==> len > 0
  {
  }

  lemma ReserveAllIs(c: Chain, len: nat, f: Fan)
    requires c.Valid() && len > DIRECT
    ensures Advance(c, DIRECT).0.Valid()
    ensures var n := Min(f.ind, len - DIRECT);
      ReserveAll(c, len, f) == ReserveRest(ReserveIndirect(Advance(c, DIRECT).0, n), len - DIRECT - n, f)
  {
    hide ReserveIndirect, ReserveDindirect, ReserveTindirect, Advance;
    AdvanceKeepsValid(c, DIRECT);
  }

  /** The direct blocks and those below the indirect block. */
  lemma FirstPart(c: Chain, b: nat, len: nat, f: Fan, end: nat)
    requires c.Valid() && c.partial == 0 && Dealt(c, end, b, [], []) && len > DIRECT
    requires var n := Min(f.ind, len - DIRECT); if len - DIRECT == n then end == b + len + 1 else end > b + 13 + n
    ensures Advance(c, DIRECT).0.Valid()
    ensures var n := Min(f.ind, len - DIRECT);
      DealtTo(ReserveIndirect(Advance(c, DIRECT).0, n), end, b + 13 + n, Run(b, DIRECT) + Run(b + 13, n), [b + 12])
  {
    hide Dealt, AllDealt, ReserveOob, Advance, Run, NonEmpty;
    var n: nat := Min(f.ind, len - DIRECT);
    AdvanceDeals(c, end, b, [], [], DIRECT);
    AdvanceKeepsValid(c, DIRECT);
    var c0 := Advance(c, DIRECT).0;
    assert [] + Run(b, DIRECT) == Run(b, DIRECT);
    ReserveDeals(c0, end, b + 12, Run(b, DIRECT), []);
    assert [] + [b + 12] == [b + 12];
    AdvanceDeals(ReserveOob(c0, 1).0, end, b + 13, Run(b, DIRECT), [b + 12], n);
  }

  lemma Start(b: nat, bg: nat, size: nat)
    requires size > 0
    ensures var c := NewChain([Region(b, size, bg)]);
      c.Valid() && c.partial == 0 && Dealt(c, b + size, b, [], []) && AllDealt(c, Run(b, size), [])
  {
    var r := Region(b, size, bg);
    assert [r][..0] == [] && [r][1..] == [];
    assert Run(b, size) + [] == Run(b, size);
  }

  /** The first 12 blocks become a region of their own, in front of the position, and stay one. */
  lemma HeadIsDirect(c: Chain, b: nat, len: nat, f: Fan, size: nat)
    requires InRange(len, f) && len > DIRECT && Needed(len, f) == Some(size - len)
    requires c.Valid() && c.iter == 0 && c.partial == 0 && |c.regions| == 1 && Dealt(c, b + size, b, [], [])
    ensures var r := ReserveAll(c, len, f); 0 < r.iter <= |r.regions| && r.regions[0].len == DIRECT
  {
    hide Needed, AllDealt, Run, DivRoundUp, NonEmpty, ReserveDindirect, ReserveTindirect, IndirectLoop, ReserveOob,
        BelowBlocks, Below;
    NeededIs(len, f);
    var n: nat := Min(f.ind, len - DIRECT);
    BelowStarts(len - DIRECT - n, f);
    FirstPart(c, b, len, f, b + size);
    AdvanceKeepsValid(c, DIRECT);
    var c0 := Advance(c, DIRECT).0;
    ReserveIs(c0);
    var c1 := ReserveOob(c0, 1).0;
    AdvanceKeepsValid(c1, n);
    var c2 := ReserveIndirect(c0, n);
    if len - DIRECT > n {
      RestDeals(c2, b + size, b + 13 + n, Run(b, DIRECT) + Run(b + 13, n), [b + 12], len - DIRECT - n, f);
    }
  }

  // ----- where each block of the file is

  lemma {:induction false} ChunksAt(pos: nat, len: nat, ind: pos)
    ensures var (d, o) := Chunks(pos, len, ind);
      && |d| == len && |o| == DivRoundUp(len, ind)
      && (forall k: nat | k < len :: d[k] == pos + 1 + k + k / ind)
      && (forall j: nat | j < |o| :: o[j] == pos + j * (ind + 1))
    decreases len
  {
    if len == 0 {
      DivModUnique(ind, 0, ind - 1);
    } else {
      var n: nat := Min(ind, len);
      var (d, o) := Chunks(pos, len, ind);
      ChunksAt(pos + 1 + n, len - n, ind);
      RoundUpStep(len, ind);
      forall k: nat | k < len
        ensures d[k] == pos + 1 + k + k / ind
      {
        if k < n { DivModUnique(ind, 0, k); } else { NextQuotient(k - n, ind); }
      }
      forall j: nat | j < |o|
        ensures o[j] == pos + j * (ind + 1)
      {
        if j > 0 { assert j * (ind + 1) == (j - 1) * (ind + 1) + (ind + 1); }
      }
    }
  }

  lemma NextQuotient(k: nat, ind: pos)
    ensures (k + ind) / ind == k / ind + 1
  {
    DivModParts(k, ind);
    DivModUnique(ind, k / ind + 1, k % ind);
    assert (k / ind + 1) * ind + k % ind == k + ind;
  }

  lemma QuotientShift(x: nat, m: nat, n: pos)
    ensures (x + m * n) / n == m + x / n
  {
    DivModParts(x, n);
    DivModUnique(n, m + x / n, x % n);
    assert (m + x / n) * n == m * n + x / n * n;
  }

  lemma {:induction false} ChunkSizes(pos: nat, len: nat, ind: pos)
    ensures var (d, o) := Chunks(pos, len, ind);
      |d| == len && |d| + |o| == ChunkBlocks(len, ind) && |o| == DivRoundUp(len, ind)
    decreases len
  {
    hide DivRoundUp;
    ChunksAt(pos, len, ind);
    ChunkBlocksIs(len, ind);
  }

  lemma {:induction false} NestSizes(pos: nat, len: nat, f: Fan)
    ensures var (d, o) := Nest(pos, len, f); |d| == len && |d| + |o| == NestBlocks(len, f)
    decreases len
  {
    hide DivRoundUp, Chunks, ChunkBlocks;
    if len > 0 {
      var n: nat := Min(f.dind, len);
      ChunkSizes(pos + 1, n, f.ind);
      NestSizes(pos + 1 + ChunkBlocks(n, f.ind), len - n, f);
    }
  }

  /** Data block k below a triply indirect block lies behind the doubly indirect and the indirect blocks met so far. */
  lemma {:induction false} NestDataAt(pos: nat, len: nat, f: Fan, k: nat)
    requires f.dind == f.ind * f.ind && k < len
    ensures |Nest(pos, len, f).0| == len && Nest(pos, len, f).0[k] == pos + 2 + k + k / f.dind + k / f.ind
    decreases len
  {
    hide DivRoundUp, Chunks, ChunkBlocks;
    NestSizes(pos, len, f);
    var n: nat := Min(f.dind, len);
    ChunksAt(pos + 1, n, f.ind);
    if k < n {
      DivModUnique(f.dind, 0, k);
    } else {
      FullChunks(f);
      NestDataAt(pos + 1 + ChunkBlocks(n, f.ind), len - n, f, k - n);
      QuotientShift(k - n, f.ind, f.ind);
      QuotientShift(k - n, 1, f.dind);
    }
  }

  /** Where the j-th block set aside below a triply indirect block lies: after every `ind` indirect blocks with their
      data comes the next doubly indirect block. */
  function NestOobAt(pos: nat, j: nat, f: Fan): nat {
    var group, place := j / (f.ind + 1), j % (f.ind + 1);
    pos + group * (1 + f.ind + f.dind) + if place == 0 then 0 else 1 + (place - 1) * (f.ind + 1)
  }

  lemma NestOobFirst(pos: nat, j: nat, f: Fan)
    requires j <= f.ind
    ensures NestOobAt(pos, j, f) == pos + if j == 0 then 0 else 1 + (j - 1) * (f.ind + 1)
  {
    DivModUnique(f.ind + 1, 0, j);
  }

  lemma NestOobNext(pos: nat, j: nat, f: Fan)
    requires j > f.ind
    ensures NestOobAt(pos, j, f) == NestOobAt(pos + 1 + f.ind + f.dind, j - f.ind - 1, f)
  {
    var g: pos, i: nat, size: nat := f.ind + 1, j - f.ind - 1, 1 + f.ind + f.dind;
    DivModParts(i, g);
    DivModUnique(g, i / g + 1, i % g);
    assert (i / g + 1) * g + i % g == j;
    assert (i / g + 1) * size == i / g * size + size;
  }

  lemma FewChunks(len: nat, f: Fan)
    requires f.dind == f.ind * f.ind && len <= f.dind
    ensures DivRoundUp(len, f.ind) <= f.ind && (len == f.dind ==> DivRoundUp(len, f.ind) == f.ind)
  {
    var k: nat := f.ind - 1;
    DivModUnique(f.ind, f.ind, k);
    DivMonotone(len + k, f.dind + k, f.ind);
  }

  lemma {:induction false} NestOobIs(pos: nat, len: nat, f: Fan, j: nat)
    requires f.dind == f.ind * f.ind && j < |Nest(pos, len, f).1|
    ensures Nest(pos, len, f).1[j] == NestOobAt(pos, j, f)
    decreases len
  {
    hide DivRoundUp, Chunks, ChunkBlocks, NestOobAt;
    if len > 0 {
      var n: nat := Min(f.dind, len);
      ChunksAt(pos + 1, n, f.ind);
      FewChunks(n, f);
      if j <= DivRoundUp(n, f.ind) {
        NestOobFirst(pos, j, f);
      } else if len > n {
        FullChunks(f);
        NestOobIs(pos + 1 + ChunkBlocks(n, f.ind), len - n, f, j - f.ind - 1);
        NestOobNext(pos, j, f);
      }
    }
  }

  /** How many whole groups of n there are in x. */
  function Whole(x: nat, n: pos): nat {
    x / n
  }

  /** The indirect blocks met before block k of the file. */
  function Met(k: nat, f: Fan): nat {
    if k < DIRECT then 0
    else if k < DIRECT + f.ind then 1
    else if k < DIRECT + f.ind + f.dind then 3 + Whole(k - DIRECT - f.ind, f.ind)
    else
      var past: nat := k - DIRECT - f.ind - f.dind;
      5 + f.ind + Whole(past, f.dind) + Whole(past, f.ind)
  }

  /** Block k of the file lies behind the blocks before it and the indirect blocks met so far. */
  function DataAt(b: nat, k: nat, f: Fan): nat {
    b + k + Met(k, f)
  }

  /** The j-th indirect block lies before the data it leads to. */
  function OobAt(b: nat, j: nat, f: Fan): nat {
    if j == 0 then b + 12
    else if j == 1 then b + 13 + f.ind
    else if j < 2 + f.ind then b + 14 + f.ind + (j - 2) * (f.ind + 1)
    else if j == 2 + f.ind then b + 14 + f.dind + 2 * f.ind
    else NestOobAt(b + 15 + f.dind + 2 * f.ind, j - 3 - f.ind, f)
  }

  lemma BelowSizes(pos: nat, len: nat, f: Fan)
    ensures |Below(pos, len, f).0| == len && len + |Below(pos, len, f).1| == BelowBlocks(len, f)
  {
    hide DivRoundUp, Chunks, Nest, ChunkBlocks, NestBlocks;
    if len > 0 {
      var n: nat := Min(f.dind, len);
      ChunkSizes(pos + 1, n, f.ind);
      NestSizes(pos + 2 + ChunkBlocks(n, f.ind), len - n, f);
    }
  }

  lemma BelowDataAt(b: nat, len: nat, f: Fan, k: nat)
    requires f.dind == f.ind * f.ind && k < len
    ensures |Below(b + 13 + f.ind, len, f).0| == len
    ensures Below(b + 13 + f.ind, len, f).0[k] == DataAt(b, DIRECT + f.ind + k, f)
  {
    hide DivRoundUp, Chunks, Nest, ChunkBlocks, NestBlocks;
    var pos: nat, n: nat := b + 13 + f.ind, Min(f.dind, len);
    BelowSizes(pos, len, f);
    ChunksAt(pos + 1, n, f.ind);
    if k >= n {
      FullChunks(f);
      NestDataAt(pos + 2 + ChunkBlocks(n, f.ind), len - n, f, k - n);
    }
  }

  lemma DataOrderAt(b: nat, len: nat, f: Fan, k: nat)
    requires f.dind == f.ind * f.ind && k < len
    ensures |DataOrder(b, len, f)| == len && DataOrder(b, len, f)[k] == DataAt(b, k, f)
  {
    hide Below;
    if len > DIRECT {
      var n: nat := Min(f.ind, len - DIRECT);
      BelowSizes(b + 13 + n, len - DIRECT - n, f);
      if k >= DIRECT + n { BelowDataAt(b, len - DIRECT - n, f, k - DIRECT - n); }
    }
  }

  lemma BelowOobAt(b: nat, len: nat, f: Fan, j: nat)
    requires f.dind == f.ind * f.ind && j < |Below(b + 13 + f.ind, len, f).1|
    ensures Below(b + 13 + f.ind, len, f).1[j] == OobAt(b, j + 1, f)
  {
    hide DivRoundUp, Chunks, Nest, ChunkBlocks, NestBlocks, NestOobAt;
    if len > 0 {
      var pos: nat, n: nat := b + 13 + f.ind, Min(f.dind, len);
      ChunksAt(pos + 1, n, f.ind);
      FewChunks(n, f);
      if j > DivRoundUp(n, f.ind) && len > n {
        FullChunks(f);
        if j > f.ind + 1 { NestOobIs(pos + 2 + ChunkBlocks(n, f.ind), len - n, f, j - 2 - f.ind); }
      }
    }
  }

  lemma OobOrderAt(b: nat, len: nat, f: Fan, j: nat)
    requires f.dind == f.ind * f.ind && j < |OobOrder(b, len, f)|
    ensures OobOrder(b, len, f)[j] == OobAt(b, j, f)
  {
    hide Below;
    if len > DIRECT {
      var n: nat := Min(f.ind, len - DIRECT);
      if len - DIRECT > n {
        if j > 0 { BelowOobAt(b, len - DIRECT - n, f, j - 1); }
      } else {
        assert Below(b + 13 + n, 0, f).1 == [] by { BelowSizes(b + 13 + n, 0, f); BelowStarts(0, f); }
      }
    }
  }

  lemma OrderSizes(b: nat, len: nat, f: Fan)
    requires InRange(len, f)
    ensures Needed(len, f).Some?
    ensures |DataOrder(b, len, f)| == len && |OobOrder(b, len, f)| == Needed(len, f).value
  {
    hide Below, Needed, BelowBlocks;
    NeededIs(len, f);
    if len > DIRECT {
      var n: nat := Min(f.ind, len - DIRECT);
      BelowSizes(b + 13 + n, len - DIRECT - n, f);
    }
  }

  lemma OrderAt(b: nat, len: nat, f: Fan)
    requires InRange(len, f)
    ensures Needed(len, f).Some?
    ensures |DataOrder(b, len, f)| == len && |OobOrder(b, len, f)| == Needed(len, f).value
    ensures forall k: nat | k < len :: DataOrder(b, len, f)[k] == DataAt(b, k, f)
    ensures forall j: nat | j < Needed(len, f).value :: OobOrder(b, len, f)[j] == OobAt(b, j, f)
  {
    hide DataOrder, OobOrder, DataAt, OobAt, Needed;
    OrderSizes(b, len, f);
    forall k: nat | k < len { DataOrderAt(b, len, f, k); }
    forall j: nat | j < Needed(len, f).value { OobOrderAt(b, len, f, j); }
  }

  /** For every file that indirect blocks can lead to, one run of exactly the blocks asked for is split without
      loss: get_block finds block k of the file at DataAt(k), and the j-th block set aside is OobAt(j). */
  lemma IndirectLayout(b: nat, bg: nat, len: nat, f: Fan)
    requires InRange(len, f) && len > 0
    ensures Needed(len, f).Some?
    ensures var c := ReserveAll(NewChain([Region(b, len + Needed(len, f).value, bg)]), len, f);
      && (forall k: nat :: Block(Rewind(c), k) == if k < len then Some(DataAt(b, k, f)) else None)
      && |BlocksOf(c.oob)| == Needed(len, f).value
      && (forall j: nat | j < Needed(len, f).value :: BlocksOf(c.oob)[j] == OobAt(b, j, f))
  {
    hide Needed, DataOrder, OobOrder, ReserveAll, DataAt, OobAt, Block, BlocksOf;
    ReserveAllDeals(b, bg, len, f);
    OrderAt(b, len, f);
    var c := ReserveAll(NewChain([Region(b, len + Needed(len, f).value, bg)]), len, f);
    forall k: nat
      ensures Block(Rewind(c), k) == if k < len then Some(DataAt(b, k, f)) else None
    {
      BlockAt(Rewind(c), k);
    }
  }

  lemma InRun(x: nat, p: nat, n: nat)
    ensures x in Run(p, n) <==> p <= x < p + n
  {
    if p <= x < p + n { assert Run(p, n)[x - p] == x; }
  }

  /** Each block of a stretch is in one of two lists. */
  ghost predicate Parts(x: nat, d: seq<nat>, o: seq<nat>, lo: nat, hi: nat) {
    (x in d || x in o <==> lo <= x < hi) && !(x in d && x in o)
  }

  lemma {:induction false} ChunksPartition(pos: nat, len: nat, ind: pos, x: nat)
    ensures var (d, o) := Chunks(pos, len, ind); Parts(x, d, o, pos, pos + ChunkBlocks(len, ind))
    decreases len
  {
    if len > 0 {
      hide Run;
      var n: nat := Min(ind, len);
      ChunksPartition(pos + 1 + n, len - n, ind, x);
      InRun(x, pos + 1, n);
    }
  }

  lemma PartsJoin(x: nat, d: seq<nat>, o: seq<nat>, d': seq<nat>, o': seq<nat>, lo: nat, mid: nat, hi: nat)
    requires lo <= mid <= hi && Parts(x, d, o, lo, mid) && Parts(x, d', o', mid, hi)
    ensures Parts(x, d + d', o + o', lo, hi)
  {
  }

  /** A block set aside in front of a stretch. */
  lemma PartsBehind(x: nat, d: seq<nat>, o: seq<nat>, lo: nat, hi: nat)
    requires lo < hi && Parts(x, d, o, lo + 1, hi)
    ensures Parts(x, d, [lo] + o, lo, hi)
  {
  }

  lemma {:induction false} NestPartition(pos: nat, len: nat, f: Fan, x: nat)
    ensures var (d, o) := Nest(pos, len, f); Parts(x, d, o, pos, pos + NestBlocks(len, f))
    decreases len
  {
    hide Chunks, ChunkBlocks;
    if len == 0 {
      PartsNone(x, pos);
    } else {
      hide Parts;
      var n: nat := Min(f.dind, len);
      var next: nat := pos + 1 + ChunkBlocks(n, f.ind);
      var (d, o) := Chunks(pos + 1, n, f.ind);
      var (d', o') := Nest(next, len - n, f);
      ChunksPartition(pos + 1, n, f.ind, x);
      NestPartition(next, len - n, f, x);
      PartsBehind(x, d, o, pos, next);
      PartsJoin(x, d, [pos] + o, d', o', pos, next, pos + NestBlocks(len, f));
    }
  }

  lemma PartsNone(x: nat, pos: nat)
    ensures Parts(x, [], [], pos, pos)
  {
  }

  lemma BelowPartition(pos: nat, len: nat, f: Fan, x: nat)
    ensures var (d, o) := Below(pos, len, f); Parts(x, d, o, pos, pos + BelowBlocks(len, f))
  {
    hide Chunks, ChunkBlocks, Nest, NestBlocks;
    if len == 0 {
      PartsNone(x, pos);
    } else {
      hide Parts;
      var n: nat := Min(f.dind, len);
      var next: nat := pos + 1 + ChunkBlocks(n, f.ind);
      var (d, o) := Chunks(pos + 1, n, f.ind);
      ChunksPartition(pos + 1, n, f.ind, x);
      PartsBehind(x, d, o, pos, next);
      if len > n {
        var end: nat := next + 1 + NestBlocks(len - n, f);
        var (d', o') := Nest(next + 1, len - n, f);
        NestPartition(next + 1, len - n, f, x);
        PartsBehind(x, d', o', next, end);
        PartsJoin(x, d, [pos] + o, d', [next] + o', pos, next, end);
      }
    }
  }

  /** Every block of the run goes to exactly one of the lists, and only blocks of the run do; the lists together
      have as many entries as the run has blocks (OrderAt), so none is dealt out twice. */
  lemma IndirectPartition(b: nat, len: nat, f: Fan, x: nat)
    requires InRange(len, f)
    ensures Needed(len, f).Some?
    ensures var data, oob, size := DataOrder(b, len, f), OobOrder(b, len, f), len + Needed(len, f).value;
      && (x in data || x in oob <==> b <= x < b + size) && !(x in data && x in oob)
  {
    hide Below, BelowBlocks, Needed, Run;
    NeededIs(len, f);
    if len <= DIRECT {
      InRun(x, b, len);
    } else {
      var n: nat := Min(f.ind, len - DIRECT);
      InRun(x, b, DIRECT);
      InRun(x, b + 13, n);
      BelowPartition(b + 13 + n, len - DIRECT - n, f, x);
    }
  }

  // ----- when moving the position does what it should

  ghost predicate Distinct(b: seq<nat>) {
    forall i, j :: 0 <= i < j < |b| ==> b[i] != b[j]
  }

  lemma BlockAhead(c: Chain, k: nat)
    requires c.iter <= |c.regions|
    ensures Block(c, k) == if k + c.partial < |Ahead(c)| then Some(Ahead(c)[k + c.partial]) else None
  {
    LocateIsBlock(c.regions, c.iter, k + c.partial);
  }

  /** Looking beyond the current region, the position ends up before where it should be, at some block of the list. */
  lemma {:induction false} AdvanceFromStays(c: Chain, i: nat, blocks: int)
    requires c.Valid() && c.partial == 0 && c.iter < i <= |c.regions|
    ensures var c' := AdvanceFrom(c, i, blocks).0;
      && c'.regions == c.regions && c'.iter == c.iter && (c'.partial == 0 || c'.partial <= blocks)
      && c'.partial < Sum(c.regions[c.iter..])
    decreases |c.regions| - i
  {
    PartOfSum(c.regions, c.iter, c.iter);
    if i < |c.regions| {
      PartOfSum(c.regions, c.iter, i);
      if blocks > 0 && c.regions[i].len <= blocks { AdvanceFromStays(c, i + 1, blocks - c.regions[i].len); }
    }
  }

  lemma {:induction false} PartOfSum(rs: seq<Region>, i: nat, k: nat)
    requires i <= k < |rs|
    ensures rs[k].len <= Sum(rs[i..])
    decreases k - i
  {
    assert rs[i..][1..] == rs[i + 1..];
    if i < k { PartOfSum(rs, i + 1, k); }
  }

  /** Moving the position n blocks on makes block k of the list what block n + k was, for all k, exactly when the
      move stays inside the current region. */
  lemma AdvanceExactly(c: Chain, n: nat)
    requires c.Valid() && c.iter < |c.regions| && c.partial < c.regions[c.iter].len && Distinct(Ahead(c))
    ensures Advance(c, n).0.iter <= |Advance(c, n).0.regions|
    ensures (forall k: nat :: Block(Advance(c, n).0, k) == Block(c, n + k)) <==>
            n == 0 || c.partial + n < c.regions[c.iter].len
  {
    hide Block, Ahead, AdvanceFrom;
    AdvanceKeepsValid(c, n);
    var c' := Advance(c, n).0;
    if n == 0 || c.partial + n < c.regions[c.iter].len {
      forall k: nat
        ensures Block(c', k) == Block(c, n + k)
      {
        BlockAhead(c', k);
        BlockAhead(c, n + k);
        SameAhead(c, c');
      }
    } else {
      MoveFallsShort(c, n);
      BlockAhead(c', 0);
      BlockAhead(c, n);
      assert Block(c', 0) != Block(c, n + 0);
    }
  }

  lemma SameAhead(c: Chain, c': Chain)
    requires c'.regions == c.regions && c'.iter == c.iter <= |c.regions|
    ensures Ahead(c') == Ahead(c)
  {
  }

  /** A move beyond the current region ends at an earlier block of the list. */
  lemma MoveFallsShort(c: Chain, n: nat)
    requires c.Valid() && c.iter < |c.regions| && c.partial < c.regions[c.iter].len <= c.partial + n
        && Distinct(Ahead(c))
    ensures var c' := Advance(c, n).0;
      && c'.iter == c.iter && c'.regions == c.regions && Ahead(c') == Ahead(c)
      && c'.partial < c.partial + n && c'.partial < |Ahead(c)|
      && (c.partial + n < |Ahead(c)| ==> Ahead(c)[c'.partial] != Ahead(c)[c.partial + n])
  {
    hide BlocksOf, Sum;
    AdvanceFromStays(c.(partial := 0), c.iter + 1, n - (c.regions[c.iter].len - c.partial));
  }

  /** Two regions of two blocks, and a move over the first one: the next block is the first again. */
  lemma MoveRestarts()
    ensures var c := NewChain([Region(10, 2, 0), Region(20, 2, 1)]);
      Block(c, 2) == Some(20) && Block(Advance(c, 2).0, 0) == Some(10)
  {
    var c := NewChain([Region(10, 2, 0), Region(20, 2, 1)]);
    assert Locate(c.regions, 0, 2) == Locate(c.regions, 1, 0) == (1, 0);
    WholeRegionRestarts(c);
    assert Locate(c.regions, 0, 0) == (0, 0);
  }

  /** Moving past all of the current region leaves the position at its start: the code that attaches the blocks
      would meet the same blocks again. */
  lemma WholeRegionRestarts(c: Chain)
    requires c.Valid() && c.iter < |c.regions| && c.partial == 0
    ensures Advance(c, c.regions[c.iter].len) == (c, true)
  {
  }
}
