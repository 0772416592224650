/** Attaching the blocks of a file to its inode and its indirect blocks, piece by piece along the list. */
module IndirectAttach {
  import opened Arith
  import opened Allocator
  import opened Regions
  import opened Indirect

  /** The blocks of the next n positions, None standing for a position behind the list. */
  function Piece(c: Chain, n: nat): (b: seq<Option<nat>>)
    requires c.iter <= |c.regions|
    ensures |b| == n
  {
    seq(n, i requires 0 <= i < n => Block(c, i))
  }

  /** The blocks attached in pieces of the given sizes, the position being moved behind each piece; None when that
      fails. */
  function Attached(c: Chain, sizes: seq<nat>): Option<seq<Option<nat>>>
    requires c.Valid()
    decreases |sizes|
  {
    if sizes == [] then Some([])
    else
      AdvanceKeepsValid(c, sizes[0]);
      var (c', ok) := Advance(c, sizes[0]);
      if !ok then None
      else
        match Attached(c', sizes[1..])
        case None => None
        case Some(rest) => Some(Piece(c, sizes[0]) + rest)
  }

  /** len blocks in pieces of at most n. */
  function Pieces(len: nat, n: pos): (p: seq<nat>)
    decreases len
  {
    if len == 0 then [] else [Min(n, len)] + Pieces(len - Min(n, len), n)
  }

  /** Pieces of pieces: a doubly indirect block after the other, each in pieces of an indirect block. */
  function Nested(len: nat, n: pos, m: pos): (p: seq<nat>)
    decreases len
  {
    if len == 0 then [] else Pieces(Min(m, len), n) + Nested(len - Min(m, len), n, m)
  }

  /** The pieces of a file: direct, indirect, doubly indirect and triply indirect blocks. */
  function Sizes(len: nat, f: Fan): seq<nat> {
    var a := Min(len, DIRECT);
    var b := Min(len - a, f.ind);
    var c := Min(len - a - b, f.dind);
    var d := Min(len - a - b - c, f.tind);
    [a] + (if b > 0 then [b] else []) + Pieces(c, f.ind) + Nested(d, f.ind, f.dind)
  }

  // ----- the loops

  /** What is known of the whole when `sizes` are still to be attached behind `done`. */
  ghost predicate Continues(c: Chain, all: seq<nat>, done: seq<Option<nat>>, c': Chain, sizes: seq<nat>)
    requires c.Valid() && c'.Valid()
  {
    Attached(c, all) == match Attached(c', sizes) case None => None case Some(rest) => Some(done + rest)
  }

  lemma ContinuesAtStart(c: Chain, all: seq<nat>)
    requires c.Valid()
    ensures Continues(c, all, [], c, all)
  {
    hide Attached;
    var r := Attached(c, all);
    if r.Some? { assert [] + r.value == r.value; }
  }

  lemma ContinuesStep(c: Chain, all: seq<nat>, done: seq<Option<nat>>, c': Chain, n: nat, sizes: seq<nat>)
    requires c.Valid() && c'.Valid() && Continues(c, all, done, c', [n] + sizes)
    ensures Advance(c', n).0.Valid()
    ensures if Advance(c', n).1 then Continues(c, all, done + Piece(c', n), Advance(c', n).0, sizes)
            else Attached(c, all) == None
  {
    hide Advance, Piece;
    AdvanceKeepsValid(c', n);
    assert ([n] + sizes)[1..] == sizes;
    var rest := Attached(Advance(c', n).0, sizes);
    if rest.Some? { assert done + (Piece(c', n) + rest.value) == done + Piece(c', n) + rest.value; }
  }

  lemma ContinuesToEnd(c: Chain, all: seq<nat>, done: seq<Option<nat>>, c': Chain)
    requires c.Valid() && c'.Valid() && Continues(c, all, done, c', [])
    ensures Attached(c, all) == Some(done)
  {
    assert Attached(c', []) == Some([]) && done + [] == done;
  }

  /** Fill one block, or the inode, with the next n block numbers and move on. */
  method AttachPiece(a: Allocation, n: nat) returns (piece: seq<Option<nat>>, ok: bool)
    requires a.Value().Valid()
    modifies a`partial
    ensures piece == Piece(old(a.Value()), n)
    ensures (a.Value(), ok) == Advance(old(a.Value()), n) && a.Value().Valid()
  {
    hide Block, Advance;
    AdvanceKeepsValid(a.Value(), n);
    piece := [];
    var i := 0;
    while i < n
      invariant 0 <= i <= n && piece == Piece(a.Value(), i)
      invariant a.Value() == old(a.Value())
    {
      var block := a.GetBlock(i);
      piece := piece + [block];
      i := i + 1;
    }
    ok := a.AdvanceBlocks(n);
  }

  /** Fill the blocks below a doubly indirect one; `rest` comes behind them. */
  method FillDindirect(a: Allocation, len: nat, ind: pos, done: seq<Option<nat>>, ghost c: Chain, ghost all: seq<nat>,
                       ghost rest: seq<nat>)
    returns (more: seq<Option<nat>>, ok: bool)
    requires a.Value().Valid() && c.Valid() && Continues(c, all, done, a.Value(), Pieces(len, ind) + rest)
    modifies a`partial
    ensures a.Value().Valid()
    ensures if ok then Continues(c, all, more, a.Value(), rest) else Attached(c, all) == None
  {
    hide Advance, Piece, Attached, Continues;
    more := done;
    var left: nat := len;
    while left > 0
      invariant a.Value().Valid() && Continues(c, all, more, a.Value(), Pieces(left, ind) + rest)
    {
      var n: nat := Min(ind, left);
      assert Pieces(left, ind) + rest == [n] + (Pieces(left - n, ind) + rest);
      ContinuesStep(c, all, more, a.Value(), n, Pieces(left - n, ind) + rest);
      var piece;
      piece, ok := AttachPiece(a, n);
      if !ok { return; }
      more, left := more + piece, left - n;
    }
    assert [] + rest == rest;
    ok := true;
  }

  /** Fill the blocks below a triply indirect one. */
  method FillTindirect(a: Allocation, len: nat, f: Fan, done: seq<Option<nat>>, ghost c: Chain, ghost all: seq<nat>)
    returns (more: seq<Option<nat>>, ok: bool)
    requires a.Value().Valid() && c.Valid() && Continues(c, all, done, a.Value(), Nested(len, f.ind, f.dind))
    modifies a`partial
    ensures if ok then Attached(c, all) == Some(more) else Attached(c, all) == None
  {
    hide Advance, Piece, Attached, Continues, Pieces;
    more := done;
    var left: nat := len;
    while left > 0
      invariant a.Value().Valid() && Continues(c, all, more, a.Value(), Nested(left, f.ind, f.dind))
    {
      var n: nat := Min(f.dind, left);
      more, ok := FillDindirect(a, n, f.ind, more, c, all, Nested(left - n, f.ind, f.dind));
      if !ok { return; }
      left := left - n;
    }
    ContinuesToEnd(c, all, more, a.Value());
    ok := true;
  }

  /** Attach the blocks of a file of len blocks; None when the list ends too early or the file is too large. */
  method AttachIndirect(a: Allocation, len: nat, f: Fan) returns (blocks: Option<seq<Option<nat>>>)
    requires a.Value().Valid()
    modifies a`partial, a`iter
    ensures blocks == if len > DIRECT + f.ind + f.dind + f.tind then None else Attached(old(a.Value()), Sizes(len, f))
    ensures blocks.Some? ==> a.iter == 0 && a.partial == 0
  {
    hide Advance, Piece, Attached, Continues, Pieces, Nested;
    ghost var c, all := a.Value(), Sizes(len, f);
    var direct: nat := Min(len, DIRECT);
    var ind: nat := Min(len - direct, f.ind);
    var dind: nat := Min(len - direct - ind, f.dind);
    var tind: nat := Min(len - direct - ind - dind, f.tind);
    ghost var behind := Pieces(dind, f.ind) + Nested(tind, f.ind, f.dind);
    ContinuesAtStart(c, all);
    assert all == [direct] + ((if ind > 0 then [ind] else []) + behind);
    ContinuesStep(c, all, [], c, direct, (if ind > 0 then [ind] else []) + behind);
    var done, ok := AttachPiece(a, direct);
    if !ok { return None; }
    assert [] + done == done;
    if ind > 0 {
      ContinuesStep(c, all, done, a.Value(), ind, behind);
      var piece;
      piece, ok := AttachPiece(a, ind);
      if !ok { return None; }
      done := done + piece;
    } else {
      assert [] + behind == behind;
    }
    done, ok := FillDindirect(a, dind, f.ind, done, c, all, Nested(tind, f.ind, f.dind));
    if !ok { return None; }
    done, ok := FillTindirect(a, tind, f, done, c, all);
    if !ok { return None; }
    if len > direct + ind + dind + tind { return None; }
    a.iter, a.partial := 0, 0;
    blocks := Some(done);
  }

  // ----- which blocks are attached

  function Total(sizes: seq<nat>): nat {
    if sizes == [] then 0 else sizes[0] + Total(sizes[1..])
  }

  /** n blocks of the list in order, from the position on. */
  function InOrder(c: Chain, n: nat): (b: seq<Option<nat>>)
    requires c.iter <= |c.regions| && c.partial + n <= |Ahead(c)|
    ensures |b| == n
  {
    seq(n, i requires 0 <= i < n => Some(Ahead(c)[c.partial + i]))
  }

  ghost predicate Positive(sizes: seq<nat>) {
    forall i :: 0 <= i < |sizes| ==> sizes[i] > 0
  }

  lemma PieceIs(c: Chain, n: nat)
    requires c.iter <= |c.regions| && c.partial + n <= |Ahead(c)|
    ensures Piece(c, n) == InOrder(c, n)
  {
    hide Block, Ahead;
    forall i | 0 <= i < n
      ensures Piece(c, n)[i] == InOrder(c, n)[i]
    {
      BlockAhead(c, i);
    }
  }

  /** With enough blocks left in the list the move is reported as done. */
  lemma {:induction false} AdvanceFromSucceeds(c: Chain, i: nat, blocks: int)
    requires c.iter <= |c.regions| && i <= |c.regions| && blocks <= Sum(c.regions[i..])
    ensures AdvanceFrom(c, i, blocks).1
    decreases |c.regions| - i
  {
    if i < |c.regions| && blocks > 0 && c.regions[i].len <= blocks {
      assert c.regions[i..][1..] == c.regions[i + 1..];
      AdvanceFromSucceeds(c, i + 1, blocks - c.regions[i].len);
    }
  }

  lemma AdvanceSucceeds(c: Chain, n: nat)
    requires c.iter < |c.regions| && c.partial < c.regions[c.iter].len && c.partial + n <= |Ahead(c)|
    ensures Advance(c, n).1
  {
    assert c.regions[c.iter..][1..] == c.regions[c.iter + 1..];
    if n > 0 && c.regions[c.iter].len <= c.partial + n {
      AdvanceFromSucceeds(c.(partial := 0), c.iter + 1, n - (c.regions[c.iter].len - c.partial));
    }
  }

  /** The blocks in order are the first piece and then the rest, from the position behind it. */
  lemma InOrderSplits(c: Chain, n: nat, m: nat)
    requires c.iter <= |c.regions| && c.partial + n + m <= |Ahead(c)|
    ensures Ahead(c.(partial := c.partial + n)) == Ahead(c)
    ensures InOrder(c, n + m) == InOrder(c, n) + InOrder(c.(partial := c.partial + n), m)
  {
  }

  /** The pieces get the blocks of the list in order exactly when the last piece starts inside the current region. */
  lemma {:induction false} AttachExactly(c: Chain, sizes: seq<nat>)
    requires c.Valid() && c.iter < |c.regions| && c.partial < c.regions[c.iter].len && Distinct(Ahead(c))
    requires sizes != [] && Positive(sizes) && c.partial + Total(sizes) <= |Ahead(c)|
    ensures Attached(c, sizes) == Some(InOrder(c, Total(sizes))) <==>
            c.partial + Total(sizes) - sizes[|sizes| - 1] < c.regions[c.iter].len
    decreases |sizes|
  {
    hide Ahead, Block, Advance, Distinct, Piece, InOrder;
    var n, rest := sizes[0], sizes[1..];
    AdvanceKeepsValid(c, n);
    PieceIs(c, n);
    AdvanceSucceeds(c, n);
    var c' := Advance(c, n).0;
    if rest == [] {
      assert Attached(c', []) == Some([]) && Piece(c, n) + [] == Piece(c, n);
    } else {
      LastOfRest(sizes);
      if c.partial + n < c.regions[c.iter].len {
        AdvanceInside(c, n);
        InOrderSplits(c, n, Total(rest));
        AttachExactly(c', rest);
        SameBehind(InOrder(c, n), Attached(c', rest), InOrder(c', Total(rest)));
      } else {
        WrongFrom(c, sizes);
      }
    }
  }

  lemma AdvanceInside(c: Chain, n: nat)
    requires c.iter < |c.regions| && c.partial + n < c.regions[c.iter].len
    ensures Advance(c, n).0 == c.(partial := c.partial + n)
  {
  }

  lemma SameBehind(x: seq<Option<nat>>, y: Option<seq<Option<nat>>>, z: seq<Option<nat>>)
    ensures y.Some? ==> (x + y.value == x + z <==> y.value == z)
  {
    if y.Some? && x + y.value == x + z {
      assert y.value == (x + y.value)[|x|..] && z == (x + z)[|x|..];
    }
  }

  lemma {:induction false} LastOfRest(sizes: seq<nat>)
    requires |sizes| >= 2 && Positive(sizes)
    ensures var rest := sizes[1..];
      && Positive(rest) && rest[|rest| - 1] == sizes[|sizes| - 1] && Total(sizes) == sizes[0] + Total(rest)
      && Total(rest) >= rest[|rest| - 1] && Total(rest) >= rest[0]
  {
    if |sizes| > 2 { LastOfRest(sizes[1..]); }
  }

  lemma AttachedStarts(c: Chain, sizes: seq<nat>)
    requires c.Valid() && sizes != [] && sizes[0] > 0
    ensures Attached(c, sizes).Some? ==> |Attached(c, sizes).value| > 0 && Attached(c, sizes).value[0] == Block(c, 0)
  {
    hide Block, Advance;
    AdvanceKeepsValid(c, sizes[0]);
  }

  /** When the first piece reaches the end of the region, the second one starts with a wrong block. */
  lemma WrongFrom(c: Chain, sizes: seq<nat>)
    requires c.Valid() && c.iter < |c.regions| && c.partial < c.regions[c.iter].len && Distinct(Ahead(c))
    requires |sizes| >= 2 && Positive(sizes) && c.partial + Total(sizes) <= |Ahead(c)|
    requires c.partial + sizes[0] >= c.regions[c.iter].len
    ensures Attached(c, sizes) != Some(InOrder(c, Total(sizes)))
  {
    hide Ahead, Block, Advance, Distinct, Piece;
    var n, rest := sizes[0], sizes[1..];
    LastOfRest(sizes);
    AdvanceKeepsValid(c, n);
    var c' := Advance(c, n).0;
    MoveFallsShort(c, n);
    AttachedStarts(c', rest);
    BlockAhead(c', 0);
    if Attached(c, sizes).Some? {
      assert Attached(c, sizes).value[n] == Attached(c', rest).value[0] == Some(Ahead(c)[c'.partial]);
      assert InOrder(c, Total(sizes))[n] == Some(Ahead(c)[c.partial + n]);
    }
  }

  // ----- files on one run of blocks

  lemma {:induction false} PiecesSum(len: nat, n: pos)
    ensures Positive(Pieces(len, n)) && Total(Pieces(len, n)) == len
    decreases len
  {
    if len > 0 {
      var m: nat := Min(n, len);
      PiecesSum(len - m, n);
      assert Pieces(len, n)[1..] == Pieces(len - m, n);
    }
  }

  lemma {:induction false} TotalJoins(x: seq<nat>, y: seq<nat>)
    ensures Total(x + y) == Total(x) + Total(y)
  {
    if x == [] {
      assert x + y == y;
    } else {
      TotalJoins(x[1..], y);
      assert (x + y)[1..] == x[1..] + y;
    }
  }

  /** Whole pieces in front of others. */
  lemma {:induction false} PiecesJoin(k: nat, len: nat, n: pos)
    ensures Pieces(k * n, n) + Pieces(len, n) == Pieces(k * n + len, n)
    decreases k
  {
    if k == 0 {
      assert Pieces(0, n) == [] && [] + Pieces(len, n) == Pieces(len, n);
    } else {
      assert k * n == (k - 1) * n + n;
      PiecesJoin(k - 1, len, n);
      assert Pieces(k * n, n) == [n] + Pieces((k - 1) * n, n);
      assert Pieces(k * n + len, n) == [n] + Pieces((k - 1) * n + len, n);
      assert [n] + Pieces((k - 1) * n, n) + Pieces(len, n) == [n] + (Pieces((k - 1) * n, n) + Pieces(len, n));
    }
  }

  /** Below a triply indirect block every piece but the last fills an indirect block. */
  lemma {:induction false} NestedIs(len: nat, f: Fan)
    requires f.dind == f.ind * f.ind
    ensures Nested(len, f.ind, f.dind) == Pieces(len, f.ind)
    decreases len
  {
    hide Pieces;
    if len == 0 {
      NoPieces(f.ind);
    } else if len <= f.dind {
      assert Pieces(len, f.ind) + [] == Pieces(len, f.ind);
      assert Nested(0, f.ind, f.dind) == [];
    } else {
      NestedIs(len - f.dind, f);
      PiecesJoin(f.ind, len - f.dind, f.ind);
    }
  }

  lemma NoPieces(n: pos)
    ensures Pieces(0, n) == []
  {
  }

  /** The pieces of a file: the direct blocks, then as many blocks as an indirect block holds, over and over, whichever
      of the three kinds leads to it. */
  lemma SizesAre(len: nat, f: Fan)
    requires InRange(len, f)
    ensures Sizes(len, f) == [Min(len, DIRECT)] + Pieces(len - Min(len, DIRECT), f.ind)
  {
    hide Pieces, Nested;
    var left: nat := len - Min(len, DIRECT);
    var b: nat := Min(left, f.ind);
    var c: nat := Min(left - b, f.dind);
    var d: nat := left - b - c;
    NestedIs(d, f);
    NoPieces(f.ind);
    if d > 0 { PiecesJoin(f.ind, d, f.ind); }
    FirstPiece(left, f.ind);
    FirstPiece(b, f.ind);
    if left > f.ind { PiecesJoin(1, c + d, f.ind); }
    assert Pieces(c, f.ind) + Pieces(d, f.ind) == Pieces(c + d, f.ind);
    assert [Min(len, DIRECT)] + (if b > 0 then [b] else []) + Pieces(c, f.ind) + Pieces(d, f.ind)
        == [Min(len, DIRECT)] + ((if b > 0 then [b] else []) + (Pieces(c, f.ind) + Pieces(d, f.ind)));
  }

  lemma FirstPiece(len: nat, n: pos)
    ensures len <= n ==> Pieces(len, n) == if len > 0 then [len] else []
    ensures Pieces(n, n) == [n]
  {
    NoPieces(n);
  }

  lemma SizesSum(len: nat, f: Fan)
    requires InRange(len, f) && len > 0
    ensures Sizes(len, f) != [] && Positive(Sizes(len, f)) && Total(Sizes(len, f)) == len
    ensures var last := Sizes(len, f)[|Sizes(len, f)| - 1];
      last <= len && (len <= DIRECT <==> len - last < DIRECT)
  {
    hide Pieces, Sizes;
    SizesAre(len, f);
    var a: nat := Min(len, DIRECT);
    PiecesSum(len - a, f.ind);
    assert [a][1..] == [] && Total([a]) == a;
    TotalJoins([a], Pieces(len - a, f.ind));
    if len > a { LastPiece(Pieces(len - a, f.ind)); } else { NoPieces(f.ind); }
  }

  lemma {:induction false} LastPiece(p: seq<nat>)
    requires p != []
    ensures p[|p| - 1] <= Total(p)
  {
    if |p| > 1 { LastPiece(p[1..]); }
  }

  /** The blocks of a file in file order are all different. */
  lemma DataDistinct(b: nat, len: nat, f: Fan)
    requires InRange(len, f)
    ensures Distinct(DataOrder(b, len, f))
  {
    hide DataOrder, DataAt, Needed, OobOrder, OobAt;
    OrderAt(b, len, f);
    var d := DataOrder(b, len, f);
    forall i, j | 0 <= i < j < |d|
      ensures d[i] != d[j]
    {
      DataAtGrows(b, i, j, f);
    }
  }

  lemma DataAtGrows(b: nat, i: nat, j: nat, f: Fan)
    requires i < j && f.dind == f.ind * f.ind
    ensures DataAt(b, i, f) < DataAt(b, j, f)
  {
    hide Met;
    MetGrows(i, j, f);
  }

  lemma MetGrows(i: nat, j: nat, f: Fan)
    requires i <= j && f.dind == f.ind * f.ind
    ensures Met(i, f) <= Met(j, f)
  {
    hide Whole;
    var second: nat, third: nat := DIRECT + f.ind, DIRECT + f.ind + f.dind;
    if i >= third {
      WholeGrows(i - third, j - third, f.ind);
      WholeGrows(i - third, j - third, f.dind);
    } else if i >= second {
      if j < third { WholeGrows(i - second, j - second, f.ind); } else { FewIndirect(i - second, f); }
    }
  }

  lemma WholeGrows(x: nat, y: nat, n: pos)
    requires x <= y
    ensures Whole(x, n) <= Whole(y, n)
  {
    DivMonotone(x, y, n);
  }

  lemma FewIndirect(k: nat, f: Fan)
    requires k < f.dind == f.ind * f.ind
    ensures Whole(k, f.ind) < f.ind
  {
    DivModParts(k, f.ind);
    if k / f.ind >= f.ind { MulMonotone(f.ind, k / f.ind, f.ind); }
  }

  /** A file on one run of exactly the blocks it needs gets its blocks attached in file order exactly when it has at
      most 12 of them: behind the direct blocks the position is back at the start of the list. */
  lemma OneRunAttaches(b: nat, bg: nat, len: nat, f: Fan)
    requires InRange(len, f) && len > 0
    ensures Needed(len, f).Some?
    ensures var c := Rewind(ReserveAll(NewChain([Region(b, len + Needed(len, f).value, bg)]), len, f));
      && c.Valid()
      && (Attached(c, Sizes(len, f)) == Some(seq(len, k requires 0 <= k < len => Some(DataAt(b, k, f)))) <==>
          len <= DIRECT)
  {
    hide Needed, DataOrder, OobOrder, ReserveAll, DataAt, Attached, Sizes, Dealt, BlocksOf;
    ReserveAllDeals(b, bg, len, f);
    OrderAt(b, len, f);
    DataDistinct(b, len, f);
    SizesSum(len, f);
    var c := Rewind(ReserveAll(NewChain([Region(b, len + Needed(len, f).value, bg)]), len, f));
    RewoundAhead(c, DataOrder(b, len, f));
    FirstRegion(b, bg, len, f);
    AttachExactly(c, Sizes(len, f));
    assert InOrder(c, len) == seq(len, k requires 0 <= k < len => Some(DataAt(b, k, f)));
  }

  lemma RewoundAhead(c: Chain, data: seq<nat>)
    requires c.iter == 0 && BlocksOf(c.regions) == data
    ensures Ahead(c) == data
  {
    assert c.regions[0..] == c.regions;
  }

  /** The first region of the list: all of it, or the 12 direct blocks. */
  lemma FirstRegion(b: nat, bg: nat, len: nat, f: Fan)
    requires InRange(len, f) && len > 0
    ensures Needed(len, f).Some?
    ensures var r := ReserveAll(NewChain([Region(b, len + Needed(len, f).value, bg)]), len, f);
      r.regions != [] && r.regions[0].len == Min(len, DIRECT)
  {
    hide Needed, Dealt, AllDealt, ReserveAll, BelowBlocks, NonEmpty;
    NeededIs(len, f);
    var size := len + Needed(len, f).value;
    Start(b, bg, size);
    if len > DIRECT {
      HeadIsDirect(NewChain([Region(b, size, bg)]), b, len, f, size);
    } else {
      NoneNeeded(len, f);
      SmallStays(NewChain([Region(b, len, bg)]), len, f);
    }
  }

  lemma SmallStays(c: Chain, len: nat, f: Fan)
    requires c.Valid() && len <= DIRECT
    ensures ReserveAll(c, len, f) == c
  {
  }

  lemma NoneNeeded(len: nat, f: Fan)
    requires len <= DIRECT
    ensures Needed(len, f) == Some(0)
  {
  }
}
