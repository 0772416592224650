/** The geometry of the file system image: block groups, where their metadata lies, and which
    groups hold a copy of the superblock. */
module Groups {
  import opened Arith

  /** Parameters of the file system, after the group count has been derived. */
  datatype Info = Info(blocksPerGroup: pos, inodeTableBlocks: nat, bgDescBlocks: nat, bgDescReserve: nat,
                       firstDataBlock: nat, lenBlocks: nat, sparseSuper: bool)

  function Power(b: nat, k: nat): nat {
    if k == 0 then 1 else b * Power(b, k - 1)
  }

  ghost predicate IsPower(a: nat, b: nat) {
    exists k: nat :: k >= 1 && a == Power(b, k)
  }

  lemma {:induction false} PowerBounds(b: nat, k: nat)
    requires b >= 2
    ensures Power(b, k) >= 1 && (k >= 1 ==> Power(b, k) >= b && Power(b, k) % b == 0) && (k >= 2 ==> Power(b, k) > b)
  {
    if k >= 1 {
      PowerBounds(b, k - 1);
      var p := Power(b, k - 1);
      MulMonotone(1, p, b);
      DivModUnique(b, p, 0);
      if k >= 2 { MulMonotone(2, p, b); }
    }
  }

  /** A number above b is a power of b exactly when b divides it and the quotient is one. */
  lemma PowerStep(a: nat, b: nat)
    requires b >= 2 && a > b
    ensures IsPower(a, b) <==> a % b == 0 && IsPower(a / b, b)
  {
    if IsPower(a, b) {
      var k: nat :| k >= 1 && a == Power(b, k);
      assert Power(b, 1) == b * Power(b, 0) == b;
      PowerDivides(a, b, k);
    }
    if a % b == 0 && IsPower(a / b, b) {
      var k: nat :| k >= 1 && a / b == Power(b, k);
      assert a == b * (a / b);
      assert Power(b, k + 1) == b * Power(b, k);
    }
  }

  lemma PowerDivides(a: nat, b: nat, k: nat)
    requires b >= 2 && k >= 2 && a == Power(b, k)
    ensures a % b == 0 && a / b == Power(b, k - 1) && IsPower(a / b, b)
  {
    var p := Power(b, k - 1);
    assert a == p * b + 0;
    DivModUnique(b, p, 0);
  }

  lemma PowerBase(a: nat, b: nat)
    requires b >= 2 && a <= b
    ensures IsPower(a, b) <==> a == b
  {
    assert Power(b, 1) == b * Power(b, 0) == b;
    forall k: nat | k >= 1 { PowerBounds(b, k); }
  }

  lemma QuotientShrinks(a: nat, b: nat)
    requires b >= 2 && a > 0
    ensures 0 <= a / b < a
  {
    assert a == a / b * b + a % b;
    MulMonotone(2, b, a / b);
  }

  /** Whether a is b, b squared, b cubed and so on. */
  method IsPowerOf(a0: nat, b: nat) returns (yes: bool)
    requires b >= 2
    ensures yes <==> IsPower(a0, b)
  {
    hide IsPower;
    var a: nat := a0;
    while a > b
      invariant IsPower(a0, b) <==> IsPower(a, b)
      decreases a
    {
      PowerStep(a, b);
      QuotientShrinks(a, b);
      if a % b != 0 { return false; }
      a := a / b;
    }
    PowerBase(a, b);
    yes := a == b;
  }

  /** The groups with a superblock: all of them, or with sparse_super 0, 1 and the powers of 3, 5 and 7. */
  ghost predicate HasSuper(info: Info, bg: nat) {
    !info.sparseSuper || bg <= 1 || IsPower(bg, 3) || IsPower(bg, 5) || IsPower(bg, 7)
  }

  method BgHasSuperBlock(info: Info, bg: nat) returns (yes: bool)
    ensures yes <==> HasSuper(info, bg)
  {
    if !info.sparseSuper { return true; }
    if bg == 0 || bg == 1 { return true; }
    yes := IsPowerOf(bg, 3);
    if !yes { yes := IsPowerOf(bg, 5); }
    if !yes { yes := IsPowerOf(bg, 7); }
  }

  // ----- where the metadata of a group lies

  ghost function SuperBlocks(info: Info, bg: nat): nat {
    if HasSuper(info, bg) then 1 + info.bgDescBlocks + info.bgDescReserve else 0
  }

  ghost function HeaderBlocks(info: Info, bg: nat): nat {
    2 + info.inodeTableBlocks + SuperBlocks(info, bg)
  }

  function FirstBlock(info: Info, bg: nat): nat {
    info.firstDataBlock + bg * info.blocksPerGroup
  }

  /** Block n holds metadata of group bg: the superblock, the descriptors, the blocks reserved for
      more of them, the two bitmaps or the inode table. */
  ghost predicate IsMetadata(info: Info, bg: nat, n: nat) {
    var start := FirstBlock(info, bg);
    var bitmaps := start + SuperBlocks(info, bg);
    || (HasSuper(info, bg) && (n == start || start + 1 <= n < start + 1 + info.bgDescBlocks
                               || 1 + info.bgDescBlocks <= n - start < 1 + info.bgDescBlocks + info.bgDescReserve))
    || n == bitmaps || n == bitmaps + 1
    || bitmaps + 2 <= n < bitmaps + 2 + info.inodeTableBlocks
  }

  /** The metadata is exactly the header of the group. */
  lemma MetadataIsHeader(info: Info, bg: nat, n: nat)
    ensures IsMetadata(info, bg, n) <==> FirstBlock(info, bg) <= n < FirstBlock(info, bg) + HeaderBlocks(info, bg)
  {
  }

  // ----- how many groups there are

  /** The group count and length in blocks: a last group too short for its header is dropped. */
  ghost function AuxInfo(info: Info): (r: (nat, nat))
    requires info.lenBlocks >= info.firstDataBlock
  {
    var groups := DivRoundUp(info.lenBlocks - info.firstDataBlock, info.blocksPerGroup);
    var last := Remainder(info.lenBlocks, info.blocksPerGroup);
    if groups > 0 && last > 0 && last < HeaderBlocks(info, groups - 1) then (groups - 1, info.lenBlocks - last)
    else (groups, info.lenBlocks)
  }

  function Remainder(n: nat, g: pos): (r: nat)
    ensures r == n % g <= n
  {
    DivModParts(n, g);
    n % g
  }

  /** How many blocks of group bg lie inside a file system of `len` blocks. */
  function GroupSize(info: Info, len: nat, bg: nat): int {
    Min(info.blocksPerGroup, len - FirstBlock(info, bg))
  }

  ghost predicate HeadersFit(info: Info) {
    forall bg: nat :: HeaderBlocks(info, bg) < info.blocksPerGroup
  }

  lemma DivRoundUpIs(k: nat, r: nat, g: pos)
    requires r < g
    ensures DivRoundUp(k * g + r, g) == if r == 0 then k else k + 1
  {
    if r == 0 {
      DivModUnique(g, k, g - 1);
      assert k * g + r + g - 1 == k * g + (g - 1);
    } else {
      DivModUnique(g, k + 1, r - 1);
      assert k * g + r + g - 1 == (k + 1) * g + (r - 1);
    }
  }

  /** With k * g blocks or more, the first k groups are full, but for a block when numbering starts at 1. */
  lemma FullGroups(info: Info, len: nat, k: nat, bg: nat)
    requires HeadersFit(info) && info.firstDataBlock <= 1
    requires len >= k * info.blocksPerGroup && bg < k
    ensures GroupSize(info, len, bg) >= HeaderBlocks(info, bg)
  {
    var g := info.blocksPerGroup;
    MulMonotone(bg + 1, k, g);
    assert (bg + 1) * g == bg * g + g;
    assert HeaderBlocks(info, bg) < g;
  }

  /** How many groups n blocks make, the first f of them not counting. */
  lemma AllGroups(n: nat, f: nat, g: pos)
    requires f <= 1 < g && n > f
    ensures n == n / g * g + n % g
    ensures DivRoundUp(n - f, g) == (if n % g > f then n / g + 1 else n / g)
    ensures n % g <= f ==> n / g >= 1
  {
    hide DivRoundUp;
    var q: nat, last: nat := n / g, n % g;
    DivModParts(n, g);
    assert q == 0 ==> q * g == 0;
    if last >= f {
      assert n - f == q * g + (last - f);
      DivRoundUpIs(q, last - f, g);
    } else {
      assert q * g == (q - 1) * g + g;
      assert n - f == (q - 1) * g + (g - 1);
      DivRoundUpIs(q - 1, g - 1, g);
    }
  }

  /** The group count and length, from the quotient and remainder of the length. */
  lemma AuxInfoIs(info: Info)
    requires info.firstDataBlock <= 1 && HeadersFit(info) && info.lenBlocks > info.firstDataBlock
    ensures var g, f := info.blocksPerGroup, info.firstDataBlock;
      var q, last := info.lenBlocks / g, info.lenBlocks % g;
      var all := DivRoundUp(info.lenBlocks - f, g);
      && all == (if last > f then q + 1 else q)
      && (last == 0 || last == f ==> q >= 1)
      && AuxInfo(info) == if last > 0 && last < HeaderBlocks(info, all - 1) then (all - 1, q * g)
                          else (all, info.lenBlocks)
  {
    hide HeaderBlocks, DivRoundUp;
    TwoAtLeast(info, 0);
    assert HeaderBlocks(info, 0) < info.blocksPerGroup;
    AllGroups(info.lenBlocks, info.firstDataBlock, info.blocksPerGroup);
  }

  lemma HeadersFitCases(info: Info, groups: nat, len: nat, all: nat, q: nat, last: nat)
    requires info.firstDataBlock <= 1 && all == (if last > info.firstDataBlock then q + 1 else q) && all >= 1
    requires HeaderBlocks(info, all - 1) >= 2
    requires if last > 0 && last < HeaderBlocks(info, all - 1) then groups == all - 1
             else groups == all && len == info.lenBlocks
    requires forall bg: nat | bg < q :: GroupSize(info, len, bg) >= HeaderBlocks(info, bg)
    requires last >= info.firstDataBlock && len == info.lenBlocks ==>
      GroupSize(info, len, q) == last - info.firstDataBlock
    ensures (forall bg: nat | bg < groups :: GroupSize(info, len, bg) >= HeaderBlocks(info, bg)) <==>
            !(info.firstDataBlock == 1 && last == HeaderBlocks(info, all - 1))
  {
    hide HeaderBlocks, GroupSize;
  }

  /** The quotient and remainder of the length, and the sizes of the groups they make. */
  lemma AuxInfoAre(info: Info) returns (q: nat, last: nat, all: nat)
    requires info.firstDataBlock <= 1 && HeadersFit(info) && info.lenBlocks > info.firstDataBlock
    ensures last == info.lenBlocks % info.blocksPerGroup
    ensures all == DivRoundUp(info.lenBlocks - info.firstDataBlock, info.blocksPerGroup) >= 1
    ensures all == (if last > info.firstDataBlock then q + 1 else q) && HeaderBlocks(info, all - 1) >= 2
    ensures var (groups, len) := AuxInfo(info);
      && (if last > 0 && last < HeaderBlocks(info, all - 1) then groups == all - 1
          else groups == all && len == info.lenBlocks)
      && (forall bg: nat | bg < q :: GroupSize(info, len, bg) >= HeaderBlocks(info, bg))
      && (last >= info.firstDataBlock && len == info.lenBlocks ==>
            GroupSize(info, len, q) == last - info.firstDataBlock)
  {
    hide HeaderBlocks, AuxInfo, DivRoundUp, GroupSize, HeadersFit;
    q, last := info.lenBlocks / info.blocksPerGroup, info.lenBlocks % info.blocksPerGroup;
    all := DivRoundUp(info.lenBlocks - info.firstDataBlock, info.blocksPerGroup);
    AuxInfoIs(info);
    TwoAtLeast(info, all - 1);
    DivModParts(info.lenBlocks, info.blocksPerGroup);
    GroupSizes(info, AuxInfo(info).1, q, last, q * info.blocksPerGroup);
  }

  lemma GroupSizes(info: Info, len: nat, q: nat, last: nat, full: nat)
    requires info.firstDataBlock <= 1 && HeadersFit(info) && last < info.blocksPerGroup
    requires full == q * info.blocksPerGroup && (len == full || len == full + last)
    ensures forall bg: nat | bg < q :: GroupSize(info, len, bg) >= HeaderBlocks(info, bg)
    ensures last >= info.firstDataBlock && len == full + last ==> GroupSize(info, len, q) == last - info.firstDataBlock
  {
    hide HeaderBlocks, GroupSize, HeadersFit;
    if last >= info.firstDataBlock { LastGroupSize(info, len, q, last); }
    forall bg: nat | bg < q
      ensures GroupSize(info, len, bg) >= HeaderBlocks(info, bg)
    {
      FullGroups(info, len, q, bg);
    }
  }

  /** Every group has room for its header unless blocks are numbered from 1 and the image ends one block
      short of the last header: the test in the program takes the length modulo the group size without
      subtracting the first data block. */
  lemma HeadersFitExactly(info: Info)
    requires info.firstDataBlock <= 1 && HeadersFit(info) && info.lenBlocks > info.firstDataBlock
    ensures var (groups, len) := AuxInfo(info);
      (forall bg: nat | bg < groups :: GroupSize(info, len, bg) >= HeaderBlocks(info, bg)) <==>
      !(info.firstDataBlock == 1 && info.lenBlocks % info.blocksPerGroup
          == HeaderBlocks(info, DivRoundUp(info.lenBlocks - 1, info.blocksPerGroup) - 1))
  {
    hide HeaderBlocks, AuxInfo, DivRoundUp, GroupSize, HeadersFit;
    var q, last, all := AuxInfoAre(info);
    HeadersFitCases(info, AuxInfo(info).0, AuxInfo(info).1, all, q, last);
  }

  lemma TwoAtLeast(info: Info, bg: nat)
    ensures HeaderBlocks(info, bg) >= 2
  {
  }

  lemma LastGroupSize(info: Info, len: nat, q: nat, last: nat)
    requires info.firstDataBlock <= 1 && info.firstDataBlock <= last < info.blocksPerGroup
    ensures len == q * info.blocksPerGroup + last ==> GroupSize(info, len, q) == last - info.firstDataBlock
  {
  }
}
