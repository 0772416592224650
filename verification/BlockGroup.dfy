/** One block group of the image: its block bitmap and free-block bookkeeping. */
module BlockGroup {
  import opened Arith
  import opened Groups

  /** The header blocks that end up reserved: none when the header is larger than a group. */
  ghost function ReservedHeader(info: Info, bg: nat): nat {
    if HeaderBlocks(info, bg) <= info.blocksPerGroup then HeaderBlocks(info, bg) else 0
  }

  /** Bit b is the first one of a byte. */
  predicate AtByte(b: nat) {
    b % 8 == 0
  }

  lemma Aligned(b: nat)
    requires AtByte(b)
    ensures b / 8 * 8 == b && AtByte(b + 8)
  {
  }

  class Group {
    const bitmap: array<bool>
    const firstBlock: nat
    const headerBlocks: nat
    var dataBlocksUsed: nat
    var freeBlocks: nat
    var firstFreeBlock: nat

    /** The clear bits among the first n are exactly the free interval. */
    ghost predicate Packed(n: nat)
      reads this, bitmap
    {
      && n <= bitmap.Length
      && firstFreeBlock + freeBlocks <= n
      && forall b :: 0 <= b < n ==> (!bitmap[b] <==> firstFreeBlock <= b < firstFreeBlock + freeBlocks)
    }

    /** Every bit from lo to hi is clear. */
    ghost predicate Clear(lo: nat, hi: nat)
      requires hi <= bitmap.Length
      reads this, bitmap
    {
      forall b :: lo <= b < hi ==> !bitmap[b]
    }

    /** Set a bit; the result says whether it was set before. */
    method SetBit(b: nat) returns (was: bool)
      requires b < bitmap.Length
      modifies bitmap
      ensures was == old(bitmap[b]) && bitmap[..] == old(bitmap[..])[b := true]
    {
      was := bitmap[b];
      bitmap[b] := true;
    }

    /** Set the 8 bits of the byte of the bitmap that bit b lies in; the result says whether one was set before. */
    method Set8Bits(b: nat) returns (was: bool)
      requires b / 8 * 8 + 8 <= bitmap.Length
      modifies bitmap
      ensures was <==> exists k :: b / 8 * 8 <= k < b / 8 * 8 + 8 && old(bitmap[k])
      ensures forall k :: 0 <= k < bitmap.Length ==>
        bitmap[k] == (old(bitmap[k]) || b / 8 * 8 <= k < b / 8 * 8 + 8)
    {
      var lo: nat := b / 8 * 8;
      was := exists k :: lo <= k < lo + 8 && bitmap[k];
      forall k | lo <= k < lo + 8 { bitmap[k] := true; }
    }

    /** Mark num blocks from start on as used: bit by bit up to a byte boundary, byte by byte, bit by bit. */
    method ReserveBlocks(start: nat, num: nat) returns (ok: bool)
      requires num <= freeBlocks ==> start + num <= bitmap.Length
      modifies this`freeBlocks, this`firstFreeBlock, bitmap
      ensures num > old(freeBlocks) ==> !ok && bitmap[..] == old(bitmap[..])
      ensures num <= old(freeBlocks) ==> (ok <==> old(Clear(start, start + num)))
      ensures ok ==> forall b :: 0 <= b < bitmap.Length ==> bitmap[b] == (old(bitmap[b]) || start <= b < start + num)
      ensures freeBlocks == if ok then old(freeBlocks) - num else old(freeBlocks)
      ensures firstFreeBlock == if ok && start == old(firstFreeBlock) then start + num else old(firstFreeBlock)
    {
      hide AtByte;
      if num > freeBlocks { return false; }
      var i: nat, block: nat := 0, start;
      while i < num && !AtByte(block)
        modifies bitmap
        invariant Marked(start, i, num, block) && old(Clear(start, block))
        invariant forall b :: 0 <= b < bitmap.Length ==> bitmap[b] == (old(bitmap[b]) || start <= b < block)
      {
        var was := SetBit(block);
        if was { return false; }
        i, block := i + 1, block + 1;
      }
      while i + 8 <= num / 8 * 8
        modifies bitmap
        invariant Marked(start, i, num, block) && old(Clear(start, block)) && (i < num ==> AtByte(block))
        invariant forall b :: 0 <= b < bitmap.Length ==> bitmap[b] == (old(bitmap[b]) || start <= b < block)
      {
        Aligned(block);
        var was := Set8Bits(block);
        if was { return false; }
        i, block := i + 8, block + 8;
      }
      while i < num
        modifies bitmap
        invariant Marked(start, i, num, block) && old(Clear(start, block))
        invariant forall b :: 0 <= b < bitmap.Length ==> bitmap[b] == (old(bitmap[b]) || start <= b < block)
      {
        var was := SetBit(block);
        if was { return false; }
        i, block := i + 1, block + 1;
      }
      freeBlocks := freeBlocks - num;
      if start == firstFreeBlock { firstFreeBlock := start + num; }
      ok := true;
    }

    ghost predicate Marked(start: nat, i: nat, num: nat, block: nat) {
      i <= num && block == start + i && start + num <= bitmap.Length
    }

    /** Give the last num blocks taken from the group back. */
    method FreeBlocks(num: nat, ghost n: nat)
      requires Packed(n) && num <= firstFreeBlock
      modifies this`freeBlocks, this`firstFreeBlock, bitmap
      ensures Packed(n)
      ensures freeBlocks == old(freeBlocks) + num && firstFreeBlock == old(firstFreeBlock) - num
    {
      var i: nat, block: int := 0, firstFreeBlock - 1;
      while i < num
        modifies bitmap
        invariant i <= num && block == firstFreeBlock - 1 - i
        invariant forall b :: 0 <= b < bitmap.Length ==> bitmap[b] == (old(bitmap[b]) && !(block < b < firstFreeBlock))
      {
        bitmap[block] := false;
        i, block := i + 1, block - 1;
      }
      freeBlocks := freeBlocks + num;
      firstFreeBlock := firstFreeBlock - num;
    }

    /** The end of a group's initialisation: reserve the blocks behind the end of an image of len blocks. */
    method ReserveOverrun(perGroup: nat, len: nat)
      requires Packed(perGroup) && firstFreeBlock + freeBlocks == perGroup
      requires firstBlock + perGroup < 0x1_0000_0000 && len + perGroup < 0x1_0000_0000
      modifies this`freeBlocks, this`firstFreeBlock, bitmap
      ensures Packed(perGroup) && firstFreeBlock >= old(firstFreeBlock)
      ensures freeBlocks > 0 ==> firstFreeBlock == old(firstFreeBlock)
      ensures var size := Min(perGroup, len - firstBlock);
        freeBlocks == if size >= old(firstFreeBlock) then size - old(firstFreeBlock) else old(freeBlocks)
    {
      var overrun := U32(firstBlock + perGroup - len);
      if overrun > 0 {
        var ok := ReserveBlocks(U32(perGroup - overrun), overrun);
      }
    }

    /** A group before any allocation: its header is used, and so are the blocks behind the end of the
        image, unless the image ends inside the header; then the second reservation fails unnoticed.
        A header larger than the group is reported and not reserved. */
    constructor (info: Info, i: nat, bits: nat, hasSuper: bool)
      requires info.blocksPerGroup <= bits
      requires hasSuper <==> HasSuper(info, i)
      requires FirstBlock(info, i) + info.blocksPerGroup < 0x1_0000_0000
      requires info.lenBlocks < 0x1_0000_0000 - info.blocksPerGroup
      ensures fresh(bitmap) && bitmap.Length == bits
      ensures Packed(info.blocksPerGroup)
      ensures firstBlock == FirstBlock(info, i) && headerBlocks == HeaderBlocks(info, i) && dataBlocksUsed == 0
      ensures freeBlocks == if GroupSize(info, info.lenBlocks, i) >= ReservedHeader(info, i)
                            then GroupSize(info, info.lenBlocks, i) - ReservedHeader(info, i)
                            else info.blocksPerGroup - ReservedHeader(info, i)
      ensures freeBlocks > 0 ==> firstFreeBlock == ReservedHeader(info, i)
      ensures firstFreeBlock >= ReservedHeader(info, i)
    {
      var header := 2 + info.inodeTableBlocks;
      if hasSuper { header := header + 1 + info.bgDescBlocks + info.bgDescReserve; }
      bitmap := new bool[bits](_ => false);
      firstBlock := info.firstDataBlock + i * info.blocksPerGroup;
      headerBlocks := header;
      dataBlocksUsed := 0;
      freeBlocks := info.blocksPerGroup;
      firstFreeBlock := 0;
      new;
      assert header == HeaderBlocks(info, i) && firstBlock == FirstBlock(info, i);
      hide HeaderBlocks, SuperBlocks, HasSuper, IsPower, FirstBlock;
      var ok := ReserveBlocks(firstFreeBlock, headerBlocks);
      assert ok <==> headerBlocks <= info.blocksPerGroup;
      ReserveOverrun(info.blocksPerGroup, info.lenBlocks);
    }
  }
}
