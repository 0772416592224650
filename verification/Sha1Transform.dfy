/** The compression function as the program computes it: 80 unrolled rounds that rename the
    working variables instead of moving them, over a circular window of 16 schedule words. */
module Sha1Transform {
  import opened Sha1Spec

  /** A word of the block as a little-endian machine loads it. */
  function LittleEndian(b0: Byte, b1: Byte, b2: Byte, b3: Byte): Word {
    (b3 as Word << 24) | (b2 as Word << 16) | (b1 as Word << 8) | (b0 as Word)
  }

  function Swap(x: Word): Word {
    (((x << 24) | (x >> 8)) & 0xFF00FF00) | (((x << 8) | (x >> 24)) & 0x00FF00FF)
  }

  lemma SwapTurnsBytes(b0: Byte, b1: Byte, b2: Byte, b3: Byte)
    ensures Swap(LittleEndian(b0, b1, b2, b3)) == BigEndian(b0, b1, b2, b3)
  {
  }

  // The macro rol, for its three distances.

  function Rol1(x: Word): Word { (x << 1) | (x >> 31) }
  function Rol5(x: Word): Word { (x << 5) | (x >> 27) }
  function Rol30(x: Word): Word { (x << 30) | (x >> 2) }

  /** Two shifts rotate a word. */
  lemma RolRotates(x: Word)
    ensures Rol1(x) == Rotl1(x) && Rol5(x) == Rotl5(x) && Rol30(x) == Rotl30(x)
  {
  }

  // The bit functions of the round macros.

  function ChooseBits(w: Word, x: Word, y: Word): Word { (w & (x ^ y)) ^ y }
  function ParityBits(w: Word, x: Word, y: Word): Word { w ^ x ^ y }
  function MajorityBits(w: Word, x: Word, y: Word): Word { ((w | x) & y) | (w & x) }

  lemma ChooseIdentity(x: Word, y: Word, z: Word)
    ensures ((x & (y ^ z)) ^ z) == ((x & y) ^ (!x & z))
  {
  }

  lemma MajorityIdentity(x: Word, y: Word, z: Word)
    ensures (((x | y) & z) | (x & y)) == ((x & y) ^ (x & z) ^ (y & z))
  {
  }

  /** What a round macro leaves in z. */
  function Mix(z: Word, bits: Word, word: Word, k: Word, v: Word): Word { Added(z, bits, word, k, Rol5(v)) }

  function Added(z: Word, bits: Word, word: Word, k: Word, turned: Word): Word { z + (bits + word + k + turned) }

  lemma AddedIsSum(z: Word, bits: Word, word: Word, k: Word, turned: Word)
    ensures Added(z, bits, word, k, turned) == Plus5(turned, bits, z, k, word)
  {
  }

  lemma MixIsSum(z: Word, bits: Word, word: Word, k: Word, v: Word)
    ensures Mix(z, bits, word, k, v) == Plus5(Rotl5(v), bits, z, k, word)
  {
    hide Rol5, Rotl5, Added, Plus5;
    RolRotates(v);
    AddedIsSum(z, bits, word, k, Rol5(v));
  }

  /** Before round i the block holds the last 16 schedule words, or words not yet swapped. */
  ghost predicate Window(b: seq<Word>, m: seq<Word>, i: nat) {
    && |b| == 16 && |m| == 16
    && (forall t: nat | i <= t + 16 && t < i :: b[t % 16] == W(m, t))
    && (forall j: nat | i <= j < 16 :: Swap(b[j]) == m[j])
  }

  ghost predicate Ready(b: seq<Word>, h: Regs, m: seq<Word>, i: nat, r: Regs) {
    Window(b, m, i) && Rounds(h, m, i) == r
  }

  lemma WindowSlides(b: seq<Word>, m: seq<Word>, i: nat, w: Word)
    requires Window(b, m, i) && w == W(m, i)
    ensures Window(b[i % 16 := w], m, i + 1)
  {
    hide W, Swap;
    var slot: nat := i % 16;
    var b' := b[slot := w];
    forall t: nat | i + 1 <= t + 16 && t < i + 1
      ensures b'[t % 16] == W(m, t)
    {
      if t < i {
        Apart(t, i);
        assert b[t % 16] == W(m, t);
      }
    }
    forall j: nat | i + 1 <= j < 16
      ensures Swap(b'[j]) == m[j]
    {
      assert slot == i && b'[j] == b[j];
    }
  }

  lemma Apart(t: nat, i: nat)
    requires t < i < t + 16
    ensures t % 16 != i % 16
  {
  }

  /** The macro blk0: swap the bytes of word i in place. */
  method Blk0(i: nat, block: array<Word>, ghost m: seq<Word>) returns (word: Word)
    requires i < 16 && Window(block[..], m, i)
    modifies block
    ensures Window(block[..], m, i + 1) && word == W(m, i)
  {
    word := Swap(block[i]);
    WindowSlides(block[..], m, i, word);
    ghost var was := block[..];
    block[i] := word;
    assert block[..] == was[i % 16 := word];
  }

  lemma WindowSize(b: seq<Word>, m: seq<Word>, i: nat)
    requires Window(b, m, i)
    ensures |b| == 16 && |m| == 16
  {
  }

  /** The macro blk: overwrite the oldest word of the window with the next schedule word. */
  method Blk(i: nat, block: array<Word>, ghost m: seq<Word>) returns (word: Word)
    requires 16 <= i && Window(block[..], m, i)
    modifies block
    ensures |m| == 16 && Window(block[..], m, i + 1) && word == W(m, i)
  {
    hide Window, W, Rotl1, Rol1;
    ghost var was := block[..];
    WindowSize(was, m, i);
    word := Rol1(block[(i + 13) % 16] ^ block[(i + 8) % 16] ^ block[(i + 2) % 16] ^ block[i % 16]);
    RolRotates(block[(i + 13) % 16] ^ block[(i + 8) % 16] ^ block[(i + 2) % 16] ^ block[i % 16]);
    ScheduleWord(was, m, i);
    WindowSlides(was, m, i, word);
    block[i % 16] := word;
    assert block[..] == was[i % 16 := word];
  }

  /** The slot k - 16 places behind slot i is the one of word i - k. */
  lemma SlotOf(i: nat, k: nat)
    requires 1 <= k <= 16 <= i
    ensures (i + 16 - k) % 16 == (i - k) % 16
  {
    var n: nat := i - k;
    assert n + 16 == i + 16 - k;
  }

  lemma WindowAt(b: seq<Word>, m: seq<Word>, i: nat, k: nat)
    requires 1 <= k <= 16 <= i && Window(b, m, i)
    ensures b[(i + 16 - k) % 16] == W(m, i - k)
  {
    hide W;
    SlotOf(i, k);
    var t: nat := i - k;
    assert b[t % 16] == W(m, t);
  }

  /** What the macro computes from its four slots is the next word of the schedule. */
  lemma ScheduleWord(b: seq<Word>, m: seq<Word>, i: nat)
    requires 16 <= i && Window(b, m, i)
    ensures |b| == 16 && Schedule(b[(i + 13) % 16], b[(i + 8) % 16], b[(i + 2) % 16], b[i % 16]) == W(m, i)
  {
    hide Schedule, Rotl1;
    WindowAt(b, m, i, 3);
    WindowAt(b, m, i, 8);
    WindowAt(b, m, i, 14);
    WindowAt(b, m, i, 16);
    NextWord(m, i);
  }

  lemma NextWord(m: seq<Word>, i: nat)
    requires |m| == 16 <= i
    ensures W(m, i) == Schedule(W(m, i - 3), W(m, i - 8), W(m, i - 14), W(m, i - 16))
  {
    hide Schedule;
  }

  /** A round macro computes the round of the standard, with the variables renamed. */
  lemma MacroIsRound(t: nat, r: Regs, word: Word, bits: Word, k: Word)
    requires bits == F(t, r.b, r.c, r.d) && k == K(t)
    ensures Round(t, r, word) == Regs(Mix(r.e, bits, word, k, r.a), r.a, Rotl30(r.b), r.c, r.d)
  {
    hide F, K, Mix, Plus5, Rotl5, Rotl30;
    MixIsSum(r.e, bits, word, k, r.a);
  }

  lemma BitsOf(t: nat, x: Word, y: Word, z: Word)
    ensures F(t, x, y, z) ==
      if t < 20 then ChooseBits(x, y, z) else if 40 <= t < 60 then MajorityBits(x, y, z) else ParityBits(x, y, z)
  {
    ChooseIdentity(x, y, z);
    MajorityIdentity(x, y, z);
  }

  lemma NextRound(h: Regs, m: seq<Word>, i: nat)
    requires |m| == 16
    ensures Rounds(h, m, i + 1) == Round(i, Rounds(h, m, i), W(m, i))
  {
  }

  method R0(v: Word, w: Word, x: Word, y: Word, z: Word, i: nat, block: array<Word>, ghost h: Regs, ghost m: seq<Word>)
    returns (z': Word, w': Word)
    requires i < 16 && Ready(block[..], h, m, i, Regs(v, w, x, y, z))
    modifies block
    ensures Ready(block[..], h, m, i + 1, Regs(z', v, w', x, y))
  {
    hide Window, Rounds, Round, W, F, Rotl30, Rol30, Mix, ChooseBits;
    var word := Blk0(i, block, m);
    z' := Mix(z, ChooseBits(w, x, y), word, 0x5A827999, v);
    w' := Rol30(w);
    RolRotates(w);
    BitsOf(i, w, x, y);
    MacroIsRound(i, Regs(v, w, x, y, z), word, ChooseBits(w, x, y), 0x5A827999);
    NextRound(h, m, i);
  }

  method R1(v: Word, w: Word, x: Word, y: Word, z: Word, i: nat, block: array<Word>, ghost h: Regs, ghost m: seq<Word>)
    returns (z': Word, w': Word)
    requires 16 <= i < 20 && Ready(block[..], h, m, i, Regs(v, w, x, y, z))
    modifies block
    ensures Ready(block[..], h, m, i + 1, Regs(z', v, w', x, y))
  {
    hide Window, Rounds, Round, W, F, Rotl30, Rol30, Mix, ChooseBits;
    var word := Blk(i, block, m);
    z' := Mix(z, ChooseBits(w, x, y), word, 0x5A827999, v);
    w' := Rol30(w);
    RolRotates(w);
    BitsOf(i, w, x, y);
    MacroIsRound(i, Regs(v, w, x, y, z), word, ChooseBits(w, x, y), 0x5A827999);
    NextRound(h, m, i);
  }

  method R2(v: Word, w: Word, x: Word, y: Word, z: Word, i: nat, block: array<Word>, ghost h: Regs, ghost m: seq<Word>)
    returns (z': Word, w': Word)
    requires 20 <= i < 40 && Ready(block[..], h, m, i, Regs(v, w, x, y, z))
    modifies block
    ensures Ready(block[..], h, m, i + 1, Regs(z', v, w', x, y))
  {
    hide Window, Rounds, Round, W, F, Rotl30, Rol30, Mix, ParityBits;
    var word := Blk(i, block, m);
    z' := Mix(z, ParityBits(w, x, y), word, 0x6ED9EBA1, v);
    w' := Rol30(w);
    RolRotates(w);
    BitsOf(i, w, x, y);
    MacroIsRound(i, Regs(v, w, x, y, z), word, ParityBits(w, x, y), 0x6ED9EBA1);
    NextRound(h, m, i);
  }

  method R3(v: Word, w: Word, x: Word, y: Word, z: Word, i: nat, block: array<Word>, ghost h: Regs, ghost m: seq<Word>)
    returns (z': Word, w': Word)
    requires 40 <= i < 60 && Ready(block[..], h, m, i, Regs(v, w, x, y, z))
    modifies block
    ensures Ready(block[..], h, m, i + 1, Regs(z', v, w', x, y))
  {
    hide Window, Rounds, Round, W, F, Rotl30, Rol30, Mix, MajorityBits;
    var word := Blk(i, block, m);
    z' := Mix(z, MajorityBits(w, x, y), word, 0x8F1BBCDC, v);
    w' := Rol30(w);
    RolRotates(w);
    BitsOf(i, w, x, y);
    MacroIsRound(i, Regs(v, w, x, y, z), word, MajorityBits(w, x, y), 0x8F1BBCDC);
    NextRound(h, m, i);
  }

  method R4(v: Word, w: Word, x: Word, y: Word, z: Word, i: nat, block: array<Word>, ghost h: Regs, ghost m: seq<Word>)
    returns (z': Word, w': Word)
    requires 60 <= i < 80 && Ready(block[..], h, m, i, Regs(v, w, x, y, z))
    modifies block
    ensures Ready(block[..], h, m, i + 1, Regs(z', v, w', x, y))
  {
    hide Window, Rounds, Round, W, F, Rotl30, Rol30, Mix, ParityBits;
    var word := Blk(i, block, m);
    z' := Mix(z, ParityBits(w, x, y), word, 0xCA62C1D6, v);
    w' := Rol30(w);
    RolRotates(w);
    BitsOf(i, w, x, y);
    MacroIsRound(i, Regs(v, w, x, y, z), word, ParityBits(w, x, y), 0xCA62C1D6);
    NextRound(h, m, i);
  }

  method Rounds01(a0: Word, b0: Word, c0: Word, d0: Word, e0: Word, block: array<Word>, ghost h: Regs,
          ghost m: seq<Word>)
    returns (a: Word, b: Word, c: Word, d: Word, e: Word)
    requires Ready(block[..], h, m, 0, Regs(a0, b0, c0, d0, e0))
    modifies block
    ensures Ready(block[..], h, m, 20, Regs(a, b, c, d, e))
  {
    hide Ready;
    a, b, c, d, e := a0, b0, c0, d0, e0;
    e, b := R0(a, b, c, d, e, 0, block, h, m);
    d, a := R0(e, a, b, c, d, 1, block, h, m);
    c, e := R0(d, e, a, b, c, 2, block, h, m);
    b, d := R0(c, d, e, a, b, 3, block, h, m);
    a, c := R0(b, c, d, e, a, 4, block, h, m);
    e, b := R0(a, b, c, d, e, 5, block, h, m);
    d, a := R0(e, a, b, c, d, 6, block, h, m);
    c, e := R0(d, e, a, b, c, 7, block, h, m);
    b, d := R0(c, d, e, a, b, 8, block, h, m);
    a, c := R0(b, c, d, e, a, 9, block, h, m);
    e, b := R0(a, b, c, d, e, 10, block, h, m);
    d, a := R0(e, a, b, c, d, 11, block, h, m);
    c, e := R0(d, e, a, b, c, 12, block, h, m);
    b, d := R0(c, d, e, a, b, 13, block, h, m);
    a, c := R0(b, c, d, e, a, 14, block, h, m);
    e, b := R0(a, b, c, d, e, 15, block, h, m);
    d, a := R1(e, a, b, c, d, 16, block, h, m);
    c, e := R1(d, e, a, b, c, 17, block, h, m);
    b, d := R1(c, d, e, a, b, 18, block, h, m);
    a, c := R1(b, c, d, e, a, 19, block, h, m);
  }

  method Rounds2(a0: Word, b0: Word, c0: Word, d0: Word, e0: Word, block: array<Word>, ghost h: Regs,
          ghost m: seq<Word>)
    returns (a: Word, b: Word, c: Word, d: Word, e: Word)
    requires Ready(block[..], h, m, 20, Regs(a0, b0, c0, d0, e0))
    modifies block
    ensures Ready(block[..], h, m, 40, Regs(a, b, c, d, e))
  {
    hide Ready;
    a, b, c, d, e := a0, b0, c0, d0, e0;
    e, b := R2(a, b, c, d, e, 20, block, h, m);
    d, a := R2(e, a, b, c, d, 21, block, h, m);
    c, e := R2(d, e, a, b, c, 22, block, h, m);
    b, d := R2(c, d, e, a, b, 23, block, h, m);
    a, c := R2(b, c, d, e, a, 24, block, h, m);
    e, b := R2(a, b, c, d, e, 25, block, h, m);
    d, a := R2(e, a, b, c, d, 26, block, h, m);
    c, e := R2(d, e, a, b, c, 27, block, h, m);
    b, d := R2(c, d, e, a, b, 28, block, h, m);
    a, c := R2(b, c, d, e, a, 29, block, h, m);
    e, b := R2(a, b, c, d, e, 30, block, h, m);
    d, a := R2(e, a, b, c, d, 31, block, h, m);
    c, e := R2(d, e, a, b, c, 32, block, h, m);
    b, d := R2(c, d, e, a, b, 33, block, h, m);
    a, c := R2(b, c, d, e, a, 34, block, h, m);
    e, b := R2(a, b, c, d, e, 35, block, h, m);
    d, a := R2(e, a, b, c, d, 36, block, h, m);
    c, e := R2(d, e, a, b, c, 37, block, h, m);
    b, d := R2(c, d, e, a, b, 38, block, h, m);
    a, c := R2(b, c, d, e, a, 39, block, h, m);
  }

  method Rounds3(a0: Word, b0: Word, c0: Word, d0: Word, e0: Word, block: array<Word>, ghost h: Regs,
          ghost m: seq<Word>)
    returns (a: Word, b: Word, c: Word, d: Word, e: Word)
    requires Ready(block[..], h, m, 40, Regs(a0, b0, c0, d0, e0))
    modifies block
    ensures Ready(block[..], h, m, 60, Regs(a, b, c, d, e))
  {
    hide Ready;
    a, b, c, d, e := a0, b0, c0, d0, e0;
    e, b := R3(a, b, c, d, e, 40, block, h, m);
    d, a := R3(e, a, b, c, d, 41, block, h, m);
    c, e := R3(d, e, a, b, c, 42, block, h, m);
    b, d := R3(c, d, e, a, b, 43, block, h, m);
    a, c := R3(b, c, d, e, a, 44, block, h, m);
    e, b := R3(a, b, c, d, e, 45, block, h, m);
    d, a := R3(e, a, b, c, d, 46, block, h, m);
    c, e := R3(d, e, a, b, c, 47, block, h, m);
    b, d := R3(c, d, e, a, b, 48, block, h, m);
    a, c := R3(b, c, d, e, a, 49, block, h, m);
    e, b := R3(a, b, c, d, e, 50, block, h, m);
    d, a := R3(e, a, b, c, d, 51, block, h, m);
    c, e := R3(d, e, a, b, c, 52, block, h, m);
    b, d := R3(c, d, e, a, b, 53, block, h, m);
    a, c := R3(b, c, d, e, a, 54, block, h, m);
    e, b := R3(a, b, c, d, e, 55, block, h, m);
    d, a := R3(e, a, b, c, d, 56, block, h, m);
    c, e := R3(d, e, a, b, c, 57, block, h, m);
    b, d := R3(c, d, e, a, b, 58, block, h, m);
    a, c := R3(b, c, d, e, a, 59, block, h, m);
  }

  method Rounds4(a0: Word, b0: Word, c0: Word, d0: Word, e0: Word, block: array<Word>, ghost h: Regs,
          ghost m: seq<Word>)
    returns (a: Word, b: Word, c: Word, d: Word, e: Word)
    requires Ready(block[..], h, m, 60, Regs(a0, b0, c0, d0, e0))
    modifies block
    ensures Ready(block[..], h, m, 80, Regs(a, b, c, d, e))
  {
    hide Ready;
    a, b, c, d, e := a0, b0, c0, d0, e0;
    e, b := R4(a, b, c, d, e, 60, block, h, m);
    d, a := R4(e, a, b, c, d, 61, block, h, m);
    c, e := R4(d, e, a, b, c, 62, block, h, m);
    b, d := R4(c, d, e, a, b, 63, block, h, m);
    a, c := R4(b, c, d, e, a, 64, block, h, m);
    e, b := R4(a, b, c, d, e, 65, block, h, m);
    d, a := R4(e, a, b, c, d, 66, block, h, m);
    c, e := R4(d, e, a, b, c, 67, block, h, m);
    b, d := R4(c, d, e, a, b, 68, block, h, m);
    a, c := R4(b, c, d, e, a, 69, block, h, m);
    e, b := R4(a, b, c, d, e, 70, block, h, m);
    d, a := R4(e, a, b, c, d, 71, block, h, m);
    c, e := R4(d, e, a, b, c, 72, block, h, m);
    b, d := R4(c, d, e, a, b, 73, block, h, m);
    a, c := R4(b, c, d, e, a, 74, block, h, m);
    e, b := R4(a, b, c, d, e, 75, block, h, m);
    d, a := R4(e, a, b, c, d, 76, block, h, m);
    c, e := R4(d, e, a, b, c, 77, block, h, m);
    b, d := R4(c, d, e, a, b, 78, block, h, m);
    a, c := R4(b, c, d, e, a, 79, block, h, m);
  }

  /** The words of a block as they lie in memory. */
  function Load(block: seq<Byte>): (l: seq<Word>)
    requires |block| == 64
    ensures |l| == 16
  {
    seq(16, j requires 0 <= j < 16 => LittleEndian(block[4 * j], block[4 * j + 1], block[4 * j + 2], block[4 * j + 3]))
  }

  lemma LoadedIsReady(block: seq<Byte>, h: Regs)
    requires |block| == 64
    ensures Ready(Load(block), h, Parse(block), 0, h)
  {
    forall j: nat | j < 16
      ensures Swap(Load(block)[j]) == Parse(block)[j]
    {
      SwapTurnsBytes(block[4 * j], block[4 * j + 1], block[4 * j + 2], block[4 * j + 3]);
    }
  }

  lemma ReadyAt(b: seq<Word>, h: Regs, m: seq<Word>, i: nat, r: Regs)
    requires Ready(b, h, m, i, r)
    ensures |m| == 16 && Rounds(h, m, i) == r
  {
  }

  /** Hash one block into the state, on a copy of the block. */
  method Transform(state: array<Word>, buffer: seq<Byte>)
    requires state.Length == 5 && |buffer| == 64
    modifies state
    ensures Regs(state[0], state[1], state[2], state[3], state[4])
         == Compress(old(Regs(state[0], state[1], state[2], state[3], state[4])), Parse(buffer))
  {
    hide Ready, Window, Rounds, Parse, Load, Plus;
    var loaded := Load(buffer);
    var block := new Word[16](j requires 0 <= j < 16 => loaded[j]);
    assert block[..] == loaded;
    ghost var h, m := Regs(state[0], state[1], state[2], state[3], state[4]), Parse(buffer);
    LoadedIsReady(buffer, h);
    var a, b, c, d, e := Rounds01(state[0], state[1], state[2], state[3], state[4], block, h, m);
    a, b, c, d, e := Rounds2(a, b, c, d, e, block, h, m);
    a, b, c, d, e := Rounds3(a, b, c, d, e, block, h, m);
    a, b, c, d, e := Rounds4(a, b, c, d, e, block, h, m);
    ReadyAt(block[..], h, m, 80, Regs(a, b, c, d, e));
    state[0] := Plus(a, state[0]);
    state[1] := Plus(b, state[1]);
    state[2] := Plus(c, state[2]);
    state[3] := Plus(d, state[3]);
    state[4] := Plus(e, state[4]);
  }
}
