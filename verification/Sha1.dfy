/** Streaming SHA-1: a context that absorbs a message piece by piece and pads it at the end. */
module Sha1 {
  import opened Arith
  import opened Sha1Spec
  import Sha1Transform
  import Sha1Words

  /** The bit count after a piece of len bytes: the carry is added only when the low word wraps. */
  function NextCount(low: nat, high: nat, len: nat): (nat, nat) {
    var low' := U32(low + U32(len * 8));
    (low', if low' < low then U32(high + len / 0x2000_0000 + 1) else high)
  }

  function Bits(low: nat, high: nat): nat {
    high * 0x1_0000_0000 + low
  }

  const TWO64: nat := 0x1_0000_0000_0000_0000

  lemma TwoWords(top: nat, low: nat)
    requires top < 0x2_0000_0000 && low < 0x1_0000_0000
    ensures (top * 0x1_0000_0000 + low) % TWO64 == U32(top) * 0x1_0000_0000 + low
  {
    if top >= 0x1_0000_0000 {
      assert top * 0x1_0000_0000 + low == 1 * TWO64 + ((top - 0x1_0000_0000) * 0x1_0000_0000 + low);
    }
  }

  /** The count is advanced by 8 * len modulo 2^64 exactly when the piece is shorter than 2^29
      bytes or the low word wraps. */
  lemma CountAdvances(low: nat, high: nat, len: nat)
    requires low < 0x1_0000_0000 && high < 0x1_0000_0000 && len < 0x1_0000_0000
    ensures var (low', high') := NextCount(low, high, len);
      Bits(low', high') == (Bits(low, high) + 8 * len) % TWO64 <==> (len < 0x2000_0000 || low' < low)
  {
    var q, r := len / 0x2000_0000, len % 0x2000_0000;
    assert U32(len * 8) == r * 8 by { assert len * 8 == q * 0x1_0000_0000 + r * 8; }
    var sum := low + r * 8;
    var carry := if sum < 0x1_0000_0000 then 0 else 1;
    assert U32(sum) == sum - carry * 0x1_0000_0000;
    var total, top := Bits(low, high) + 8 * len, high + q + carry;
    assert total == top * 0x1_0000_0000 + U32(sum);
    TwoWords(top, U32(sum));
  }

  /** The count of a piece of 2^29 bytes behind nothing is lost. */
  lemma CountLost()
    ensures NextCount(0, 0, 0x2000_0000) == (0, 0) && Bits(0, 0) != (Bits(0, 0) + 8 * 0x2000_0000) % TWO64
  {
  }

  /** The test whether a piece of len bytes completes the buffer, filled up to j: the sum is a 32-bit one. */
  predicate Completes(j: nat, len: nat) {
    U32(j + len) > 63
  }

  /** Where in the buffer the last copy of a piece ends: behind what is left of the piece when blocks were hashed,
      else behind the whole piece. */
  function CopyEnd(j: nat, len: nat): nat {
    if Completes(j, len) then (j + len) % 64 else j + len
  }

  /** The last copy stays in the buffer of 64 bytes exactly when the 32-bit sum does not wrap around. */
  lemma LastCopyFits(j: nat, len: nat)
    requires j < 64 && len < 0x1_0000_0000
    ensures CopyEnd(j, len) <= 64 <==> j + len < 0x1_0000_0000
  {
    if j + len >= 0x1_0000_0000 { assert U32(j + len) == j + len - 0x1_0000_0000; }
  }

  /** One byte in the buffer and the longest piece: the copy would run over the buffer. */
  lemma LongPieceOverruns()
    ensures CopyEnd(1, 0xFFFF_FFFF) == 0x1_0000_0000
  {
  }

  /** What is left for the last copy after i bytes went into blocks. */
  lemma RestIs(j: nat, len: nat, i: nat)
    requires j < 64 && j + len < 0x1_0000_0000 && i <= len
    ensures Completes(j, len) <==> j + len > 63
    ensures j + len > 63 && len < i + 64 && (j + i) % 64 == 0 ==> len - i == CopyEnd(j, len)
    ensures j + len <= 63 ==> j + len == CopyEnd(j, len)
  {
    if j + len > 63 && len < i + 64 && (j + i) % 64 == 0 { DivModUnique(64, (j + i) / 64, len - i); }
  }

  lemma PartOfBlock(n: nat, i: nat)
    ensures (n + i) % 64 == 0 <==> (n % 64 + i) % 64 == 0
  {
  }

  /** The index of the block loop does not wrap around. */
  lemma IndexFits(j: nat, i: nat, len: nat)
    requires i <= len && j + len < 0x1_0000_0000 && (j + i) % 64 == 0
    ensures U32(i + 63) == i + 63
  {
    assert (j + i) / 64 * 64 == j + i;
  }

  class Context {
    const state: array<Word>
    const buffer: array<Byte>
    var low: nat
    var high: nat
    ghost var msg: seq<Byte>

    /** msg is the message absorbed so far: its whole blocks are hashed, its tail is in the buffer. */
    ghost predicate Valid()
      reads this, state, buffer
    {
      && state.Length == 5 && buffer.Length == 64
      && low == U32(8 * |msg|) && high < 0x1_0000_0000
      && Regs(state[0], state[1], state[2], state[3], state[4]) == HashBlocks(Whole(msg))
      && buffer[..|msg| % 64] == Tail(msg)
    }

    constructor ()
      ensures Valid() && msg == [] && high == 0
      ensures fresh(state) && fresh(buffer)
    {
      state := new Word[5];
      buffer := new Byte[64];
      low, high, msg := 0, 0, [];
      hide HashBlocks;
      new;
      state[0] := 0x67452301;
      state[1] := 0xEFCDAB89;
      state[2] := 0x98BADCFE;
      state[3] := 0x10325476;
      state[4] := 0xC3D2E1F0;
      HashOfNothing();
    }

    /** memcpy of n bytes of data, from i on, to the buffer at j. */
    method Fill(j: nat, data: seq<Byte>, i: nat, n: nat)
      requires buffer.Length == 64 && j + n <= 64 && i + n <= |data|
      modifies buffer
      ensures buffer[..] == old(buffer[..j]) + data[i..i + n] + old(buffer[j + n..])
    {
      forall k | 0 <= k < n { buffer[j + k] := data[i + k]; }
    }

    /** Add a piece to the count; j is the buffer position before it. */
    method AddCount(len: nat) returns (j: nat)
      requires low == U32(8 * |msg|) && high < 0x1_0000_0000
      modifies this`low, this`high
      ensures j == |msg| % 64
      ensures (low, high) == NextCount(old(low), old(high), len)
      ensures low == U32(8 * (|msg| + len)) && high < 0x1_0000_0000
    {
      LowPosition(|msg|);
      LowWordAdds(8 * |msg|, len * 8);
      j := low;
      low := U32(low + U32(len * 8));
      if low < j { high := U32(high + len / 0x2000_0000 + 1); }
      j := (j / 8) % 64;
    }

    /** The hash of the blocks that fit: first the buffer completed from data, then blocks of data. */
    method HashWhole(j: nat, data: seq<Byte>, ghost was: seq<Byte>) returns (i: nat)
      requires state.Length == 5 && buffer.Length == 64
      requires j == |was| % 64 && 63 < j + |data| < 0x1_0000_0000
      requires Regs(state[0], state[1], state[2], state[3], state[4]) == HashBlocks(Whole(was))
      requires buffer[..j] == Tail(was)
      modifies state, buffer
      ensures 0 < i <= |data| < i + 64 && (|was| + i) % 64 == 0
      ensures Regs(state[0], state[1], state[2], state[3], state[4]) == HashBlocks(was + data[..i])
    {
      hide HashBlocks, Compress, Parse, Whole, Tail, U32;
      i := 64 - j;
      Fill(j, data, 0, i);
      FirstBlock(was, data, buffer[..]);
      Sha1Transform.Transform(state, buffer[..]);
      IndexFits(j, i, |data|);
      while U32(i + 63) < |data|
        invariant 64 - j <= i <= |data| && (|was| + i) % 64 == 0 && U32(i + 63) == i + 63
        invariant Regs(state[0], state[1], state[2], state[3], state[4]) == HashBlocks(was + data[..i])
      {
        NextBlock(was, data, i);
        Sha1Transform.Transform(state, data[i..i + 64]);
        i := i + 64;
        IndexFits(j, i, |data|);
      }
    }

    /** Copy what is left of a piece behind the j bytes in the buffer. */
    method KeepRest(j: nat, data: seq<Byte>, i: nat)
      requires state.Length == 5 && buffer.Length == 64
      requires low == U32(8 * (|msg| + |data|)) && high < 0x1_0000_0000
      requires i <= |data| && j + (|data| - i) < 64
      requires if i == 0 then j == |msg| % 64 else j == 0 && (|msg| + i) % 64 == 0
      requires Regs(state[0], state[1], state[2], state[3], state[4])
            == HashBlocks(if i == 0 then Whole(msg) else msg + data[..i])
      requires buffer[..j] == if i == 0 then Tail(msg) else []
      modifies this`msg, buffer
      ensures Valid() && msg == old(msg) + data
    {
      hide HashBlocks, Whole, Tail, U32;
      Split(msg, data, i);
      ghost var front := buffer[..j];
      Fill(j, data, i, |data| - i);
      assert buffer[..j + (|data| - i)] == front + data[i..];
      msg := msg + data;
    }

    /** Absorb a piece of the message. */
    method Update(data: seq<Byte>)
      requires Valid() && |msg| % 64 + |data| < 0x1_0000_0000
      modifies this, state, buffer
      ensures Valid() && msg == old(msg) + data
      ensures (low, high) == NextCount(old(low), old(high), |data|)
    {
      hide HashBlocks, Whole, Tail, NextCount, U32, Completes, CopyEnd;
      var len := |data|;
      ghost var was := msg;
      var j := AddCount(len);
      var i := 0;
      RestIs(j, len, 0);
      if Completes(j, len) {
        i := HashWhole(j, data, was);
        j := 0;
      }
      PartOfBlock(|was|, i);
      RestIs(|was| % 64, len, i);
      assert j + (len - i) == CopyEnd(|was| % 64, len);
      KeepRest(j, data, i);
    }

    lemma CountFacts()
      requires Valid()
      ensures low < 0x1_0000_0000 && high < 0x1_0000_0000 && low / 8 % 64 == |msg| % 64
    {
      LowPosition(|msg|);
    }

    lemma WholeMessage()
      requires Valid() && |msg| % 64 == 0
      ensures state.Length == 5
      ensures Regs(state[0], state[1], state[2], state[3], state[4]) == HashBlocks(msg)
    {
      hide HashBlocks;
      assert Whole(msg) == msg;
    }

    /** The count as 8 bytes, most significant first. */
    method ExtractCount() returns (finalcount: seq<Byte>)
      requires low < 0x1_0000_0000 && high < 0x1_0000_0000
      ensures finalcount == Length64(Bits(low, high))
    {
      hide CountByte, Bits, Length64;
      var bytes := new Byte[8](i requires 0 <= i < 8 => 0);
      var i := 0;
      while i < 8
        invariant 0 <= i <= 8
        invariant forall k :: 0 <= k < i ==> bytes[k] == Length64(Bits(low, high))[k]
      {
        CountBytes(low, high, i);
        bytes[i] := CountByte(low, high, i);
        i := i + 1;
      }
      finalcount := bytes[..];
    }

    /** Absorb zero bytes until 8 bytes are missing to a whole block. */
    method PadWithZeros(ghost was: seq<Byte>)
      requires Valid() && msg == was + [0x80]
      modifies this, state, buffer
      ensures Valid() && msg == was + [0x80] + Zeros(PadZeros(|was|))
    {
      hide HashBlocks, NextCount, Valid;
      ghost var k := 0;
      CountFacts();
      assert msg == was + [0x80] + Zeros(0);
      while low / 8 % 64 * 8 != 448
        invariant Valid() && k <= PadZeros(|was|) && msg == was + [0x80] + Zeros(k)
        invariant low / 8 % 64 == (|was| + 1 + k) % 64
        decreases PadZeros(|was|) - k
      {
        Update([0]);
        k := k + 1;
        assert Zeros(k) == Zeros(k - 1) + [0];
        assert msg == was + [0x80] + Zeros(k);
        CountFacts();
      }
      PadEnds(|was|, k);
    }

    /** Pad the message, absorb its length and extract the digest. */
    method Final() returns (digest: seq<Byte>)
      requires Valid()
      modifies this, state, buffer
      ensures digest == DigestOf(HashBlocks(PadWith(old(msg), Bits(old(low), old(high)))))
    {
      hide HashBlocks, Length64, NextCount, Bits, Valid, DigestOf;
      ghost var was := msg;
      CountFacts();
      var finalcount := ExtractCount();
      Update([0x80]);
      PadWithZeros(was);
      Update(finalcount);
      assert msg == PadWith(was, Bits(old(low), old(high)));
      WholeMessage();
      digest := ExtractDigest();
    }

    method ExtractDigest() returns (digest: seq<Byte>)
      requires state.Length == 5
      ensures digest == DigestOf(Regs(state[0], state[1], state[2], state[3], state[4]))
    {
      hide WordBytes;
      digest := [];
      var i := 0;
      while i < 5
        invariant 0 <= i <= 5
        invariant i == 0 ==> digest == []
        invariant i == 1 ==> digest == WordBytes(state[0])
        invariant i == 2 ==> digest == WordBytes(state[0]) + WordBytes(state[1])
        invariant i == 3 ==> digest == WordBytes(state[0]) + WordBytes(state[1]) + WordBytes(state[2])
        invariant i == 4 ==>
          digest == WordBytes(state[0]) + WordBytes(state[1]) + WordBytes(state[2]) + WordBytes(state[3])
        invariant i == 5 ==> digest == DigestOf(Regs(state[0], state[1], state[2], state[3], state[4]))
      {
        digest := digest + WordBytes(state[i]);
        i := i + 1;
      }
    }
  }

  /** The low word of the count gives the position in the buffer. */
  lemma LowPosition(n: nat)
    ensures U32(8 * n) / 8 % 64 == n % 64
  {
    var k := 8 * n / 0x1_0000_0000;
    var u := n - k * 0x2000_0000;
    assert U32(8 * n) == 8 * u;
    assert n == (k * 0x80_0000 + u / 64) * 64 + u % 64;
    DivModUnique(64, k * 0x80_0000 + u / 64, u % 64);
  }

  lemma LowWordAdds(x: nat, y: nat)
    ensures U32(U32(x) + U32(y)) == U32(x + y)
  {
    assert x + y == (x / 0x1_0000_0000 + y / 0x1_0000_0000) * 0x1_0000_0000 + (U32(x) + U32(y));
  }

  lemma HashAppend(done: seq<Byte>, block: seq<Byte>)
    requires |done| % 64 == 0 && |block| == 64
    ensures (|done| + 64) % 64 == 0 && HashBlocks(done + block) == Compress(HashBlocks(done), Parse(block))
  {
    hide Compress, Parse;
    var all := done + block;
    assert all[..|all| - 64] == done && all[|all| - 64..] == block;
  }

  /** The buffer, filled up with the start of the piece. */
  lemma FirstBlock(was: seq<Byte>, data: seq<Byte>, block: seq<Byte>)
    requires 64 - |was| % 64 <= |data| && block == Tail(was) + data[..64 - |was| % 64]
    ensures var done := was + data[..64 - |was| % 64];
      |done| % 64 == 0 && HashBlocks(done) == Compress(HashBlocks(Whole(was)), Parse(block))
  {
    hide Compress, Parse, HashBlocks;
    HashAppend(Whole(was), block);
    assert Whole(was) + block == was + data[..64 - |was| % 64];
  }

  lemma NextBlock(was: seq<Byte>, data: seq<Byte>, i: nat)
    requires (|was| + i) % 64 == 0 && i + 64 <= |data|
    ensures (|was| + (i + 64)) % 64 == 0
    ensures HashBlocks(was + data[..i + 64]) == Compress(HashBlocks(was + data[..i]), Parse(data[i..i + 64]))
  {
    hide Compress, Parse, HashBlocks;
    HashAppend(was + data[..i], data[i..i + 64]);
    assert was + data[..i] + data[i..i + 64] == was + data[..i + 64];
  }

  /** Where the absorbed message splits into whole blocks and tail. */
  lemma Split(was: seq<Byte>, data: seq<Byte>, i: nat)
    requires i <= |data| && |data| - i < 64
    requires i == 0 ==> |was| % 64 + |data| < 64
    requires i > 0 ==> (|was| + i) % 64 == 0
    ensures i == 0 ==> Whole(was + data) == Whole(was) && Tail(was + data) == Tail(was) + data
    ensures i > 0 ==> Whole(was + data) == was + data[..i] && Tail(was + data) == data[i..]
    ensures |was + data| % 64 == if i == 0 then |was| % 64 + |data| else |data| - i
  {
    var all := was + data;
    if i == 0 {
      assert |all| % 64 == |was| % 64 + |data|;
    } else {
      assert |all| == |was| + i + (|data| - i);
      assert |all| % 64 == |data| - i;
    }
  }

  lemma HashOfNothing()
    ensures HashBlocks(Whole([])) == H0 && Tail([]) == []
  {
    assert Whole([]) == [];
  }

  /** The whole blocks of a message, and what is left of it. */
  function Whole(msg: seq<Byte>): (w: seq<Byte>)
    ensures |w| % 64 == 0
  {
    msg[..|msg| - |msg| % 64]
  }

  function Tail(msg: seq<Byte>): (t: seq<Byte>)
    ensures |t| == |msg| % 64
  {
    msg[|msg| - |msg| % 64..]
  }

  // ----- padding

  /** Byte i of a 64-bit count kept as two words, as the final step extracts it. */
  function CountByte(low: nat, high: nat, i: nat): Byte
    requires i < 8
  {
    ToByte((if i >= 4 then low else high) / Pow256(3 - i % 4) % 256)
  }

  /** A byte of the low word: the high word adds a multiple of 256 above it. */
  lemma LowByte(low: nat, high: nat, p: nat, c: nat)
    requires p > 0 && c * 256 * p == 0x1_0000_0000
    ensures Bits(low, high) / p % 256 == low / p % 256
  {
    var k: nat, q: nat := high * c, low / p;
    Regroup(high, c * 256, p);
    assert high * (c * 256) == 256 * k by { Regroup(high, c, 256); }
    AddMultiple(low, 256 * k, p);
    SameRemainder(q, k);
  }

  lemma Regroup(x: nat, y: nat, z: nat)
    ensures x * (y * z) == x * y * z
  {
  }

  lemma AddMultiple(n: nat, k: nat, p: nat)
    requires p > 0
    ensures (k * p + n) / p == k + n / p
  {
    var q: nat, r: nat := n / p, n % p;
    DivModParts(n, p);
    Distributes(k, q, p);
    DivModUnique(p, k + q, r);
    assert k * p + n == (k + q) * p + r;
  }

  lemma Distributes(k: nat, q: nat, p: nat)
    ensures (k + q) * p == k * p + q * p
  {
  }

  lemma SameRemainder(q: nat, k: nat)
    ensures (256 * k + q) % 256 == q % 256
  {
  }

  /** A byte of the high word. */
  lemma HighByte(low: nat, high: nat, p: nat)
    requires p > 0 && low < 0x1_0000_0000
    ensures Bits(low, high) / (p * 0x1_0000_0000) == high / p
  {
    var q, r := high / p, high % p;
    assert high == q * p + r;
    assert Bits(low, high) == q * (p * 0x1_0000_0000) + (r * 0x1_0000_0000 + low);
    DivModUnique(p * 0x1_0000_0000, q, r * 0x1_0000_0000 + low);
  }

  lemma CountByteIs(low: nat, high: nat, i: nat)
    requires low < 0x1_0000_0000 && high < 0x1_0000_0000 && i < 8
    ensures Bits(low, high) / Pow256(7 - i) % 256 == (if i >= 4 then low else high) / Pow256(3 - i % 4) % 256
  {
    hide Bits;
    assert Pow256(0) == 1 && Pow256(1) == 256 && Pow256(2) == 0x1_0000 && Pow256(3) == 0x100_0000;
    if i >= 4 {
      LowByte(low, high, Pow256(7 - i), Pow256(i - 4));
    } else {
      HighByte(low, high, Pow256(3 - i));
      assert Pow256(7 - i) == Pow256(3 - i) * 0x1_0000_0000 by { PowShift(3 - i); }
    }
  }

  lemma PowShift(n: nat)
    ensures Pow256(n + 4) == Pow256(n) * 0x1_0000_0000
  {
    assert Pow256(n + 4) == 256 * Pow256(n + 3) && Pow256(n + 3) == 256 * Pow256(n + 2)
      && Pow256(n + 2) == 256 * Pow256(n + 1);
  }

  /** The count as the final step extracts it is the length field of the padding. */
  lemma CountBytes(low: nat, high: nat, i: nat)
    requires low < 0x1_0000_0000 && high < 0x1_0000_0000 && i < 8
    ensures Length64(Bits(low, high))[i] == CountByte(low, high, i)
  {
    hide Bits, ToByte, Pow256;
    CountByteIs(low, high, i);
  }

  lemma PadEnds(len: nat, k: nat)
    requires k <= PadZeros(len) && (len + 1 + k) % 64 == 56
    ensures k == PadZeros(len)
  {
    var z := PadZeros(len);
    assert (len + 1 + z) - (len + 1 + k) == ((len + 1 + z) / 64 - (len + 1 + k) / 64) * 64;
  }

  // ----- whole messages

  function Concat(pieces: seq<seq<Byte>>): seq<Byte> {
    if pieces == [] then [] else Concat(pieces[..|pieces| - 1]) + pieces[|pieces| - 1]
  }

  /** A piece below 2^29 bytes adds its length to a count that stays below 2^64. */
  lemma PieceCounts(low: nat, high: nat, len: nat)
    requires low < 0x1_0000_0000 && high < 0x1_0000_0000 && len < 0x2000_0000
    ensures var (low', high') := NextCount(low, high, len);
      Bits(low, high) + 8 * len < TWO64 ==> Bits(low', high') == Bits(low, high) + 8 * len
  {
    hide NextCount, Bits;
    CountAdvances(low, high, len);
    var total: nat := Bits(low, high) + 8 * len;
    BelowTwo64(total);
  }

  lemma BelowTwo64(n: nat)
    ensures n < TWO64 ==> n % TWO64 == n
  {
  }

  /** The two count words after all pieces, starting from zero. */
  function CountOf(pieces: seq<seq<Byte>>): (nat, nat) {
    if pieces == [] then (0, 0)
    else
      var (low, high) := CountOf(pieces[..|pieces| - 1]);
      NextCount(low, high, |pieces[|pieces| - 1]|)
  }

  /** Short pieces are counted right. */
  lemma {:induction false} ShortPiecesCount(pieces: seq<seq<Byte>>)
    requires forall p <- pieces :: |p| < 0x2000_0000
    requires 8 * |Concat(pieces)| < TWO64
    ensures var (low, high) := CountOf(pieces);
      low < 0x1_0000_0000 && high < 0x1_0000_0000 && Bits(low, high) == 8 * |Concat(pieces)|
  {
    if pieces != [] {
      var rest := pieces[..|pieces| - 1];
      ShortPiecesCount(rest);
      PieceCounts(CountOf(rest).0, CountOf(rest).1, |pieces[|pieces| - 1]|);
    }
  }

  /** A message cut into pieces in any way, hashed by one call of Update a piece: the digest is that
      of the message padded with the count, and the SHA-1 digest when every piece is short. */
  method HashPieces(pieces: seq<seq<Byte>>) returns (digest: seq<Byte>)
    requires forall k :: 0 <= k < |pieces| ==> |Concat(pieces[..k])| % 64 + |pieces[k]| < 0x1_0000_0000
    ensures digest == DigestOf(HashBlocks(PadWith(Concat(pieces), Bits(CountOf(pieces).0, CountOf(pieces).1))))
    ensures (forall p <- pieces :: |p| < 0x2000_0000) && 8 * |Concat(pieces)| < TWO64 ==> digest == Sha1(Concat(pieces))
  {
    hide HashBlocks, NextCount, PadWith, DigestOf, Bits;
    var ctx := new Context();
    var i := 0;
    while i < |pieces|
      invariant 0 <= i <= |pieces| && ctx.Valid() && ctx.msg == Concat(pieces[..i])
      invariant fresh(ctx) && fresh(ctx.state) && fresh(ctx.buffer)
      invariant (ctx.low, ctx.high) == CountOf(pieces[..i])
    {
      assert pieces[..i + 1][..i] == pieces[..i];
      ctx.Update(pieces[i]);
      i := i + 1;
    }
    assert pieces[..i] == pieces;
    digest := ctx.Final();
    if (forall p <- pieces :: |p| < 0x2000_0000) && 8 * |Concat(pieces)| < TWO64 {
      ShortPiecesCount(pieces);
    }
  }

  // ----- the padding is the standard's exactly when the count is the message length

  lemma ByteInjective(x: nat, y: nat)
    requires x < 256 && y < 256
    ensures ToByte(x) == ToByte(y) ==> x == y
  {
    hide ToByte;
    Sha1Words.ToByteIs(x);
    Sha1Words.ToByteIs(y);
  }

  lemma {:induction false} DigitsDetermine(x: nat, y: nat, n: nat)
    requires x < Pow256(n) && y < Pow256(n)
    requires forall k: nat | k < n :: x / Pow256(k) % 256 == y / Pow256(k) % 256
    ensures x == y
    decreases n
  {
    if n > 0 {
      assert x / Pow256(0) % 256 == y / Pow256(0) % 256;
      forall k: nat | k < n - 1
        ensures x / 256 / Pow256(k) % 256 == y / 256 / Pow256(k) % 256
      {
        DivDiv(x, Pow256(k));
        DivDiv(y, Pow256(k));
        assert x / Pow256(k + 1) % 256 == y / Pow256(k + 1) % 256;
      }
      DigitsDetermine(x / 256, y / 256, n - 1);
    }
  }

  lemma DivDiv(x: nat, p: pos)
    ensures x / 256 / p == x / (256 * p)
  {
    var u, r := x / 256, x % 256;
    var q, s := u / p, u % p;
    assert x == q * (256 * p) + (s * 256 + r);
    DivModUnique(256 * p, q, s * 256 + r);
  }

  lemma PaddingIsStandard(msg: seq<Byte>, bits: nat)
    requires bits < TWO64 && 8 * |msg| < TWO64
    ensures PadWith(msg, bits) == PadWith(msg, 8 * |msg|) <==> bits == 8 * |msg|
  {
    hide ToByte;
    if PadWith(msg, bits) == PadWith(msg, 8 * |msg|) {
      var n := |msg| + 1 + PadZeros(|msg|);
      assert PadWith(msg, bits)[n..] == Length64(bits) && PadWith(msg, 8 * |msg|)[n..] == Length64(8 * |msg|);
      forall k: nat | k < 8
        ensures bits / Pow256(k) % 256 == 8 * |msg| / Pow256(k) % 256
      {
        assert Length64(bits)[7 - k] == Length64(8 * |msg|)[7 - k];
        ByteInjective(bits / Pow256(k) % 256, 8 * |msg| / Pow256(k) % 256);
      }
      PowShift(4);
      PowShift(0);
      DigitsDetermine(bits, 8 * |msg|, 8);
    }
  }
}
