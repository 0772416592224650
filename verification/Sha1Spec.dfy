/** SHA-1 as FIPS 180-4 defines it: functions and constants (sections 4.1.1 and 4.2.1),
    padding (5.1.1), parsing (5.2.1), initial value (5.3.1) and hash computation (6.1.2). */
module Sha1Spec {

  type Word = bv32
  type Byte = bv8

  datatype Regs = Regs(a: Word, b: Word, c: Word, d: Word, e: Word)

  const H0: Regs := Regs(0x67452301, 0xEFCDAB89, 0x98BADCFE, 0x10325476, 0xC3D2E1F0)

  function Rotl1(x: Word): Word { x.RotateLeft(1) }
  function Rotl5(x: Word): Word { x.RotateLeft(5) }
  function Rotl30(x: Word): Word { x.RotateLeft(30) }

  function Ch(x: Word, y: Word, z: Word): Word { (x & y) ^ (!x & z) }
  function Parity(x: Word, y: Word, z: Word): Word { x ^ y ^ z }
  function Maj(x: Word, y: Word, z: Word): Word { (x & y) ^ (x & z) ^ (y & z) }

  function F(t: nat, x: Word, y: Word, z: Word): Word {
    if t < 20 then Ch(x, y, z) else if t < 40 then Parity(x, y, z) else if t < 60 then Maj(x, y, z) else Parity(x, y, z)
  }

  function K(t: nat): Word {
    if t < 20 then 0x5A827999 else if t < 40 then 0x6ED9EBA1 else if t < 60 then 0x8F1BBCDC else 0xCA62C1D6
  }

  function Schedule(x: Word, y: Word, z: Word, u: Word): Word { Rotl1(x ^ y ^ z ^ u) }

  /** The message schedule of a block of 16 words. */
  function W(m: seq<Word>, t: nat): Word
    requires |m| == 16
  {
    if t < 16 then m[t] else Schedule(W(m, t - 3), W(m, t - 8), W(m, t - 14), W(m, t - 16))
  }

  function Plus(x: Word, y: Word): Word { x + y }
  function Plus5(x: Word, y: Word, z: Word, u: Word, v: Word): Word { x + y + z + u + v }

  function Round(t: nat, r: Regs, w: Word): Regs {
    Regs(Plus5(Rotl5(r.a), F(t, r.b, r.c, r.d), r.e, K(t), w), r.a, Rotl30(r.b), r.c, r.d)
  }

  /** The working variables after the first t rounds. */
  function Rounds(h: Regs, m: seq<Word>, t: nat): Regs
    requires |m| == 16
  {
    if t == 0 then h else Round(t - 1, Rounds(h, m, t - 1), W(m, t - 1))
  }

  function Compress(h: Regs, m: seq<Word>): Regs
    requires |m| == 16
  {
    var r := Rounds(h, m, 80);
    Regs(Plus(r.a, h.a), Plus(r.b, h.b), Plus(r.c, h.c), Plus(r.d, h.d), Plus(r.e, h.e))
  }

  function BigEndian(b0: Byte, b1: Byte, b2: Byte, b3: Byte): Word {
    (b0 as Word << 24) | (b1 as Word << 16) | (b2 as Word << 8) | (b3 as Word)
  }

  /** The 16 words of a 64-byte block. */
  function Parse(block: seq<Byte>): (m: seq<Word>)
    requires |block| == 64
    ensures |m| == 16
  {
    seq(16, j requires 0 <= j < 16 => BigEndian(block[4 * j], block[4 * j + 1], block[4 * j + 2], block[4 * j + 3]))
  }

  /** The hash value after all blocks of a message of whole blocks. */
  function HashBlocks(msg: seq<Byte>): Regs
    requires |msg| % 64 == 0
  {
    if msg == [] then H0
    else Compress(HashBlocks(msg[..|msg| - 64]), Parse(msg[|msg| - 64..]))
  }

  function Zeros(n: nat): (z: seq<Byte>)
    ensures |z| == n
  {
    seq(n, _ => 0)
  }

  /** The number of zero bytes between the bit 1 and the length, the least that ends 8 bytes short of a block. */
  function PadZeros(len: nat): (k: nat)
    ensures (len + 1 + k) % 64 == 56 && k < 64
  {
    (119 - len % 64) % 64
  }

  /** The byte with the given binary digits, least significant first. */
  function Pack(o: seq<bool>): Byte
    requires |o| == 8
  {
    (if o[0] then 1 else 0) | (if o[1] then 2 else 0) | (if o[2] then 4 else 0) | (if o[3] then 8 else 0)
    | (if o[4] then 16 else 0) | (if o[5] then 32 else 0) | (if o[6] then 64 else 0) | (if o[7] then 128 else 0)
  }

  /** The k lowest binary digits of n, least significant first. */
  function Binary(n: nat, k: nat): (s: seq<bool>)
    ensures |s| == k
  {
    if k == 0 then [] else [n % 2 == 1] + Binary(n / 2, k - 1)
  }

  function ToByte(n: nat): Byte
    requires n < 256
  {
    Pack(Binary(n, 8))
  }

  /** A number below 2^64 as 8 bytes, most significant first. */
  function Length64(n: nat): (s: seq<Byte>)
    ensures |s| == 8
  {
    seq(8, i requires 0 <= i < 8 => ToByte(n / Pow256(7 - i) % 256))
  }

  function Pow256(n: nat): (p: nat)
    ensures p > 0
  {
    if n == 0 then 1 else 256 * Pow256(n - 1)
  }

  /** The padded message when `bits` is written as its length. */
  function PadWith(msg: seq<Byte>, bits: nat): (r: seq<Byte>)
    ensures |r| % 64 == 0
  {
    var padded := msg + [0x80] + Zeros(PadZeros(|msg|)) + Length64(bits);
    PadLength(|msg|, |padded|);
    padded
  }

  lemma PadLength(len: nat, padded: nat)
    requires padded == len + 1 + PadZeros(len) + 8
    ensures padded % 64 == 0
  {
    var n := len + 1 + PadZeros(len);
    assert n == n / 64 * 64 + 56;
  }

  function WordBytes(w: Word): seq<Byte> {
    [((w >> 24) & 0xFF) as Byte, ((w >> 16) & 0xFF) as Byte, ((w >> 8) & 0xFF) as Byte, (w & 0xFF) as Byte]
  }

  function DigestOf(r: Regs): seq<Byte> {
    WordBytes(r.a) + WordBytes(r.b) + WordBytes(r.c) + WordBytes(r.d) + WordBytes(r.e)
  }

  /** The SHA-1 digest of a message of fewer than 2^64 bits. */
  function Sha1(msg: seq<Byte>): seq<Byte> {
    DigestOf(HashBlocks(PadWith(msg, 8 * |msg|)))
  }
}
