/** Byte buffers with little-endian fields. */
module Bytes {
  import opened Arith

  type byte = n: nat | n < 256

  /** The buffer with some bytes overwritten. */
  function Put(data: seq<byte>, at: nat, bs: seq<byte>): (r: seq<byte>)
    requires at + |bs| <= |data|
    ensures |r| == |data|
    ensures forall k :: 0 <= k < |data| ==> r[k] == if at <= k < at + |bs| then bs[k - at] else data[k]
  {
    data[..at] + bs + data[at + |bs|..]
  }

  function Low(x: nat): (b: byte)
    ensures b == x % 256
  {
    var r: nat := x % 256;
    r
  }

  function LE2(x: nat): (r: seq<byte>)
    ensures |r| == 2
  {
    var y: nat := x / 256;
    [Low(x), Low(y)]
  }

  function LE4(x: nat): (r: seq<byte>)
    ensures |r| == 4
  {
    LE2(x) + LE2(x / 0x1_0000)
  }

  function U16At(data: seq<byte>, at: nat): nat
    requires at + 2 <= |data|
  {
    var lo: nat, hi: nat := data[at], data[at + 1];
    lo + 256 * hi
  }

  function U32At(data: seq<byte>, at: nat): nat
    requires at + 4 <= |data|
  {
    U16At(data, at) + 0x1_0000 * U16At(data, at + 2)
  }

  lemma LowBytes(x: nat)
    ensures Low(x) + 256 * Low(x / 256) == x % 0x1_0000
  {
    var y: nat := x / 256;
    assert x == 256 * y + x % 256 && y == 256 * (y / 256) + y % 256;
  }

  /** Writing a 16-bit field stores the number modulo 2^16. */
  lemma Write16(data: seq<byte>, at: nat, x: nat)
    requires at + 2 <= |data|
    ensures U16At(Put(data, at, LE2(x)), at) == x % 0x1_0000
  {
    LowBytes(x);
  }

  lemma Write32(data: seq<byte>, at: nat, x: nat)
    requires at + 4 <= |data|
    ensures x < 0x1_0000_0000 ==> U32At(Put(data, at, LE4(x)), at) == x
  {
    hide Low;
    var hi: nat := x / 0x1_0000;
    LowBytes(x);
    LowBytes(hi);
    var p := Put(data, at, LE4(x));
    assert p[at] == LE4(x)[0] == Low(x) && p[at + 1] == LE4(x)[1] == Low(x / 256);
    assert p[at + 2] == LE4(x)[2] == Low(hi) && p[at + 3] == LE4(x)[3] == Low(hi / 256);
    assert U16At(p, at) == x % 0x1_0000 && U16At(p, at + 2) == hi % 0x1_0000;
  }

  /** Two buffers hold the same bytes from lo to hi. */
  ghost predicate Agree(x: seq<byte>, y: seq<byte>, lo: nat, hi: nat)
    requires hi <= |x| && hi <= |y|
  {
    forall k :: lo <= k < hi ==> x[k] == y[k]
  }

  lemma AgreeSlice(x: seq<byte>, y: seq<byte>, lo: nat, hi: nat)
    requires lo <= hi <= |x| && hi <= |y| && Agree(x, y, lo, hi)
    ensures x[lo..hi] == y[lo..hi]
  {
  }

  /** Overwrite part of the buffer. */
  method Store(data: array<byte>, at: nat, bs: seq<byte>)
    requires at + |bs| <= data.Length
    modifies data
    ensures data[..] == Put(old(data[..]), at, bs)
  {
    for k := 0 to |bs|
      invariant data[..] == Put(old(data[..]), at, bs[..k])
    {
      data[at + k] := bs[k];
    }
    assert bs[..|bs|] == bs;
  }
}
