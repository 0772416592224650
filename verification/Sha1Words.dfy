/** What the operations on words and bytes mean as numbers: sums are taken modulo 2^32, words are written most
    significant byte first, and a byte given by its binary digits is that number. */
module Sha1Words {
  import opened Sha1Spec
  import opened Words

  // ----- sums

  lemma PlusIs(x: Word, y: Word)
    ensures Plus(x, y) == x + y
  {
  }

  /** The halves and the lowest bit of a word. */
  function Half(x: Word): Word { x >> 1 }
  function Low(x: Word): bv1 { if x & 1 == 0 then 0 else 1 }

  predicate Small(x: Word) { x < 0x8000_0000 }

  function Carry(a: bv1, b: bv1, c: bv1): bv1 { (a & b) | (a & c) | (b & c) }
  function Odd(a: bv1, b: bv1, c: bv1): bv1 { a ^ b ^ c }

  /** The sum with a carry. */
  function Sum(x: Word, y: Word, c: bv1): Word { Plus(Plus(x, y), c as Word) }

  function Three(x: Word, y: Word, z: Word): Word { x + y + z }

  lemma ThreeFromFront(x: Word, y: Word, z: Word, p: Word)
    requires p == x + y
    ensures Plus(p, z) == Three(x, y, z)
  {
  }

  lemma ThreeFromBehind(x: Word, y: Word, z: Word, q: Word)
    requires q == y + z
    ensures Plus(x, q) == Three(x, y, z)
  {
  }

  lemma Assoc(x: Word, y: Word, z: Word)
    ensures Plus(Plus(x, y), z) == Plus(x, Plus(y, z))
  {
    hide Plus, Three;
    PlusIs(x, y);
    PlusIs(y, z);
    ThreeFromFront(x, y, z, Plus(x, y));
    ThreeFromBehind(x, y, z, Plus(y, z));
  }

  lemma Comm(x: Word, y: Word)
    ensures Plus(x, y) == Plus(y, x)
  {
  }

  lemma MiddleSwap(a: Word, b: Word, c: Word, d: Word)
    ensures Plus(Plus(a, b), Plus(c, d)) == Plus(Plus(a, c), Plus(b, d))
  {
    hide Plus;
    Assoc(a, b, Plus(c, d));
    Assoc(b, c, d);
    Comm(b, c);
    Assoc(c, b, d);
    Assoc(a, c, Plus(b, d));
  }

  lemma CarryWord(p: bv1, q: bv1, c: bv1)
    ensures Sum(p as Word, q as Word, c)
            == Sum(Carry(p, q, c) as Word, Carry(p, q, c) as Word, Odd(p, q, c))
  {
  }

  /** Adding two words from their halves and lowest bits. */
  lemma SumCarries(x: Word, y: Word, p: bv1, q: bv1, c: bv1)
    ensures var h := Sum(x, y, Carry(p, q, c)); Sum(Sum(x, x, p), Sum(y, y, q), c) == Sum(h, h, Odd(p, q, c))
  {
    hide Plus, Carry, Odd;
    var k, s, xy := Carry(p, q, c), Odd(p, q, c), Plus(x, y);
    MiddleSwap(Plus(x, x), p as Word, Plus(y, y), q as Word);
    Assoc(Plus(Plus(x, x), Plus(y, y)), Plus(p as Word, q as Word), c as Word);
    MiddleSwap(x, x, y, y);
    CarryWord(p, q, c);
    Assoc(Plus(xy, xy), Plus(k as Word, k as Word), s as Word);
    MiddleSwap(xy, xy, k as Word, k as Word);
  }

  lemma Double(a: Word)
    requires Small(a)
    ensures (a << 1) as int == 2 * (a as int)
  {
  }

  lemma OrBit(x: Word, b: bv1)
    requires x & 1 == 0
    ensures (x | b as Word) as int == x as int + b as int
  {
  }

  lemma Even(a: Word)
    ensures (a << 1) & 1 == 0
  {
  }

  lemma SumIsOr(a: Word, c: bv1)
    ensures Sum(a, a, c) == (a << 1) | c as Word
  {
  }

  lemma DoubleSum(a: Word, c: bv1)
    requires Small(a)
    ensures Sum(a, a, c) as int == 2 * (a as int) + c as int
  {
    hide Plus, Sum, Small;
    Double(a);
    Even(a);
    OrBit(a << 1, c);
    SumIsOr(a, c);
  }

  lemma HalvesSum(x: Word)
    ensures x == Sum(Half(x), Half(x), Low(x))
  {
  }

  lemma HalfIsSmall(x: Word)
    ensures Small(Half(x))
  {
  }

  lemma HalvesNumber(x: Word)
    ensures x as int == 2 * (Half(x) as int) + Low(x) as int
  {
    hide Plus, Sum, Half, Low, Small;
    HalvesSum(x);
    HalfIsSmall(x);
    DoubleSum(Half(x), Low(x));
  }

  lemma CarryNumber(a: bv1, b: bv1, c: bv1)
    ensures a as int + b as int + c as int == 2 * (Carry(a, b, c) as int) + Odd(a, b, c) as int
  {
  }

  lemma SmallHalves(x: Word, y: Word, k: bv1)
    requires Small(x) && Small(y)
    ensures Small(Sum(Half(x), Half(y), k))
  {
  }

  lemma ZeroNumber(x: Word)
    ensures x as int == 0 <==> x == 0
  {
  }

  lemma BitNumber(c: bv1)
    ensures Sum(0, 0, c) as int == c as int
  {
  }

  lemma {:induction false} SmallSum(x: Word, y: Word, c: bv1)
    requires Small(x) && Small(y)
    ensures Sum(x, y, c) as int == x as int + y as int + c as int
    decreases x as int + y as int
  {
    hide Plus, Sum, Half, Low, Small, Carry, Odd;
    HalvesNumber(x);
    HalvesNumber(y);
    ZeroNumber(x);
    ZeroNumber(y);
    if x == 0 && y == 0 {
      BitNumber(c);
    } else {
      var p, q := Low(x), Low(y);
      var k := Carry(p, q, c);
      HalvesSum(x);
      HalvesSum(y);
      HalfIsSmall(x);
      HalfIsSmall(y);
      SmallHalves(x, y, k);
      CarryNumber(p, q, c);
      SmallSum(Half(x), Half(y), k);
      SumCarries(Half(x), Half(y), p, q, c);
      DoubleSum(Sum(Half(x), Half(y), k), Odd(p, q, c));
    }
  }

  lemma NoCarry(x: Word)
    ensures Plus(x, (0 as bv1) as Word) == x
  {
  }

  lemma RestIsSmall(x: Word)
    ensures Small(Rest(x))
  {
  }

  /** Doubling loses the highest bit. */
  lemma TopIsLost(x: Word, c: bv1)
    ensures Sum(x, x, c) == Sum(Rest(x), Rest(x), c)
  {
    hide Sum;
    SumIsOr(x, c);
    SumIsOr(Rest(x), c);
  }

  lemma Wrapped(x: int, y: int, hx: int, hy: int, p: int, q: int, k: int, s: int, r: int, top: bool)
    requires x == 2 * hx + p && y == 2 * hy + q && p + q == 2 * k + s && 0 <= s <= 1
    requires hx + hy + k == r + (if top then 0x8000_0000 else 0) && 0 <= r < 0x8000_0000
    ensures (x + y) % 0x1_0000_0000 == 2 * r + s
  {
  }

  lemma BitBounds(c: bv1)
    ensures 0 <= c as int <= 1
  {
  }

  lemma PlusOfHalves(x: Word, y: Word)
    ensures var p, q := Low(x), Low(y); var h := Sum(Half(x), Half(y), Carry(p, q, 0));
      Plus(x, y) == Sum(Rest(h), Rest(h), Odd(p, q, 0))
  {
    hide Plus, Sum, Half, Low, Small, Carry, Odd, Rest;
    var p, q := Low(x), Low(y);
    SumIsPlus(x, y);
    HalvesSum(x);
    HalvesSum(y);
    SumCarries(Half(x), Half(y), p, q, 0);
    TopIsLost(Sum(Half(x), Half(y), Carry(p, q, 0)), Odd(p, q, 0));
  }

  lemma SumIsPlus(x: Word, y: Word)
    ensures Sum(x, y, 0) == Plus(x, y)
  {
    hide Plus;
    NoCarry(Plus(x, y));
  }

  /** The sum of the halves, with the carry of the lowest bits. */
  function HalfSum(x: Word, y: Word): Word { Sum(Half(x), Half(y), Carry(Low(x), Low(y), 0)) }

  lemma PlusAsNumber(x: Word, y: Word)
    ensures Plus(x, y) as int == 2 * (Rest(HalfSum(x, y)) as int) + Odd(Low(x), Low(y), 0) as int
  {
    hide Plus, Sum, Half, Low, Small, Carry, Odd, Rest, Top;
    PlusOfHalves(x, y);
    RestIsSmall(HalfSum(x, y));
    DoubleSum(Rest(HalfSum(x, y)), Odd(Low(x), Low(y), 0));
  }

  lemma HalfSumAsNumber(x: Word, y: Word)
    ensures HalfSum(x, y) as int == Half(x) as int + Half(y) as int + Carry(Low(x), Low(y), 0) as int
  {
    hide Plus, Sum, Half, Low, Small, Carry, Odd, Rest, Top;
    HalfIsSmall(x);
    HalfIsSmall(y);
    SmallSum(Half(x), Half(y), Carry(Low(x), Low(y), 0));
  }

  /** Words are added modulo 2^32. */
  lemma PlusIsModular(x: Word, y: Word)
    ensures Plus(x, y) as int == (x as int + y as int) % 0x1_0000_0000
  {
    hide Plus, HalfSum, Sum, Half, Low, Small, Carry, Odd, Rest, Top;
    PlusAsNumber(x, y);
    HalfSumAsNumber(x, y);
    HalvesNumber(x);
    HalvesNumber(y);
    CarryNumber(Low(x), Low(y), 0);
    BitBounds(Odd(Low(x), Low(y), 0));
    var h := HalfSum(x, y);
    TopNumber(h);
    Wrapped(x as int, y as int, Half(x) as int, Half(y) as int, Low(x) as int, Low(y) as int,
            Carry(Low(x), Low(y), 0) as int, Odd(Low(x), Low(y), 0) as int, Rest(h) as int, Top(h));
  }

  // ----- words and bytes

  lemma ShiftedNumber(x: Word)
    requires x < 0x100_0000
    ensures (x << 8) as int == 256 * (x as int)
  {
  }

  lemma OrByte(x: Word, b: Byte)
    requires x & 0xFF == 0
    ensures (x | b as Word) as int == x as int + b as int
  {
  }

  lemma ByteNumber(b: Byte)
    ensures (b as Word) as int == b as int
  {
  }

  lemma ShiftedLow(x: Word)
    ensures (x << 8) & 0xFF == 0
  {
  }

  /** A byte appended to a word. */
  lemma AppendByte(x: Word, b: Byte)
    requires x < 0x100_0000
    ensures ((x << 8) | b as Word) as int == 256 * (x as int) + b as int
  {
    ShiftedNumber(x);
    ShiftedLow(x);
    OrByte(x << 8, b);
  }

  lemma ByteByByte(b0: Byte, b1: Byte, b2: Byte, b3: Byte)
    ensures var w0 := b0 as Word;
      var w1 := (w0 << 8) | b1 as Word;
      var w2 := (w1 << 8) | b2 as Word;
      w0 < 0x100_0000 && w1 < 0x100_0000 && w2 < 0x100_0000 && BigEndian(b0, b1, b2, b3) == (w2 << 8) | b3 as Word
  {
  }

  /** A word is read most significant byte first. */
  lemma BigEndianIs(b0: Byte, b1: Byte, b2: Byte, b3: Byte)
    ensures BigEndian(b0, b1, b2, b3) as int
            == b0 as int * 0x100_0000 + b1 as int * 0x1_0000 + b2 as int * 0x100 + b3 as int
  {
    hide BigEndian;
    ByteByByte(b0, b1, b2, b3);
    ByteNumber(b0);
    var w0 := b0 as Word;
    AppendByte(w0, b1);
    var w1 := (w0 << 8) | b1 as Word;
    AppendByte(w1, b2);
    AppendByte((w1 << 8) | b2 as Word, b3);
  }

  /** A word written as bytes and read again. */
  lemma WordBytesReadBack(w: Word)
    ensures |WordBytes(w)| == 4
    ensures BigEndian(WordBytes(w)[0], WordBytes(w)[1], WordBytes(w)[2], WordBytes(w)[3]) == w
  {
  }

  // ----- numbers as bytes

  function Digit(b: bool): nat { if b then 1 else 0 }

  lemma PackIs(o: seq<bool>)
    requires |o| == 8
    ensures Pack(o) as int
            == Digit(o[0]) + 2 * Digit(o[1]) + 4 * Digit(o[2]) + 8 * Digit(o[3])
            + 16 * Digit(o[4]) + 32 * Digit(o[5]) + 64 * Digit(o[6]) + 128 * Digit(o[7])
  {
  }

  /** The number with the given binary digits. */
  function Number(o: seq<bool>): nat {
    if o == [] then 0 else Digit(o[0]) + 2 * Number(o[1..])
  }

  lemma {:induction false} BinaryIs(n: nat, k: nat)
    requires n < Pow2(k)
    ensures Number(Binary(n, k)) == n
  {
    if k > 0 {
      BinaryIs(n / 2, k - 1);
      assert Binary(n, k)[1..] == Binary(n / 2, k - 1);
    }
  }

  function Pow2(k: nat): nat {
    if k == 0 then 1 else 2 * Pow2(k - 1)
  }

  lemma DigitAt(o: seq<bool>, k: nat)
    requires k < |o|
    ensures Number(o[k..]) == Digit(o[k]) + 2 * Number(o[k + 1..])
  {
    assert o[k..][1..] == o[k + 1..];
  }

  lemma NoDigits(o: seq<bool>)
    ensures Number(o[|o|..]) == 0 && o[0..] == o
  {
  }

  lemma TwoDigits(o: seq<bool>, k: nat)
    requires k + 2 <= |o|
    ensures Number(o[k..]) == Digit(o[k]) + 2 * Digit(o[k + 1]) + 4 * Number(o[k + 2..])
  {
    hide Number, Digit;
    DigitAt(o, k);
    DigitAt(o, k + 1);
  }

  lemma FourDigits(o: seq<bool>, k: nat)
    requires k + 4 <= |o|
    ensures Number(o[k..]) ==
            Digit(o[k]) + 2 * Digit(o[k + 1]) + 4 * Digit(o[k + 2]) + 8 * Digit(o[k + 3]) + 16 * Number(o[k + 4..])
  {
    hide Number, Digit;
    TwoDigits(o, k);
    TwoDigits(o, k + 2);
  }

  lemma EightDigits(o: seq<bool>)
    requires |o| == 8
    ensures Number(o)
            == Digit(o[0]) + 2 * Digit(o[1]) + 4 * Digit(o[2]) + 8 * Digit(o[3])
            + 16 * Digit(o[4]) + 32 * Digit(o[5]) + 64 * Digit(o[6]) + 128 * Digit(o[7])
  {
    hide Number, Digit;
    NoDigits(o);
    FourDigits(o, 0);
    FourDigits(o, 4);
  }

  /** A number below 256 as a byte is that number. */
  lemma ToByteIs(n: nat)
    requires n < 256
    ensures ToByte(n) as int == n
  {
    hide Pack, Binary, Number, Digit;
    assert Pow2(8) == 256;
    BinaryIs(n, 8);
    PackIs(Binary(n, 8));
    EightDigits(Binary(n, 8));
  }
}
