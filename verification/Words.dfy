/** The number of a 32-bit word by its highest bit and the others. */
module Words {

  type Word32 = bv32

  predicate Top(x: Word32) { x & 0x8000_0000 != 0 }
  function Rest(x: Word32): Word32 { x & 0x7FFF_FFFF }

  lemma TopSum(x: Word32)
    ensures x as int == (x & 0x7FFF_FFFF) as int + (if x & 0x8000_0000 != 0 then 0x8000_0000 else 0)
  {
  }

  lemma WordRange(x: Word32)
    ensures 0 <= x as int < 0x1_0000_0000
  {
  }

  lemma WithTopSum(x: Word32)
    ensures (x | 0x8000_0000) as int == (x & 0x7FFF_FFFF) as int + 0x8000_0000
  {
  }

  lemma RestBound(x: Word32)
    ensures 0 <= (x & 0x7FFF_FFFF) as int < 0x8000_0000
  {
    WithTopSum(x);
    WordRange(x | 0x8000_0000);
    WordRange(x & 0x7FFF_FFFF);
  }

  /** The highest bit counts 2^31, the others less. */
  lemma TopNumber(x: Word32)
    ensures x as int == Rest(x) as int + (if Top(x) then 0x8000_0000 else 0) && 0 <= Rest(x) as int < 0x8000_0000
  {
    TopSum(x);
    RestBound(x);
  }
}
