/** Helpers shared by the models: an optional value, rounding macros and C's fixed-width truncation. */
module Arith {

  datatype Option<T> = None | Some(value: T)

  type pos = n: nat | n > 0 witness 1

  /** The value kept when x is stored in an unsigned 32-bit variable. */
  function U32(x: int): (r: nat)
    ensures r < 0x1_0000_0000
    ensures 0 <= x < 0x1_0000_0000 ==> r == x
  {
    x % 0x1_0000_0000
  }

  /** The value kept when x is stored in an unsigned 16-bit variable. */
  function U16(x: int): (r: nat)
    ensures r < 0x1_0000
    ensures 0 <= x < 0x1_0000 ==> r == x
  {
    x % 0x1_0000
  }

  function DivRoundUp(x: nat, y: pos): nat {
    (x + y - 1) / y
  }

  function Align(x: nat, y: pos): nat {
    y * DivRoundUp(x, y)
  }

  function Min(x: int, y: int): int {
    if x < y then x else y
  }

  /** Only the zero multiple of a lies strictly between -a and a. */
  lemma SmallMultiple(k: int, a: pos)
    requires 0 - a < k * a < a
    ensures k == 0
  {
    if k >= 1 {
      MulMonotone(1, k, a);
    }
  }

  /** q * a + r determines q and r when r is a remainder. */
  lemma DivModUnique(a: pos, q: nat, r: nat)
    requires r < a
    ensures (q * a + r) / a == q && (q * a + r) % a == r
  {
    var n := q * a + r;
    var d, m := n / a, n % a;
    assert d * a + m == n;
    assert (d - q) * a == d * a - q * a;
    SmallMultiple(d - q, a);
  }

  lemma DivModParts(n: nat, a: pos)
    ensures n == n / a * a + n % a
  {
  }

  lemma MulMonotone(x: nat, y: nat, k: nat)
    requires x <= y
    ensures x * k <= y * k
  {
    assert y * k == x * k + (y - x) * k;
  }

  lemma DivMonotone(x: nat, y: nat, d: pos)
    requires x <= y
    ensures x / d <= y / d
  {
    DivModParts(x, d);
    DivModParts(y, d);
    if y / d < x / d {
      MulMonotone(y / d + 1, x / d, d);
      assert false;
    }
  }

  /** DivRoundUp is the least q with q * y >= x. */
  lemma DivRoundUpBounds(x: nat, y: pos)
    ensures x <= DivRoundUp(x, y) * y < x + y
  {
    var n := x + y - 1;
    assert n == y * (n / y) + n % y;
  }

  /** Aligning rounds up, by less than one unit, to a multiple that aligning leaves alone. */
  lemma AlignBounds(x: nat, y: pos)
    ensures x <= Align(x, y) < x + y && Align(x, y) % y == 0
    ensures Align(Align(x, y), y) == Align(x, y)
  {
    DivRoundUpBounds(x, y);
    var q := DivRoundUp(x, y);
    DivModUnique(y, q, 0);
    DivModUnique(y, q, y - 1);
    assert Align(x, y) + y - 1 == q * y + (y - 1);
  }

  /** No smaller multiple of the unit is large enough. */
  lemma AlignLeast(x: nat, y: pos, m: nat)
    requires m >= x && m % y == 0
    ensures Align(x, y) <= m
  {
    AlignBounds(x, y);
    DivModParts(m, y);
    if m < Align(x, y) {
      assert Align(x, y) - m == (DivRoundUp(x, y) - m / y) * y;
      SmallMultiple(DivRoundUp(x, y) - m / y, y);
      assert false;
    }
  }
}
