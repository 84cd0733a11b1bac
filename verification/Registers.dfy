/** Device registers in which only the bits of a mask can be written. */
module Registers {

  function Masked(was: bv32, value: bv32, mask: bv32): bv32 {
    (was & !mask) | (value & mask)
  }

  function Masked16(was: bv16, value: bv16, mask: bv16): bv16 {
    (was & !mask) | (value & mask)
  }

  /** A write takes the bits of the mask from the new value and keeps the others. */
  lemma MaskedBits(was: bv32, value: bv32, mask: bv32)
    ensures Masked(was, value, mask) & mask == value & mask && Masked(was, value, mask) & !mask == was & !mask
  {
  }

  lemma MaskedBits16(was: bv16, value: bv16, mask: bv16)
    ensures Masked16(was, value, mask) & mask == value & mask && Masked16(was, value, mask) & !mask == was & !mask
  {
  }

  /** Two words agree in the bits of a field, or in all bits outside it. */
  predicate SameInside(a: bv32, b: bv32, field: bv32) {
    a & field == b & field
  }

  predicate SameOutside(a: bv32, b: bv32, field: bv32) {
    a & !field == b & !field
  }

  predicate SameOutside16(a: bv16, b: bv16, field: bv16) {
    a & !field == b & !field
  }

  // ----- fields of 16-bit words as plain numbers -----

  lemma Multiple(d: int, e: int)
    requires d > 0
    ensures e >= 1 ==> d * e >= d
    ensures e <= -1 ==> d * e <= -d
  {
  }

  lemma Quotient(n: int, d: int, q: int, r: int)
    requires d > 0 && n == d * q + r && 0 <= r < d
    ensures n / d == q && n % d == r
  {
    assert d * (n / d - q) == r - n % d;
    Multiple(d, n / d - q);
  }

  lemma Nibbles(w: bv16)
    ensures w as int == 16 * ((w >> 4) as int) + (w & 0xf) as int && (w & 0xf) as int < 16
  {
  }

  /** The low four bits are the remainder by 16, the others the quotient. */
  lemma LowNibble(w: bv16)
    ensures (w & 0xf) as int == w as int % 16 && (w >> 4) as int == w as int / 16
  {
    Nibbles(w);
    Quotient(w as int, 16, (w >> 4) as int, (w & 0xf) as int);
  }

  lemma SameAbove(a: bv16, b: bv16)
    requires SameOutside16(a, b, 0xf)
    ensures a >> 4 == b >> 4
  {
  }

  /** Words that differ only in the low four bits have the same quotient by 16. */
  lemma SameQuotient(a: bv16, b: bv16)
    requires SameOutside16(a, b, 0xf)
    ensures a as int / 16 == b as int / 16
  {
    LowNibble(a);
    LowNibble(b);
    SameAbove(a, b);
  }

  lemma LowFive(w: bv16)
    ensures w as int == 32 * ((w >> 5) as int) + (w & 0x1f) as int && (w & 0x1f) as int < 32
  {
  }

  lemma LowSix(w: bv16)
    ensures w as int == 64 * ((w >> 6) as int) + (w & 0x3f) as int
  {
  }

  lemma SixthBit(w: bv16)
    ensures (w & 0x3f) as int == 32 * (if w & 0x20 != 0 then 1 else 0) + (w & 0x1f) as int
  {
  }

  /** Bit 5 is set exactly if the quotient by 32 is odd. */
  lemma BitFive(w: bv16)
    ensures w & 0x20 != 0 <==> w as int / 32 % 2 == 1
  {
    LowFive(w);
    LowSix(w);
    SixthBit(w);
    Quotient(w as int, 32, (w >> 5) as int, (w & 0x1f) as int);
    Quotient((w >> 5) as int, 2, (w >> 6) as int, if w & 0x20 != 0 then 1 else 0);
  }
}
