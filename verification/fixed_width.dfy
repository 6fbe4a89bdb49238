/**
 * Fixed-width unsigned integers of the driver (uint8_t, uint16_t, uint32_t)
 * and the 32-bit modular arithmetic the pulse counters rely on.
 *
 * Dafny's `%` is Euclidean, which for a positive modulus coincides with the
 * way C reduces an unsigned result, so `Wrap` is exactly the conversion of a
 * mathematical integer back into a `uint32_t`.
 */
module FixedWidth {

  const MODULUS: int := 0x1_0000_0000

  newtype u8 = x: int | 0 <= x < 0x100
  newtype u16 = x: int | 0 <= x < 0x1_0000
  newtype u32 = x: int | 0 <= x < 0x1_0000_0000

  /** Reduces a mathematical integer to the `uint32_t` it is stored as. */
  function Wrap(x: int): (r: u32)
    ensures (x - r as int) % MODULUS == 0
    ensures 0 <= x < MODULUS ==> r as int == x
  {
    (x % MODULUS) as u32
  }

  /** `a + b` on `uint32_t`: the carry out of bit 31 is dropped. */
  function Add(a: u32, b: u32): (r: u32)
    ensures a as int + b as int < MODULUS ==> r as int == a as int + b as int
    ensures a as int + b as int >= MODULUS ==> r as int == a as int + b as int - MODULUS
  {
    Wrap(a as int + b as int)
  }

  /** `a - b` on `uint32_t`: a borrow out of bit 31 is dropped. */
  function Sub(a: u32, b: u32): (r: u32)
    ensures a >= b ==> r as int == a as int - b as int
    ensures a < b ==> r as int == a as int - b as int + MODULUS
  {
    Wrap(a as int - b as int)
  }

  /** Subtraction undoes addition: the distance from `a` to `a + d` is `d`. */
  lemma AddThenSub(a: u32, d: u32)
    ensures Sub(Add(a, d), a) == d
  {
  }

  /** Addition undoes subtraction: `b + (a - b)` is `a` again. */
  lemma SubThenAdd(a: u32, b: u32)
    ensures Add(b, Sub(a, b)) == a
  {
  }

  /** Wrapping commutes with addition: only the residues of the operands matter. */
  lemma WrapAdd(x: int, y: int)
    ensures Wrap(x + y) == Add(Wrap(x), Wrap(y))
  {
    var qx := x / MODULUS;
    var qy := y / MODULUS;
    assert x == qx * MODULUS + Wrap(x) as int;
    assert y == qy * MODULUS + Wrap(y) as int;
    WrapShift(Wrap(x) as int + Wrap(y) as int, qx + qy);
  }

  /** Adding a whole number of moduli does not change the wrapped value. */
  lemma WrapShift(x: int, k: int)
    ensures Wrap(x + k * MODULUS) == Wrap(x)
  {
    var q := x / MODULUS;
    var r := x % MODULUS;
    assert x + k * MODULUS == (q + k) * MODULUS + r;
  }

  /**
   * Unsigned subtraction of two wrapped counts recovers their true distance
   * whenever that distance is below 2^32, even if the later count wrapped
   * past zero and the earlier one did not.
   */
  lemma SubMeasuresDistance(earlier: int, later: int)
    requires earlier <= later < earlier + MODULUS
    ensures Sub(Wrap(later), Wrap(earlier)) as int == later - earlier
  {
    var qe := earlier / MODULUS;
    var ql := later / MODULUS;
    assert earlier == qe * MODULUS + Wrap(earlier) as int;
    assert later == ql * MODULUS + Wrap(later) as int;
    var diff := Wrap(later) as int - Wrap(earlier) as int;
    assert later - earlier == (ql - qe) * MODULUS + diff;
    if diff >= 0 {
      assert ql - qe == 0;
    } else {
      assert ql - qe == 1;
    }
  }

  /** The worked example of a wrapping interval: 0xFFFFFFF0 to 0x5 is 21 pulses. */
  lemma SubWrapExample()
    ensures Sub(0x5, 0xFFFF_FFF0) == 0x15
  {
  }
}
