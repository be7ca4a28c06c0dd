/** The C scalar types the firmware works with, C's integer conversions and
    bitwise operators where the firmware relies on them, and the small Option
    wrapper the readers return. */
module CTypes {

  /** `uint8_t`: one byte as it comes off the I2C bus or the socket. */
  type uint8 = b: int | 0 <= b < 0x100

  const INT16_MIN: int := -0x8000
  const INT16_MAX: int := 0x7FFF

  /** `short int` on the ESP32: a two's-complement signed 16-bit integer. */
  type int16 = v: int | INT16_MIN <= v <= INT16_MAX

  /** 2 to the power k. */
  function Pow2(k: nat): (p: nat)
    ensures p >= 1
  {
    if k == 0 then 1 else 2 * Pow2(k - 1)
  }

  /** `a << k` on a non-negative `int` that does not overflow. */
  function ShiftLeft(a: nat, k: nat): nat
  {
    a * Pow2(k)
  }

  /** `a | b` on non-negative integers, bit by bit from the least significant end. */
  function BitOr(a: nat, b: nat): nat
    decreases a + b
  {
    if a == 0 then b
    else if b == 0 then a
    else 2 * BitOr(a / 2, b / 2) + (if a % 2 == 1 || b % 2 == 1 then 1 else 0)
  }

  /** Assigning an `int` to a `short`: the low 16 bits, read as two's complement. */
  function ToShort(n: int): int16
  {
    var w := n % 0x1_0000;
    if w <= INT16_MAX then w else w - 0x1_0000
  }

  /** Or-ing a value shifted left by k with a value below 2^k sets disjoint bits,
      so it is addition. */
  lemma {:induction false} BitOrDisjoint(a: nat, b: nat, k: nat)
    requires b < Pow2(k)
    ensures BitOr(ShiftLeft(a, k), b) == ShiftLeft(a, k) + b
  {
    if k == 0 {
      assert b == 0;
    } else if a == 0 || b == 0 {
    } else {
      var s := ShiftLeft(a, k);
      assert s == 2 * ShiftLeft(a, k - 1);
      assert s / 2 == ShiftLeft(a, k - 1) && s % 2 == 0;
      BitOrDisjoint(a, b / 2, k - 1);
      assert BitOr(s, b) == 2 * BitOr(s / 2, b / 2) + b % 2;
    }
  }

  /** ToShort is the identity on values a `short` can already hold. */
  lemma ToShortInRange(v: int)
    requires INT16_MIN <= v <= INT16_MAX
    ensures ToShort(v) == v
  {
  }

  datatype Option<+T> = None | Some(value: T)
}
