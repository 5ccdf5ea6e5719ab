/** Java's 32-bit two's-complement `int`, the type of `startIndex`, `limit` and `prevStart`. */
module JavaInt {

  const TWO_32: int := 0x1_0000_0000
  const MIN_VALUE: int := -0x8000_0000
  const MAX_VALUE: int := 0x7fff_ffff

  type Int32 = x: int | -0x8000_0000 <= x <= 0x7fff_ffff

  predicate InRange(x: int)
  {
    MIN_VALUE <= x <= MAX_VALUE
  }

  /** The `int` that Java's arithmetic yields for the mathematical result `x`. */
  function Wrap(x: int): (r: Int32)
    ensures InRange(x) ==> r == x
    ensures (x - r) % TWO_32 == 0
  {
    var q := (x - MIN_VALUE) / TWO_32;
    assert x - ((x - MIN_VALUE) % TWO_32 + MIN_VALUE) == q * TWO_32;
    (x - MIN_VALUE) % TWO_32 + MIN_VALUE
  }

  /** Java's `a + b` on two `int`s. */
  function Add(a: Int32, b: Int32): Int32
  {
    Wrap(a + b)
  }

  /** Java's `a - b` on two `int`s. */
  function Sub(a: Int32, b: Int32): Int32
  {
    Wrap(a - b)
  }
}
