/** Go's signed 64-bit integers: the range of `int64` and the wrap-around of its `+` and `-`. */
module GoInt64 {

  const Two63: int := 0x8000_0000_0000_0000
  const Two64: int := 0x1_0000_0000_0000_0000
  const MinInt64: int := -0x8000_0000_0000_0000
  const MaxInt64: int := 0x7FFF_FFFF_FFFF_FFFF

  /** The values of Go's `int64`. */
  type Int64 = x: int | -0x8000_0000_0000_0000 <= x <= 0x7FFF_FFFF_FFFF_FFFF

  /** The int64 that Go's two's-complement arithmetic yields for the mathematical value `x`:
      the unique value of the int64 range congruent to `x` modulo 2^64. */
  function Wrap(x: int): (r: Int64)
    ensures (x - r) % Two64 == 0
    ensures MinInt64 <= x <= MaxInt64 ==> r == x
  {
    (x + Two63) % Two64 - Two63
  }

  /** For two non-negative int64s, the sign test on the wrapped sum that `handle_next` uses
      detects exactly the sums that leave the int64 range. */
  lemma OverflowIsSignFlip(a: Int64, b: Int64)
    requires 0 <= a && 0 <= b
    ensures Wrap(a + b) < 0 <==> a + b > MaxInt64
    ensures a + b > MaxInt64 ==> Wrap(a + b) == a + b - Two64
  {
    if a + b > MaxInt64 {
      assert Two64 <= a + b + Two63 < 2 * Two64;
      assert (a + b + Two63) % Two64 == a + b + Two63 - Two64;
    }
  }
}
