/** Go's int64. */
module Integers {
  const MAX64: int := 0x7fff_ffff_ffff_ffff
  const MIN64: int := -0x8000_0000_0000_0000
  const TWO64: int := 0x1_0000_0000_0000_0000

  predicate IsInt64(x: int) {
    MIN64 <= x <= MAX64
  }

  /** Two's complement wrap-around; the values are the int64 range and wrapping is congruence. */
  function Wrap64(x: int): (w: int)
    ensures IsInt64(w)
    ensures IsInt64(x) ==> w == x
    ensures MAX64 < x <= MAX64 + TWO64 ==> w == x - TWO64
  {
    (x - MIN64) % TWO64 + MIN64
  }

  /** A hundredth, truncated toward zero. */
  function Hundredth(a: int): (q: int)
    ensures a >= 0 ==> 0 <= q && q * 100 <= a < q * 100 + 100
    ensures a < 0 ==> q <= 0 && q * 100 - 100 < a <= q * 100
  {
    if a >= 0 then a / 100 else -((-a) / 100)
  }
}
