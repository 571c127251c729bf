/**
 Java's signed 64-bit `long`: its range, two's-complement wrap-around of
 unchecked arithmetic, and the range check that a checked addition performs.
 */
module JavaLong {

  const MIN_LONG: int := -0x8000_0000_0000_0000
  const MAX_LONG: int := 0x7FFF_FFFF_FFFF_FFFF
  const TWO_64: int := 0x1_0000_0000_0000_0000

  /** True iff `x` is representable as a Java `long`. */
  predicate InLong(x: int) {
    MIN_LONG <= x <= MAX_LONG
  }

  type Long = x: int | MIN_LONG <= x <= MAX_LONG

  /** The `long` that unchecked Java arithmetic yields for the exact value `x`. */
  function WrapLong(x: int): (r: Long)
    ensures InLong(x) ==> r == x
    ensures (x - r) % TWO_64 == 0
  {
    (x - MIN_LONG) % TWO_64 + MIN_LONG
  }

  /** A `long` congruent to `x` modulo 2^64 is the wrapped value of `x`. */
  lemma WrapUnique(x: int, r: int, k: int)
    requires InLong(r) && r == x + k * TWO_64
    ensures WrapLong(x) == r
  {
  }

  /** Wrapping an intermediate result does not change the final wrapped sum. */
  lemma WrapAddWrap(x: int, y: int)
    ensures WrapLong(WrapLong(x) + y) == WrapLong(x + y)
  {
  }
}
