/** Instants, seconds and the 64-bit arithmetic of Go's int and Duration. */
module Clock {

  /** Nanoseconds; 0 is Go's zero time, so `Time.IsZero` is equality with 0. */
  type Time = int

  const SECOND: int := 1_000_000_000

  const TWO_63: int := 0x8000_0000_0000_0000
  const TWO_64: int := 0x1_0000_0000_0000_0000

  // Literal constants keep the solver's arithmetic linear.
  function WrapInt64(x: int): int {
    (x + 0x8000_0000_0000_0000) % 0x1_0000_0000_0000_0000 - 0x8000_0000_0000_0000
  }

  /** Go's int on the platforms Shield runs on. */
  type Int64 = x: int | -0x8000_0000_0000_0000 <= x < 0x8000_0000_0000_0000

  function Seconds(n: int): int {
    1_000_000_000 * n
  }

  function FloorSeconds(d: int): int {
    d / 1_000_000_000
  }

  lemma FitsInt64(x: int)
    requires -TWO_63 <= x < TWO_63
    ensures WrapInt64(x) == x
  {
  }
}
