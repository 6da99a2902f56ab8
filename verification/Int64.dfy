/** Go's signed 64-bit arithmetic, as it applies to `time.Duration`, in
    nanoseconds. */
module Int64 {
  const MAX: int := 0x7FFF_FFFF_FFFF_FFFF
  const MIN: int := -0x8000_0000_0000_0000
  const SPAN: int := 0x1_0000_0000_0000_0000

  const SECOND: int := 1_000_000_000
  const MINUTE: int := 60 * SECOND

  /** The zero `time.Time`, 1 January of year 1, in nanoseconds since the epoch. */
  const ZERO_TIME: int := -62135596800 * SECOND

  predicate Fits(x: int) { MIN <= x <= MAX }

  /** Two's complement wrap-around. */
  function Wrap(x: int): (w: int)
    ensures Fits(w) && (Fits(x) <==> w == x)
  {
    (x - MIN) % SPAN + MIN
  }

  /** `Time.Sub` saturates instead of wrapping. */
  function Saturate(x: int): (w: int)
    ensures Fits(w) && (Fits(x) ==> w == x)
  {
    if x > MAX then MAX else if x < MIN then MIN else x
  }

  /** Division truncates toward zero. */
  function Quotient(a: int, b: nat): int
    requires b > 0
  {
    if a >= 0 then a / b else -((-a) / b)
  }
}
