/** Clock readings and durations as the collectors use them. */
module Clock {

  /** A reading in nanoseconds since the zero value of a Go `time.Time`. */
  type Time = int

  /** The value of a `time.Time` field that was never assigned. */
  const ZERO_TIME: Time := 0

  const MAX_DURATION: int := 0x7FFF_FFFF_FFFF_FFFF
  const MIN_DURATION: int := -0x8000_0000_0000_0000
  const SECOND: int := 1_000_000_000

  /** `t.Sub(u)`: the difference, saturating at the ends of a 64-bit duration. */
  function Sub(t: Time, u: Time): int {
    if t - u > MAX_DURATION then MAX_DURATION
    else if t - u < MIN_DURATION then MIN_DURATION
    else t - u
  }

  /** A time to live that the staleness test can be run against. */
  predicate ValidTtl(ttl: int) {
    0 < ttl <= MAX_DURATION
  }
}
