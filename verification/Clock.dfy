/** Readings of the clock, in nanoseconds, and Unix seconds (Go's time.Time.Unix). */
module Clock {
  const SECOND: int := 1_000_000_000
  const HOUR: int := 3600 * SECOND

  // The last whole second.
  function Unix(t: int): (s: int)
    ensures s * 1_000_000_000 <= t < (s + 1) * 1_000_000_000
  {
    t / SECOND
  }
}
