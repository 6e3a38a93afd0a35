/** Times and durations in whole nanoseconds; times count from the Unix epoch. */
module Clock {
  const SECOND := 1_000_000_000

  /** The fraction of a second. */
  type Nanos = n: int | 0 <= n < 1_000_000_000
}
