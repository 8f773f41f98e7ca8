/** Go's `time.Duration` constants, as integer counts of nanoseconds. */
module Durations {

  const Millisecond: int := 1_000_000
  const Second: int := 1_000_000_000
  const Hour: int := 3_600_000_000_000
}
