/** Arithmetic on Go's `time.Duration`, a count of nanoseconds. */
module Durations {
  const SECOND_NS := 1_000_000_000

  function Pow2(n: nat): (p: nat)
    ensures p >= 1
  {
    if n == 0 then 1 else 2 * Pow2(n - 1)
  }
}
