/** time.Duration: a signed 64-bit number of nanoseconds. */
module Durations {
  import opened MachineInts

  const MINUTE: nat := 60_000_000_000
  const HOUR: nat := 3_600_000_000_000
  const DAY: nat := 86_400_000_000_000

  type Duration = d: int | MIN_INT64 <= d < TWO_63

  /** time.Duration.Truncate of a duration that is not negative. */
  function Truncated(d: nat, unit: nat): (r: nat)
    requires unit > 0
    ensures r == d / unit * unit
  {
    d - d % unit
  }

  /** Two's complement wrap-around of an arithmetic result. */
  function Wrapped(x: int): Duration {
    (x - MIN_INT64) % TWO_64 + MIN_INT64
  }
}
