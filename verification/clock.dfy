/** Time in the model. Instants are integer milliseconds since the epoch (the
    value of a JavaScript `Date`); calendar dates are integer day indices. */
module Clock {

  const MsPerSecond: int := 1000
  const MsPerHour: int := 3600000
  const MsPerDay: int := 86400000

  /** `Math.ceil(ms / one hour)`: the least whole number of hours covering `ms`. */
  function CeilHours(ms: int): (h: int)
    ensures (h - 1) * 3600000 < ms <= h * 3600000
  {
    (ms + MsPerHour - 1) / MsPerHour
  }

  /** A larger span never needs fewer hours. */
  lemma CeilHoursMonotonic(a: int, b: int)
    requires a <= b
    ensures CeilHours(a) <= CeilHours(b)
  {
  }
}
