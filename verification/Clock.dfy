/** Time as the controllers see it: instants are whole nanoseconds since the Unix epoch. */
module Clock {
  const NANOS_PER_SECOND := 1_000_000_000

  /** Go's `Time.Unix`: the whole second an instant falls in. */
  function UnixSeconds(t: int): (s: int)
    ensures s * 1_000_000_000 <= t < (s + 1) * 1_000_000_000
  {
    t / NANOS_PER_SECOND
  }
}
