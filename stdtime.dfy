/**
 * The parts of Rust's `std::time` that the timestamp conversion relies on:
 * `Duration::new` and adding or subtracting a `Duration` to or from a
 * `SystemTime`. Every panic of the library becomes an `Err` outcome.
 *
 * A `SystemTime` is an instant counted in nanoseconds from `UNIX_EPOCH`
 * (negative before it). Its representable range is stated as a bound: an
 * offset from the epoch is representable when its whole-second part fits in
 * a signed 64-bit count of seconds strictly above `i64::MIN`. This is what
 * the Unix implementation of the source's era accepts when a `Duration` is
 * added to or subtracted from `UNIX_EPOCH`: it first converts the duration's
 * seconds into a signed `time_t`.
 */
module StdTime {
  import opened MachineInts

  const NANOS_PER_SEC: int := 1_000_000_000

  /** The sub-second part of a `Duration`, always below one second. */
  type SubsecNanos = n: nat | n < NANOS_PER_SEC

  /** A span of time: whole seconds (`u64`) and a normalised nanosecond part. */
  datatype Duration = Duration(secs: uint64, nanos: SubsecNanos) {
    /** The length of the span in nanoseconds. */
    function TotalNanos(): nat {
      secs as int * NANOS_PER_SEC + nanos
    }
  }

  /** The two panics the conversion can reach. */
  datatype TimeError =
    | DurationOverflow  // "overflow in Duration::new"
    | TimeOverflow      // "overflow when adding/subtracting duration to/from instant"

  datatype Result<T> = Ok(value: T) | Err(error: TimeError)

  /** Offsets strictly inside this bound, either side of the epoch, are representable instants. */
  const TIME_BOUND: int := TWO_TO_THE_63 * NANOS_PER_SEC

  newtype SystemTime = t: int | -TIME_BOUND < t < TIME_BOUND

  const UNIX_EPOCH: SystemTime := 0

  /**
   * `Duration::new(secs, nanos)`: nanoseconds of a second or more are carried
   * into the seconds; the carry is a checked `u64` addition that panics on
   * overflow. The result, when there is one, spans exactly
   * `secs * 10^9 + nanos` nanoseconds, and there is one exactly when that
   * span fits in a `Duration`.
   */
  function NewDuration(secs: uint64, nanos: uint32): (r: Result<Duration>)
    ensures r.Ok? <==> secs as int * NANOS_PER_SEC + nanos as int < TWO_TO_THE_64 * NANOS_PER_SEC
    ensures r.Ok? ==> r.value.TotalNanos() == secs as int * NANOS_PER_SEC + nanos as int
    ensures r.Err? ==> r.error == DurationOverflow
  {
    if nanos as int < NANOS_PER_SEC then
      Ok(Duration(secs, nanos as int))
    else
      var carried := secs as int + nanos as int / NANOS_PER_SEC;
      if carried < TWO_TO_THE_64 then
        Ok(Duration(carried as uint64, nanos as int % NANOS_PER_SEC))
      else
        Err(DurationOverflow)
  }

  /** A `Duration` is determined by its length: two spans of equal length are equal. */
  lemma DurationDeterminedByLength(d: Duration, e: Duration)
    requires d.TotalNanos() == e.TotalNanos()
    ensures d == e
  {
  }

  /** Rebuilding a `Duration` from its own parts gives it back unchanged. */
  lemma NewDurationOfParts(d: Duration)
    ensures NewDuration(d.secs, d.nanos as uint32) == Ok(d)
  {
  }

  /** `t + d` (`SystemTime: Add<Duration>`), which panics when the sum leaves the representable range. */
  function Add(t: SystemTime, d: Duration): (r: Result<SystemTime>)
    ensures r.Ok? <==> t as int + d.TotalNanos() < TIME_BOUND
    ensures r.Ok? ==> r.value as int == t as int + d.TotalNanos() && r.value >= t
    ensures r.Err? ==> r.error == TimeOverflow
  {
    var sum := t as int + d.TotalNanos();
    if sum < TIME_BOUND then Ok(sum as SystemTime) else Err(TimeOverflow)
  }

  /** `t - d` (`SystemTime: Sub<Duration>`), which panics when the difference leaves the representable range. */
  function Sub(t: SystemTime, d: Duration): (r: Result<SystemTime>)
    ensures r.Ok? <==> -TIME_BOUND < t as int - d.TotalNanos()
    ensures r.Ok? ==> r.value as int == t as int - d.TotalNanos() && r.value <= t
    ensures r.Err? ==> r.error == TimeOverflow
  {
    var difference := t as int - d.TotalNanos();
    if -TIME_BOUND < difference then Ok(difference as SystemTime) else Err(TimeOverflow)
  }
}
