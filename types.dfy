/**
 * The consensus data shapes of `src/types/mod.rs` and the conversion of a
 * wire timestamp into a `SystemTime` (`impl From<Time> for SystemTime`).
 */
module Types {
  import opened MachineInts
  import opened StdTime

  datatype Option<T> = None | Some(value: T)

  /** The count and combined hash of the parts a block is split into. */
  datatype PartsSetHeader = PartsSetHeader(total: int64, hash: seq<uint8>)

  /** A proposed block: its content hash and, when it is split into parts, their header. */
  datatype BlockID = BlockID(hash: seq<uint8>, partsHeader: Option<PartsSetHeader>)

  /** A wire timestamp: signed seconds and signed nanoseconds, fielded independently. */
  datatype Time = Time(seconds: int64, nanos: int32)

  // ---------------------------------------------------------------------------
  // Derived structural equality (`#[derive(PartialEq)]`)
  // ---------------------------------------------------------------------------

  /**
   * Equality of two byte vectors (`Vec<u8>: PartialEq`): equal lengths, then
   * the bytes compared one by one from the front.
   */
  function BytesEq(a: seq<uint8>, b: seq<uint8>): (r: bool)
    ensures r <==> a == b
  {
    |a| == |b| && (|a| == 0 || (a[0] == b[0] && BytesEq(a[1..], b[1..])))
  }

  /** Field-by-field comparison, as the derive generates it; it agrees with value equality. */
  function PartsSetHeaderEq(a: PartsSetHeader, b: PartsSetHeader): (r: bool)
    ensures r <==> a == b
  {
    a.total == b.total && BytesEq(a.hash, b.hash)
  }

  /** Field-by-field comparison, descending into the optional parts header. */
  function BlockIDEq(a: BlockID, b: BlockID): (r: bool)
    ensures r <==> a == b
  {
    && BytesEq(a.hash, b.hash)
    && match (a.partsHeader, b.partsHeader)
       case (None, None) => true
       case (Some(x), Some(y)) => PartsSetHeaderEq(x, y)
       case _ => false
  }

  /** Field-by-field comparison of two timestamps. */
  function TimeEq(a: Time, b: Time): (r: bool)
    ensures r <==> a == b
  {
    a.seconds == b.seconds && a.nanos == b.nanos
  }

  // ---------------------------------------------------------------------------
  // Conversion to `SystemTime`
  // ---------------------------------------------------------------------------

  /**
   * The length, in nanoseconds, of the `Duration` that both branches build
   * from a timestamp: `seconds as u64` whole seconds plus `nanos as u32`
   * nanoseconds.
   */
  function WireOffset(time: Time): nat {
    Int64AsUint64(time.seconds) as int * NANOS_PER_SEC + Int32AsUint32(time.nanos) as int
  }

  /**
   * `SystemTime::from(time)`: a non-negative `seconds` moves forward from the
   * epoch by the offset, a negative one moves backward by the same offset.
   * Since a negative `seconds` reinterpreted as `u64` is at least 2^63, the
   * backward move always leaves the representable range: only the forward
   * branch ever yields an instant.
   */
  function SystemTimeFromTime(time: Time): (r: Result<SystemTime>)
    ensures r.Ok? ==> time.seconds >= 0 && r.value as int == WireOffset(time)
    ensures time.seconds >= 0 ==> (r.Ok? <==> WireOffset(time) < TIME_BOUND)
    ensures time.seconds < 0 ==> r.Err?
    ensures time.seconds >= 0 && r.Err? ==> r.error == TimeOverflow
  {
    match NewDuration(Int64AsUint64(time.seconds), Int32AsUint32(time.nanos))
    case Err(e) => Err(e)
    case Ok(d) =>
      if time.seconds >= 0 then Add(UNIX_EPOCH, d) else Sub(UNIX_EPOCH, d)
  }

  /** The zero timestamp is the epoch itself. */
  lemma ZeroIsEpoch()
    ensures SystemTimeFromTime(Time(0, 0)) == Ok(UNIX_EPOCH)
  {
  }

  /** `{1, 500_000_000}` is one and a half seconds after the epoch. */
  lemma OneAndAHalfSeconds()
    ensures SystemTimeFromTime(Time(1, 500_000_000)) == Ok(1_500_000_000)
  {
  }

  /** A timestamp whose nanoseconds lie in `[0, 10^9)` denotes the usual signed instant. */
  predicate Canonical(time: Time) {
    0 <= time.nanos as int < NANOS_PER_SEC
  }

  /**
   * A canonical timestamp at or after the epoch always converts, to exactly
   * `seconds * 10^9 + nanos` nanoseconds after the epoch.
   */
  lemma CanonicalForward(time: Time)
    requires time.seconds >= 0 && Canonical(time)
    ensures SystemTimeFromTime(time) == Ok((time.seconds as int * NANOS_PER_SEC + time.nanos as int) as SystemTime)
  {
  }

  /** The forward branch never lands before the epoch; no timestamp lands before it at all. */
  lemma NeverBeforeEpoch(time: Time)
    ensures SystemTimeFromTime(time).Ok? ==> SystemTimeFromTime(time).value >= UNIX_EPOCH
  {
  }

  /**
   * A negative `nanos` is read as `nanos + 2^32` and added: `{0, -1}` lands
   * 4.294967295 seconds after the epoch, not one nanosecond before it.
   */
  lemma NegativeNanosWrap(time: Time)
    requires time.seconds >= 0 && time.nanos < 0
    ensures SystemTimeFromTime(time).Ok? ==>
      SystemTimeFromTime(time).value as int == time.seconds as int * NANOS_PER_SEC + time.nanos as int + TWO_TO_THE_32
  {
  }

  lemma MinusOneNanosecond()
    ensures SystemTimeFromTime(Time(0, -1)) == Ok(4_294_967_295)
  {
  }

  /**
   * The backward branch. Its `Duration` spans `(seconds + 2^64) * 10^9 +
   * (nanos as u32)` nanoseconds. `Duration::new` panics when carrying
   * `nanos as u32 / 10^9` whole seconds overflows `u64`, that is when
   * `seconds + carry >= 0`; otherwise the subtraction from the epoch panics,
   * since that span exceeds the representable range.
   */
  lemma NegativeSecondsAlwaysFail(time: Time)
    requires time.seconds < 0
    ensures WireOffset(time) == (time.seconds as int + TWO_TO_THE_64) * NANOS_PER_SEC + Int32AsUint32(time.nanos) as int
    ensures WireOffset(time) >= TIME_BOUND
    ensures SystemTimeFromTime(time)
      == Err(if time.seconds as int + Int32AsUint32(time.nanos) as int / NANOS_PER_SEC >= 0
             then DurationOverflow else TimeOverflow)
  {
  }

  /** `{-1, 0}` does not mean one second before the epoch: subtracting `2^64 - 1` seconds panics. */
  lemma MinusOneSecondFails()
    ensures SystemTimeFromTime(Time(-1, 0)) == Err(TimeOverflow)
  {
  }

  /** `{-1, -1}`: `nanos as u32` carries four seconds onto `u64::MAX` seconds, and `Duration::new` panics. */
  lemma MinusOneMinusOneFails()
    ensures SystemTimeFromTime(Time(-1, -1)) == Err(DurationOverflow)
  {
  }

  /** The forward branch stops where the carried seconds no longer fit in `i64`. */
  lemma ForwardLimit()
    ensures SystemTimeFromTime(Time(0x7FFF_FFFF_FFFF_FFFF, 999_999_999)).Ok?
    ensures SystemTimeFromTime(Time(0x7FFF_FFFF_FFFF_FFFF, 1_000_000_000)) == Err(TimeOverflow)
  {
  }

  /** Lexicographic order on timestamps: seconds first, then nanoseconds. */
  predicate Before(a: Time, b: Time) {
    a.seconds < b.seconds || (a.seconds == b.seconds && a.nanos < b.nanos)
  }

  /**
   * On canonical timestamps at or after the epoch, the conversion preserves
   * and reflects order: one timestamp comes before another exactly when its
   * instant does.
   */
  lemma ConversionPreservesOrder(a: Time, b: Time)
    requires a.seconds >= 0 && Canonical(a)
    requires b.seconds >= 0 && Canonical(b)
    ensures SystemTimeFromTime(a).Ok? && SystemTimeFromTime(b).Ok?
    ensures Before(a, b) <==> SystemTimeFromTime(a).value < SystemTimeFromTime(b).value
  {
  }

  /** Two canonical timestamps at or after the epoch that convert to the same instant are equal. */
  lemma ConversionInjective(a: Time, b: Time)
    requires a.seconds >= 0 && Canonical(a)
    requires b.seconds >= 0 && Canonical(b)
    requires SystemTimeFromTime(a) == SystemTimeFromTime(b)
    ensures a == b
  {
  }

  /** Non-canonical timestamps can collide: `{0, 10^9}` and `{1, 0}` are the same instant. */
  lemma OverlongNanosCarry()
    ensures SystemTimeFromTime(Time(0, 1_000_000_000)) == SystemTimeFromTime(Time(1, 0)) == Ok(1_000_000_000)
  {
  }

  // ---------------------------------------------------------------------------
  // Corrected backward branch
  // ---------------------------------------------------------------------------

  /**
   * The conversion with the backward branch built from the magnitude of
   * `seconds` (`unsigned_abs`) rather than its `u64` bit pattern: before the
   * epoch the instant is `-(|seconds| * 10^9 + nanos)`, the nanoseconds being
   * subtracted as well, as the wire convention of the timestamp demands.
   */
  function SystemTimeFromTimeCorrected(time: Time): (r: Result<SystemTime>)
    ensures time.seconds >= 0 ==> r == SystemTimeFromTime(time)
    ensures time.seconds < 0 && r.Ok? ==>
      r.value as int == time.seconds as int * NANOS_PER_SEC - Int32AsUint32(time.nanos) as int
      && r.value < UNIX_EPOCH
    ensures time.seconds < 0 && time.seconds as int > -TWO_TO_THE_63 && Canonical(time) ==> r.Ok?
  {
    match NewDuration(Int64UnsignedAbs(time.seconds), Int32AsUint32(time.nanos))
    case Err(e) => Err(e)
    case Ok(d) =>
      if time.seconds >= 0 then Add(UNIX_EPOCH, d) else Sub(UNIX_EPOCH, d)
  }

  /** `{-1, 0}` is one second before the epoch, and `{-1, 500_000_000}` one and a half. */
  lemma CorrectedBeforeEpoch()
    ensures SystemTimeFromTimeCorrected(Time(-1, 0)) == Ok(-1_000_000_000)
    ensures SystemTimeFromTimeCorrected(Time(-1, 500_000_000)) == Ok(-1_500_000_000)
  {
  }

  /**
   * The sign convention of the corrected conversion differs from reading the
   * timestamp as the signed sum `seconds * 10^9 + nanos` exactly when the
   * timestamp lies before the epoch with a non-zero nanosecond part.
   */
  lemma CorrectedVersusSignedSum(time: Time)
    requires Canonical(time) && time.seconds as int > -TWO_TO_THE_63
    ensures SystemTimeFromTimeCorrected(time).Ok?
    ensures SystemTimeFromTimeCorrected(time).value as int == time.seconds as int * NANOS_PER_SEC + time.nanos as int
        <==> time.seconds >= 0 || time.nanos == 0
  {
  }
}
