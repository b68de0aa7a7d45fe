/**
 * Fixed-width machine integers and the two's-complement `as` casts that the
 * timestamp conversion performs on them.
 */
module MachineInts {

  const TWO_TO_THE_32: int := 0x1_0000_0000
  const TWO_TO_THE_63: int := 0x8000_0000_0000_0000
  const TWO_TO_THE_64: int := 0x1_0000_0000_0000_0000

  newtype uint8 = x: int | 0 <= x < 0x100
  newtype int32 = x: int | -0x8000_0000 <= x < 0x8000_0000
  newtype uint32 = x: int | 0 <= x < 0x1_0000_0000
  newtype int64 = x: int | -0x8000_0000_0000_0000 <= x < 0x8000_0000_0000_0000
  newtype uint64 = x: int | 0 <= x < 0x1_0000_0000_0000_0000

  /** `x as u64` on an `i64`: the same 64 bits read as an unsigned number. */
  function Int64AsUint64(x: int64): (r: uint64)
    ensures (r as int - x as int) % TWO_TO_THE_64 == 0
    ensures x >= 0 ==> r as int == x as int
    ensures x < 0 ==> r as int >= TWO_TO_THE_63
  {
    if x >= 0 then x as int as uint64 else (x as int + TWO_TO_THE_64) as uint64
  }

  /** `x as u32` on an `i32`: the same 32 bits read as an unsigned number. */
  function Int32AsUint32(x: int32): (r: uint32)
    ensures (r as int - x as int) % TWO_TO_THE_32 == 0
    ensures x >= 0 ==> r as int == x as int
  {
    if x >= 0 then x as int as uint32 else (x as int + TWO_TO_THE_32) as uint32
  }

  /** `x.unsigned_abs()` on an `i64`: the magnitude, which fits in 64 unsigned bits even for `i64::MIN`. */
  function Int64UnsignedAbs(x: int64): (r: uint64)
    ensures r as int == x as int || r as int == -(x as int)
    ensures r as int <= TWO_TO_THE_63
  {
    if x >= 0 then x as int as uint64 else (-(x as int)) as uint64
  }

  /**
   * A cast is determined by its congruence: the unsigned value with the bit
   * pattern of `x` is the only one in range congruent to `x`.
   */
  lemma Int64AsUint64Unique(x: int64, y: uint64)
    requires (y as int - x as int) % TWO_TO_THE_64 == 0
    ensures y == Int64AsUint64(x)
  {
  }

  lemma Int32AsUint32Unique(x: int32, y: uint32)
    requires (y as int - x as int) % TWO_TO_THE_32 == 0
    ensures y == Int32AsUint32(x)
  {
  }
}
