# Tendermint KMS consensus types: timestamp conversion

A Dafny model of `src/types/mod.rs` from the Tendermint key management system
(tmkms). The file declares the data shapes shared by the signable consensus
messages: `PartsSetHeader`, `BlockID` and the wire timestamp `Time`. It also
converts a `Time` into a `SystemTime`. That conversion is the only logic in
the file:

- A non-negative `seconds` moves forward from `UNIX_EPOCH`.
- A negative `seconds` moves backward from it.
- Both branches use the same `Duration::new(seconds as u64, nanos as u32)`.

The model has three modules:

- `MachineInts` (`ints.dfy`): the fixed-width integers and the
  two's-complement `as` casts. `seconds as u64` is `seconds + 2^64` for a
  negative `seconds`. `nanos as u32` is `nanos + 2^32` for a negative `nanos`.
- `StdTime` (`stdtime.dfy`): the parts of `std::time` that the conversion
  calls.
  - `Duration::new` carries whole seconds out of the nanoseconds with a
    checked `u64` addition.
  - `SystemTime` is an integer count of nanoseconds from the epoch.
  - `SystemTime ± Duration` fails when the result leaves the representable
    range: `|t| < 2^63 · 10^9` ns. The Unix implementation of the source's
    era first converts the duration's seconds to `time_t` (a signed 64-bit
    count). So adding a `Duration` to `UNIX_EPOCH`, or subtracting one from
    it, succeeds exactly when the duration's seconds fit in `i64`. Later
    versions of the standard library subtract differently; see "Left out".
  - Each Rust panic becomes an `Err` whose `TimeError` says which panic it
    was.
- `Types` (`types.dfy`): the data shapes, their derived equality and the
  conversion with its properties.

What the proofs establish about `SystemTime::from(Time)`:

- A canonical timestamp at or after the epoch always converts. A canonical
  timestamp has `0 <= nanos < 10^9`. Its instant is `seconds·10^9 + nanos` ns.
  On these timestamps the conversion preserves and reflects the
  lexicographic order, and it is injective.
- A negative `nanos` is not subtracted. It adds `nanos + 2^32` ns.
- Every timestamp with a negative `seconds` fails under the standard library
  of the source's era. The offset is
  `(seconds + 2^64)·10^9 + (nanos as u32)` ns, which is at least `2^63·10^9`.
  - If carrying `(nanos as u32) / 10^9` seconds overflows `u64`,
    `Duration::new` panics.
  - Otherwise the subtraction from the epoch panics.

The documented behaviour of this conversion says two things: a negative
timestamp lies before the epoch, and the conversion has no error path. The
code does neither, and the model follows the code. The section "Findings"
records the difference and gives a corrected conversion with its proved
properties.

## Model

| member | source | states |
|---|---|---|
| `MachineInts.Int64AsUint64` | src/types/mod.rs:41 | `seconds as u64` is the unsigned value congruent to `seconds` modulo 2^64. It is unchanged when non-negative and at least 2^63 when negative. |
| `MachineInts.Int32AsUint32` | src/types/mod.rs:41 | `nanos as u32` is the unsigned value congruent to `nanos` modulo 2^32. It is unchanged when non-negative. |
| `MachineInts.Int64AsUint64Unique` | src/types/mod.rs:41 | The congruence determines the `u64` cast: no other `u64` is congruent to `seconds`. |
| `MachineInts.Int32AsUint32Unique` | src/types/mod.rs:41 | The congruence determines the `u32` cast: no other `u32` is congruent to `nanos`. |
| `MachineInts.Int64UnsignedAbs` | src/types/mod.rs:43 | The magnitude of an `i64`, used by the corrected backward branch. It is the value itself or its negation, read as unsigned, and is at most 2^63, so it fits even for `i64::MIN`. |
| `StdTime.NewDuration` | src/types/mod.rs:41 | `Duration::new(s, n)` succeeds exactly when `s·10^9 + n` ns fits in a `Duration` (below `2^64` seconds). The result then spans exactly `s·10^9 + n` ns. Otherwise it fails with `DurationOverflow`. |
| `StdTime.DurationDeterminedByLength` | src/types/mod.rs:41 | Two normalised `Duration`s of equal length are equal, so `NewDuration`'s length determines its result. |
| `StdTime.NewDurationOfParts` | src/types/mod.rs:41 | Rebuilding a `Duration` from its own seconds and nanoseconds returns it unchanged. |
| `StdTime.Add` | src/types/mod.rs:41 | `t + d` succeeds exactly when the sum stays in range, and it is then `t` plus `d`'s length, never earlier than `t`. Otherwise it fails with `TimeOverflow`. |
| `StdTime.Sub` | src/types/mod.rs:43 | `t - d` succeeds exactly when the difference stays in range, and it is then `t` minus `d`'s length, never later than `t`. Otherwise it fails with `TimeOverflow`. |
| `Types.BytesEq` | src/types/mod.rs:13-27 | Comparing two `Vec<u8>` fields by length and then byte by byte holds exactly when they are equal. |
| `Types.PartsSetHeaderEq` | src/types/mod.rs:13-19 | The derived `PartialEq` on `PartsSetHeader` holds exactly when `total` and `hash` are both equal. |
| `Types.BlockIDEq` | src/types/mod.rs:21-27 | The derived `PartialEq` on `BlockID` holds exactly when the hashes are equal and the optional parts headers are both absent or both present and equal. |
| `Types.TimeEq` | src/types/mod.rs:29-35 | The derived `PartialEq` on `Time` holds exactly when `seconds` and `nanos` are both equal. |
| `Types.SystemTimeFromTime` | src/types/mod.rs:38-46 | The conversion yields an instant only for `seconds >= 0`, and the instant is the offset `(seconds as u64)·10^9 + (nanos as u32)` after the epoch. For `seconds >= 0` it succeeds exactly when that offset is in range, and otherwise fails with `TimeOverflow`. For `seconds < 0` it always fails. |
| `Types.ZeroIsEpoch` | src/types/mod.rs:40-41 | `{0, 0}` converts to exactly `UNIX_EPOCH`. |
| `Types.OneAndAHalfSeconds` | src/types/mod.rs:40-41 | `{1, 500_000_000}` converts to the epoch plus 1.5 s. |
| `Types.CanonicalForward` | src/types/mod.rs:40-41 | Every timestamp with `seconds >= 0` and `0 <= nanos < 10^9` converts to `seconds·10^9 + nanos` ns after the epoch. It never fails. |
| `Types.NeverBeforeEpoch` | src/types/mod.rs:40-44 | Whenever the conversion yields an instant, that instant is not before the epoch. |
| `Types.NegativeNanosWrap` | src/types/mod.rs:41 | With `seconds >= 0` and `nanos < 0`, a successful result is `seconds·10^9 + nanos + 2^32` ns: the negative nanoseconds are reinterpreted, not subtracted. |
| `Types.MinusOneNanosecond` | src/types/mod.rs:41 | `{0, -1}` converts to 4.294967295 s after the epoch. |
| `Types.NegativeSecondsAlwaysFail` | src/types/mod.rs:42-44 | For `seconds < 0` the offset is `(seconds + 2^64)·10^9 + (nanos as u32)` ns, which is at least `2^63·10^9`. The conversion fails with `DurationOverflow` exactly when `seconds + (nanos as u32)/10^9 >= 0`, and with `TimeOverflow` otherwise. |
| `Types.MinusOneSecondFails` | src/types/mod.rs:43 | `{-1, 0}` fails: subtracting `2^64 - 1` seconds from the epoch overflows. |
| `Types.MinusOneMinusOneFails` | src/types/mod.rs:43 | `{-1, -1}` fails inside `Duration::new`: the four carried seconds overflow `u64::MAX` seconds. |
| `Types.ForwardLimit` | src/types/mod.rs:41 | `{i64::MAX, 999_999_999}` converts, and `{i64::MAX, 10^9}` fails with `TimeOverflow`. |
| `Types.ConversionPreservesOrder` | src/types/mod.rs:38-46 | For canonical timestamps at or after the epoch, both conversions succeed. One timestamp is lexicographically before another exactly when its instant is earlier. |
| `Types.ConversionInjective` | src/types/mod.rs:38-46 | Two canonical timestamps at or after the epoch that convert to the same result are equal. |
| `Types.OverlongNanosCarry` | src/types/mod.rs:41 | `{0, 10^9}` and `{1, 0}` both convert to the epoch plus 1 s: `Duration::new` carries excess nanoseconds into seconds. |
| `Types.SystemTimeFromTimeCorrected` | src/types/mod.rs:38-46 | The corrected conversion agrees with the original for `seconds >= 0`. Before the epoch it yields `seconds·10^9 - (nanos as u32)` ns, strictly before the epoch. For canonical timestamps with `seconds > i64::MIN` it always succeeds. |
| `Types.CorrectedBeforeEpoch` | src/types/mod.rs:43 | With the correction, `{-1, 0}` is 1 s before the epoch and `{-1, 500_000_000}` is 1.5 s before it. |
| `Types.CorrectedVersusSignedSum` | src/types/mod.rs:38-46 | For canonical timestamps, the corrected conversion equals the signed sum `seconds·10^9 + nanos` exactly when `seconds >= 0` or `nanos == 0`: before the epoch, the nanoseconds are subtracted. |

## Left out

- `TendermintSignable` (src/types/mod.rs:48-53) declares `sign_bytes` and `set_signature` without bodies. Their implementations for the heartbeat, proposal, vote, poison-pill and public-key messages live in the submodules declared at src/types/mod.rs:3-7, which are not part of this model. A bare signature has nothing to prove, so the trait is not modelled.
- The protobuf/Amino encoding that the `prost` `Message` derive generates from the field tags at src/types/mod.rs:15-34 is not modelled. The encoder lives in the `prost` library, which is not part of this model.
- Ed25519 signatures (`signatory`) and the `BufMut` buffer (`bytes`) are foreign cryptography and buffer APIs.
- The re-exported `AMINO_NAME` constants (src/types/mod.rs:55-64) are names only, with no logic.
- `#[derive(Clone)]` copies a value. Dafny datatypes are values, so it is the identity and has no member.
- `BlockID`'s intended invariant (a parts header only with a non-empty hash) is not enforced by the source's struct, so the model does not enforce it either.
- The platform representation of `SystemTime` (a `timespec` on Unix) is abstracted as an integer count of nanoseconds. Its range is stated as `|t| < 2^63·10^9`.
- `StdTime.Sub`: models the subtraction of the standard library of the source's era, which converts the duration's seconds to `time_t` before subtracting and so refuses 2^63 seconds. Later versions subtract the unsigned seconds directly (`checked_sub_unsigned`) and reach `tv_sec = i64::MIN`. Under those versions `Time { seconds: i64::MIN, nanos: 0 }` converts to 2^63 seconds before the epoch, because its `u64` bit pattern equals its magnitude. It is the one timestamp with a negative `seconds` that converts there; the model, and `Types.NegativeSecondsAlwaysFail`, give `Err(TimeOverflow)` for it.
- `StdTime.Add`: the range check is exact for adding to `UNIX_EPOCH`, the only base the conversion uses. For another base instant, the Unix implementation's own edge (converting the duration's seconds to `time_t` before adding) is not modelled.
- `StdTime.Sub`: the same holds for subtracting from a base instant other than `UNIX_EPOCH`.
- Panics are modelled as `Err` results. The unwinding they cause is not modelled.

## Findings

| source | as written | input that shows it | evidently intended | confidence | as-written member | corrected member |
|---|---|---|---|---|---|---|
| src/types/mod.rs:43 | The backward branch subtracts `Duration::new(time.seconds as u64, time.nanos as u32)`. For a negative `seconds` that is the `u64` bit pattern, at least 2^63 seconds, so every negative timestamp panics, in `Duration::new` or in the subtraction. This holds with the standard library of the source's era; later versions convert `{i64::MIN, 0}` alone (see "Left out"). | `Time { seconds: -1, nanos: 0 }`: `2^64 - 1` seconds are subtracted from `UNIX_EPOCH`, which overflows. | Subtract the magnitude `seconds.unsigned_abs()`, so that `{-1, 0}` is one second before the epoch. | high; not executed | `Types.NegativeSecondsAlwaysFail` | `Types.SystemTimeFromTimeCorrected` |
