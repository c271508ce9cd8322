/**
 * The state of the CPU-response-frequency QoS controller (struct intel_qos)
 * as a value, and the C integer semantics the controller's arithmetic
 * relies on: 64-bit unsigned wrap-around, left shift of a u64 and the
 * conversion of an unsigned value to s32.
 */
module QosTypes {

  const S32_MAX: int := 0x7fff_ffff
  const S32_MIN: int := -0x8000_0000
  const U64_MOD: int := 0x1_0000_0000_0000_0000

  /** The value a PM QoS request holds when it places no constraint (PM_QOS_DEFAULT_VALUE). */
  const PM_QOS_DEFAULT_VALUE: int := -1

  predicate IsU64(x: int) { 0 <= x < U64_MOD }

  function Min(a: int, b: int): int { if a <= b then a else b }
  function Max(a: int, b: int): int { if a <= b then b else a }
  function Abs(x: int): nat { if x < 0 then -x else x }

  function Pow2(n: nat): (p: nat)
    ensures p >= 1
  {
    if n == 0 then 1 else 2 * Pow2(n - 1)
  }

  lemma {:induction false} Pow2Monotone(a: nat, b: nat)
    requires a <= b
    ensures Pow2(a) <= Pow2(b)
  {
    if a < b {
      Pow2Monotone(a, b - 1);
    }
  }

  /** Reduction of a mathematical result to a u64, as C's unsigned 64-bit arithmetic does. */
  function WrapU64(x: int): (r: int)
    ensures IsU64(r)
    ensures IsU64(x) ==> r == x
    ensures -U64_MOD <= x < 0 ==> r == x + U64_MOD
  {
    x % U64_MOD
  }

  /** `x << shift` on a u64 (shift < 64): the bits shifted out of the top are lost. */
  function ShlU64(x: int, shift: nat): (r: int)
    requires IsU64(x) && shift < 64
    ensures IsU64(r)
    ensures x * Pow2(shift) < U64_MOD ==> r == x * Pow2(shift)
  {
    assert 0 <= x * Pow2(shift);
    (x * Pow2(shift)) % U64_MOD
  }

  /** `x >> shift` on an unsigned value: the low shift bits are dropped. */
  function Shr(x: nat, shift: nat): (r: nat)
    ensures r <= x
    ensures x == 0 ==> r == 0
  {
    QuotientAtMost(x, Pow2(shift));
    x / Pow2(shift)
  }

  lemma QuotientAtMost(x: nat, p: nat)
    requires p >= 1
    ensures x / p <= x
    ensures x == 0 ==> x / p == 0
  {
    DivisionBounds(x, p);
    MulAtLeastOne(x / p, p);
  }

  lemma MulAtLeastOne(q: nat, p: nat)
    requires p >= 1
    ensures q <= q * p
  {
  }

  lemma DivisionBounds(x: nat, p: nat)
    requires p >= 1
    ensures x == (x / p) * p + x % p && 0 <= x % p < p
  {
  }

  /**
   * `(d >> shift) << shift`: d with its low shift bits cleared. It is within
   * 2^shift of d, and equal to d when those bits are already clear.
   */
  function RoundDown(d: nat, shift: nat): (r: nat)
    ensures r <= d && d - Pow2(shift) < r
    ensures d % Pow2(shift) == 0 ==> r == d
  {
    var p := Pow2(shift);
    DivisionBounds(d, p);
    Shr(d, shift) * p
  }

  /** Conversion of an integer to s32 (two's complement, the wrap-around the kernel's compilers perform). */
  function ToS32(x: int): (r: int)
    ensures S32_MIN <= r <= S32_MAX
    ensures S32_MIN <= x <= S32_MAX ==> r == x
  {
    var m := x % 0x1_0000_0000;
    if m <= S32_MAX then m else m - 0x1_0000_0000
  }

  datatype Option<T> = None | Some(value: T)

  /** The three configuration fields of struct intel_qos, all u32 in the source. */
  datatype Config = Config(targetHz: nat, delayMaxNs: nat, delaySlopeShift: nat)

  /**
   * What the controller's arithmetic needs of its configuration: target_hz
   * fits the s32 request value it is passed on as (so it never reads as
   * the default value), every delay fits the s32 that carries it, and the
   * slope shift is below the width of the u32 it shifts.
   */
  predicate ValidConfig(c: Config)
  {
    c.targetHz <= S32_MAX && c.delayMaxNs <= S32_MAX && c.delaySlopeShift < 32
  }

  /**
   * A snapshot of struct intel_qos: the configuration, the activity counter,
   * the two 64-bit timestamps, the pending timer deadline (None when the timer
   * is idle), the value last given to the PM QoS request, and whether that
   * request is registered at all.
   */
  datatype State = State(
    cfg: Config,
    activeCount: nat,
    timeSetNs: int,
    timeClearNs: int,
    timer: Option<int>,
    reqValue: int,
    reqAdded: bool)

  /** The timestamps are u64, and the timer is only ever armed while the request exists. */
  predicate ValidState(s: State)
  {
    ValidConfig(s.cfg) && IsU64(s.timeSetNs) && IsU64(s.timeClearNs) &&
    (s.timer.Some? ==> s.reqAdded)
  }
}
