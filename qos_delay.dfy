/**
 * The decision function of the controller: the signed time until the next
 * PM QoS request update (time_to_sf_qos_update_ns in intel_qos.c and its
 * copy time_to_rf_qos_update_ns in intel_gt_pm.c). Positive: wait that
 * long; zero: the GPU-bound value is due; negative: the default value is
 * already due, by the magnitude.
 */
module QosDelay {
  import opened QosTypes

  /** The clock reading t1 is the ktime_get_ns() the source performs on entry. */
  function TimeToUpdate(s: State, t1: int): (r: int)
    requires ValidState(s) && IsU64(t1)
    ensures -Max(1, s.cfg.delayMaxNs) <= r <= s.cfg.delayMaxNs
    ensures s.activeCount > 0 ==> 0 <= r
    ensures s.activeCount > 0 ==> (r == 0 <==> s.timeSetNs <= t1 || s.cfg.delayMaxNs == 0)
    ensures s.activeCount == 0 ==> r <= 0
    ensures s.activeCount == 0 && t1 <= s.timeClearNs ==> r == -1
  {
    var dt1 := s.cfg.delayMaxNs;
    if s.activeCount != 0 then
      var t0 := s.timeSetNs;
      ToS32(Min(dt1, if t0 <= t1 then 0 else t0 - t1))
    else
      var t0 := s.timeClearNs;
      var shift := s.cfg.delaySlopeShift;
      ToS32(-ToS32(if t1 <= t0 then 1 else Min(dt1, ShlU64(t1 - t0, shift))))
  }

  /** Elapsed idle time scaled by the slope does not overflow the u64 it is computed in. */
  predicate NoSlopeWrap(s: State, t1: int)
  {
    s.timeClearNs < t1 ==> (t1 - s.timeClearNs) * Pow2(s.cfg.delaySlopeShift) < U64_MOD
  }

  /** While active, the delay is the time left until time_set_ns, capped at delay_max_ns. */
  lemma ActiveDelayIsTimeLeft(s: State, t1: int)
    requires ValidState(s) && IsU64(t1) && s.activeCount > 0
    ensures t1 < s.timeSetNs <= t1 + s.cfg.delayMaxNs ==> TimeToUpdate(s, t1) == s.timeSetNs - t1
    ensures t1 + s.cfg.delayMaxNs <= s.timeSetNs ==> TimeToUpdate(s, t1) == s.cfg.delayMaxNs
  {
  }

  /**
   * While active and not capped, the delay decreases linearly with time
   * until it reaches zero.
   */
  lemma ActiveDelayCountsDown(s: State, t: int, t': int)
    requires ValidState(s) && IsU64(t) && IsU64(t') && s.activeCount > 0
    requires t <= t' && s.timeSetNs <= t + s.cfg.delayMaxNs
    ensures TimeToUpdate(s, t') == Max(0, TimeToUpdate(s, t) - (t' - t))
  {
    ActiveDelayIsTimeLeft(s, t);
    ActiveDelayIsTimeLeft(s, t');
  }

  /**
   * While idle and after time_clear_ns, the delay is minus the elapsed idle
   * time scaled by 2^delay_slope_shift, capped at delay_max_ns; it is
   * strictly negative whenever delay_max_ns is positive.
   */
  lemma IdleDelayMagnitude(s: State, t1: int)
    requires ValidState(s) && IsU64(t1) && s.activeCount == 0
    requires s.timeClearNs < t1 && NoSlopeWrap(s, t1)
    ensures TimeToUpdate(s, t1) == -Min(s.cfg.delayMaxNs, (t1 - s.timeClearNs) * Pow2(s.cfg.delaySlopeShift))
    ensures s.cfg.delayMaxNs > 0 ==> TimeToUpdate(s, t1) < 0
  {
    var e := t1 - s.timeClearNs;
    var p := Pow2(s.cfg.delaySlopeShift);
    assert e * p >= e by { MulAtLeastOne(e, p); }
  }

  lemma MulMonotone(a: nat, b: nat, p: nat)
    requires a <= b
    ensures a * p <= b * p
  {
  }

  /**
   * While idle, the delay never grows: it only becomes more overdue as time
   * passes. (With delay_max_ns == 0 the -1 returned up to time_clear_ns would
   * be followed by 0, hence the first requirement.)
   */
  lemma IdleDelayDecreases(s: State, t: int, t': int)
    requires ValidState(s) && IsU64(t) && IsU64(t') && s.activeCount == 0
    requires s.cfg.delayMaxNs > 0 && t <= t' && NoSlopeWrap(s, t')
    ensures TimeToUpdate(s, t') <= TimeToUpdate(s, t)
  {
    var p := Pow2(s.cfg.delaySlopeShift);
    if s.timeClearNs < t {
      MulMonotone(t - s.timeClearNs, t' - s.timeClearNs, p);
      IdleDelayMagnitude(s, t);
      IdleDelayMagnitude(s, t');
    } else if s.timeClearNs < t' {
      IdleDelayMagnitude(s, t');
      MulAtLeastOne(t' - s.timeClearNs, p);
    }
  }

  /**
   * A larger delay_slope_shift makes the idle delay at least as overdue for
   * the same elapsed idle time: greater sensitivity to GPU inactivity.
   */
  lemma LargerShiftSteeperSlope(s: State, shift: nat, t1: int)
    requires ValidState(s) && IsU64(t1) && s.activeCount == 0
    requires s.cfg.delaySlopeShift <= shift < 32
    requires NoSlopeWrap(s.(cfg := s.cfg.(delaySlopeShift := shift)), t1)
    ensures TimeToUpdate(s.(cfg := s.cfg.(delaySlopeShift := shift)), t1) <= TimeToUpdate(s, t1)
  {
    var s' := s.(cfg := s.cfg.(delaySlopeShift := shift));
    if s.timeClearNs < t1 {
      var e := t1 - s.timeClearNs;
      Pow2Monotone(s.cfg.delaySlopeShift, shift);
      MulMonotone(Pow2(s.cfg.delaySlopeShift), Pow2(shift), e);
      assert e * Pow2(s.cfg.delaySlopeShift) <= e * Pow2(shift);
      IdleDelayMagnitude(s', t1);
      IdleDelayMagnitude(s, t1);
    }
  }
}
