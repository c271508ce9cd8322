/**
 * The CPU-response-frequency QoS block of intel_gt_pm.c: an inline copy of
 * the controller working on gt->rf_qos, with its own configuration. Only
 * that block of struct intel_gt is modelled; each function delegates to the
 * shared controller, whose transitions are those of QosMachine.
 */
module GtPm {
  import opened QosTypes
  import opened QosDelay
  import opened QosMachine
  import opened IntelQos

  /** The configuration intel_gt_pm_init_early installs: target_hz, delay_max_ns, delay_slope_shift. */
  const RfQosConfig: Config := Config(2, 250000, 0)

  class Gt {
    var rfQos: Qos

    /** The controller is consistent and keeps the configuration it was set up with. */
    predicate Valid()
      reads this, rfQos
    {
      rfQos.Valid() && rfQos.Snapshot().cfg == RfQosConfig
    }

    /** The QoS part of intel_gt_pm_init_early. */
    constructor InitEarly()
      ensures Valid() && fresh(rfQos)
      ensures rfQos.Snapshot() == InitState(RfQosConfig)
      ensures rfQos.reqAdded && rfQos.reqValue == PM_QOS_DEFAULT_VALUE && rfQos.timer.None?
    {
      rfQos := new Qos.Setup(RfQosConfig);
    }

    /**
     * time_to_rf_qos_update_ns. With a zero slope shift the idle slope cannot
     * overflow, so the idle delay is exactly minus the idle time since
     * time_clear_ns, capped at 250000, or -1 up to time_clear_ns.
     */
    function TimeToRfQosUpdate(t1: int): (r: int)
      reads this, rfQos
      requires Valid() && IsU64(t1)
      ensures -250000 <= r <= 250000
      ensures rfQos.activeCount > 0 ==> 0 <= r && (r == 0 <==> rfQos.timeSetNs <= t1)
      ensures rfQos.activeCount > 0 && rfQos.timeSetNs <= t1 + 250000 ==> r == Max(0, rfQos.timeSetNs - t1)
      ensures rfQos.activeCount > 0 && t1 + 250000 <= rfQos.timeSetNs ==> r == 250000
      ensures rfQos.activeCount == 0 && t1 <= rfQos.timeClearNs ==> r == -1
      ensures rfQos.activeCount == 0 && rfQos.timeClearNs < t1 ==> r == -Min(250000, t1 - rfQos.timeClearNs)
    {
      var s := rfQos.Snapshot();
      RfDelayClosedForm(s, t1);
      TimeToUpdate(s, t1)
    }

    /** intel_gt_rf_qos_update. */
    method RfQosUpdate(t: int)
      requires Valid() && rfQos.reqAdded && IsU64(t)
      modifies rfQos
      ensures Valid() && rfQos.Snapshot() == UpdateStep(old(rfQos.Snapshot()), t)
      ensures rfQos.timer.Some? && rfQos.timer.value <= t + 250000
      ensures old(rfQos.timer).Some? ==> rfQos.timer.value <= old(rfQos.timer).value
      ensures old(rfQos.timer).None? ==> t <= rfQos.timer.value
    {
      rfQos.Update(t);
    }

    /** intel_gt_rf_qos_timeout. */
    method RfQosTimeout(t1: int, t2: int)
      requires Valid() && rfQos.timer.Some? && IsU64(t1) && IsU64(t2) && t1 <= t2
      modifies rfQos
      ensures Valid() && rfQos.Snapshot() == TimeoutStep(old(rfQos.Snapshot()), t1, t2)
      ensures rfQos.reqValue == 2 <==> old(rfQos.activeCount) > 0 && old(rfQos.timeSetNs) <= t1
      ensures rfQos.timer.Some? <==> old(rfQos.activeCount) > 0 && t1 < old(rfQos.timeSetNs)
      ensures rfQos.timer.Some? ==> t2 <= rfQos.timer.value <= Max(t2, old(rfQos.timeSetNs))
    {
      RfTimeoutRequestsTargetIffDue(rfQos.Snapshot(), t1, t2);
      rfQos.Timeout(t1, t2);
    }

    /** intel_gt_pm_active_begin. */
    method ActiveBegin(t1: int, t2: int, t3: int)
      requires Valid() && rfQos.reqAdded && IsU64(t1) && IsU64(t2) && IsU64(t3) && t1 <= t2 <= t3
      modifies rfQos
      ensures Valid() && rfQos.Snapshot() == BeginStep(old(rfQos.Snapshot()), t1, t2, t3)
      ensures rfQos.activeCount == old(rfQos.activeCount) + 1
      ensures old(rfQos.activeCount) > 0 ==> rfQos.timer == old(rfQos.timer)
      ensures old(rfQos.activeCount) == 0 && t3 + 250000 < U64_MOD ==>
                rfQos.timer.Some? && rfQos.timer.value <= Max(t3, rfQos.timeSetNs)
    {
      rfQos.OverloadBegin(t1, t2, t3);
    }

    /** intel_gt_pm_active_end, once after each intel_gt_pm_active_begin. */
    method ActiveEnd(t1: int, t2: int, t3: int)
      requires Valid() && rfQos.reqAdded && IsU64(t1) && IsU64(t2) && IsU64(t3) && t1 <= t2 <= t3
      requires rfQos.activeCount > 0
      modifies rfQos
      ensures Valid() && rfQos.Snapshot() == EndStep(old(rfQos.Snapshot()), t1, t2, t3)
      ensures rfQos.activeCount == old(rfQos.activeCount) - 1
      ensures rfQos.activeCount > 0 ==> rfQos.timer == old(rfQos.timer)
      ensures rfQos.activeCount == 0 ==> rfQos.timer.Some? && rfQos.timer.value <= t3
    {
      rfQos.OverloadEnd(t1, t2, t3);
    }
  }

  /** With the rf_qos configuration the idle slope never overflows. */
  lemma RfDelayClosedForm(s: State, t1: int)
    requires ValidState(s) && s.cfg == RfQosConfig && IsU64(t1)
    ensures NoSlopeWrap(s, t1)
    ensures s.activeCount > 0 && s.timeSetNs <= t1 + 250000 ==> TimeToUpdate(s, t1) == Max(0, s.timeSetNs - t1)
    ensures s.activeCount > 0 && t1 + 250000 <= s.timeSetNs ==> TimeToUpdate(s, t1) == 250000
    ensures s.activeCount == 0 && s.timeClearNs < t1 ==> TimeToUpdate(s, t1) == -Min(250000, t1 - s.timeClearNs)
  {
    if s.activeCount > 0 {
      ActiveDelayIsTimeLeft(s, t1);
    } else if s.timeClearNs < t1 {
      IdleDelayMagnitude(s, t1);
    }
  }

  /**
   * The rf_qos timeout requests target_hz (2) exactly when the GPU is bound
   * and time_set_ns has been reached, in every state, and re-arms exactly
   * while that moment lies ahead.
   */
  lemma RfTimeoutRequestsTargetIffDue(s: State, t1: int, t2: int)
    requires ValidState(s) && s.cfg == RfQosConfig && s.timer.Some?
    requires IsU64(t1) && IsU64(t2) && t1 <= t2
    ensures TimeoutStep(s, t1, t2).reqValue == 2 <==> s.activeCount > 0 && s.timeSetNs <= t1
    ensures TimeoutStep(s, t1, t2).timer.Some? <==> s.activeCount > 0 && t1 < s.timeSetNs
  {
    RfDelayClosedForm(s, t1);
    TimeoutRequestsTargetIffDue(s, t1, t2);
  }

  /**
   * A begin at T after a long idle stretch arms the timer for T + 250000;
   * the timeout then requests 2; an end at that instant arms the timer for
   * now, and the timeout that follows puts the request back to the default.
   */
  lemma RfScenario(T: int)
    requires 250000 <= T && T + 250000 < U64_MOD
    ensures var s1 := BeginStep(InitState(RfQosConfig), T, T, T);
      s1.timeSetNs == T + 250000 && s1.timer == Some(T + 250000)
    ensures var s2 := TimeoutStep(BeginStep(InitState(RfQosConfig), T, T, T), T + 250000, T + 250000);
      s2.reqValue == 2 && s2.timer.None?
    ensures var s2 := TimeoutStep(BeginStep(InitState(RfQosConfig), T, T, T), T + 250000, T + 250000);
      var s3 := EndStep(s2, T + 250000, T + 250000, T + 250000);
      s3.activeCount == 0 && s3.timer == Some(T + 250000) &&
      TimeoutStep(s3, T + 250000, T + 250000).reqValue == PM_QOS_DEFAULT_VALUE
  {
    var s0 := InitState(RfQosConfig);
    RfDelayClosedForm(s0, T);
    var s1 := BeginStep(s0, T, T, T);
    RfDelayClosedForm(s1.(timer := None), T);
    var s2 := TimeoutStep(s1, T + 250000, T + 250000);
    RfDelayClosedForm(s2, T + 250000);
  }
}
