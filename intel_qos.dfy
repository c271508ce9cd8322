/**
 * struct intel_qos and the functions of intel_qos.c that update it in place.
 * Each method changes the fields exactly as the corresponding transition of
 * QosMachine says; the atomics of the source are plain field updates here.
 */
module IntelQos {
  import opened QosTypes
  import opened QosDelay
  import opened QosMachine

  /** The configuration intel_qos_init installs: target_hz, delay_max_ns, delay_slope_shift. */
  const IntelQosConfig: Config := Config(2, 10000000, 1)

  class Qos {
    /** The value last passed to the PM QoS request, and whether the request is registered. */
    var reqValue: int
    var reqAdded: bool
    /** The expiry of the timer, None while it is not pending. */
    var timer: Option<int>
    var targetHz: nat
    var delayMaxNs: nat
    var delaySlopeShift: nat
    var timeSetNs: int
    var timeClearNs: int
    var activeCount: nat

    function Snapshot(): State
      reads this
    {
      State(Config(targetHz, delayMaxNs, delaySlopeShift), activeCount,
            timeSetNs, timeClearNs, timer, reqValue, reqAdded)
    }

    predicate Valid()
      reads this
    {
      ValidState(Snapshot())
    }

    /**
     * The body shared by intel_qos_init and the QoS part of
     * intel_gt_pm_init_early: add the request at the default value, install
     * the configuration, set up the timer without arming it. The timestamps
     * and the counter are those of zero-initialised memory.
     */
    constructor Setup(cfg: Config)
      requires ValidConfig(cfg)
      ensures Valid() && Snapshot() == InitState(cfg)
      ensures reqAdded && reqValue == PM_QOS_DEFAULT_VALUE && timer.None? && activeCount == 0
    {
      reqAdded, reqValue := true, PM_QOS_DEFAULT_VALUE;
      targetHz, delayMaxNs, delaySlopeShift := cfg.targetHz, cfg.delayMaxNs, cfg.delaySlopeShift;
      timer := None;
      timeSetNs, timeClearNs, activeCount := 0, 0, 0;
    }

    /** intel_qos_update: timer_reduce to now plus the non-negative part of the delay. */
    method Update(t: int)
      requires Valid() && reqAdded && IsU64(t)
      modifies this`timer
      ensures Valid() && Snapshot() == UpdateStep(old(Snapshot()), t)
      ensures timer.Some? && timer.value <= t + delayMaxNs
      ensures old(timer).Some? ==> timer.value <= old(timer).value
      ensures old(timer).None? ==> t <= timer.value
    {
      var dt := Max(0, TimeToUpdate(Snapshot(), t));
      var expires := t + dt;
      if timer.None? || expires < timer.value {
        timer := Some(expires);
      }
    }

    /**
     * intel_qos_timeout, run when the timer expires (it is no longer pending
     * from then on): request target_hz when the update is due, the default
     * value otherwise, and re-arm while the update still lies ahead.
     */
    method Timeout(t1: int, t2: int)
      requires Valid() && timer.Some? && IsU64(t1) && IsU64(t2) && t1 <= t2
      modifies this`timer, this`reqValue
      ensures Valid() && Snapshot() == TimeoutStep(old(Snapshot()), t1, t2)
      ensures reqValue == targetHz || reqValue == PM_QOS_DEFAULT_VALUE
      ensures timer.Some? ==> t2 <= timer.value <= Max(t2, timeSetNs)
    {
      var dt := TimeToUpdate(Snapshot(), t1);
      timer := None;
      var value := PM_QOS_DEFAULT_VALUE;
      if dt == 0 {
        value := targetHz;
      }
      reqValue := value;
      if dt > 0 {
        Update(t2);
      }
    }

    /**
     * intel_qos_overload_begin: time_set_ns := now + |delay|, then count one
     * more user and start the update on the first one.
     */
    method OverloadBegin(t1: int, t2: int, t3: int)
      requires Valid() && reqAdded && IsU64(t1) && IsU64(t2) && IsU64(t3) && t1 <= t2 <= t3
      modifies this`timeSetNs, this`activeCount, this`timer
      ensures Valid() && Snapshot() == BeginStep(old(Snapshot()), t1, t2, t3)
      ensures activeCount == old(activeCount) + 1
      ensures old(activeCount) > 0 ==> timer == old(timer)
      ensures old(activeCount) == 0 && t3 + Max(1, delayMaxNs) < U64_MOD ==>
                timer.Some? && timer.value <= Max(t3, timeSetNs)
    {
      var dt := Abs(TimeToUpdate(Snapshot(), t1));
      timeSetNs := WrapU64(t2 + dt);
      var previous := activeCount;
      activeCount := activeCount + 1;
      if previous == 0 {
        Update(t3);
      }
    }

    /**
     * intel_qos_overload_end, once after each begin:
     * time_clear_ns := now - (|delay| >> delay_slope_shift), then count one
     * user less and start the update when none is left.
     */
    method OverloadEnd(t1: int, t2: int, t3: int)
      requires Valid() && reqAdded && IsU64(t1) && IsU64(t2) && IsU64(t3) && t1 <= t2 <= t3
      requires activeCount > 0
      modifies this`timeClearNs, this`activeCount, this`timer
      ensures Valid() && Snapshot() == EndStep(old(Snapshot()), t1, t2, t3)
      ensures activeCount == old(activeCount) - 1
      ensures activeCount > 0 ==> timer == old(timer)
      ensures activeCount == 0 ==> timer.Some? && timer.value <= t3
    {
      var dt := Abs(TimeToUpdate(Snapshot(), t1));
      var shift := delaySlopeShift;
      timeClearNs := WrapU64(t2 - dt / Pow2(shift));
      activeCount := activeCount - 1;
      if activeCount == 0 {
        Update(t3);
      }
    }

    /**
     * intel_qos_fini: cancel the timer (waiting out a running callback), then
     * remove the request; afterwards no callback can run.
     */
    method Fini()
      requires Valid()
      modifies this`timer, this`reqAdded
      ensures Valid() && Snapshot() == FiniStep(old(Snapshot()))
      ensures timer.None? && !reqAdded
    {
      timer := None;
      reqAdded := false;
    }
  }

  /** intel_qos_init on a zero-initialised struct intel_qos. */
  method Init() returns (qos: Qos)
    ensures fresh(qos) && qos.Valid() && qos.Snapshot() == InitState(IntelQosConfig)
    ensures qos.delayMaxNs == 10000000 && qos.delaySlopeShift == 1 && qos.targetHz == 2
    ensures qos.reqAdded && qos.reqValue == PM_QOS_DEFAULT_VALUE && qos.timer.None?
  {
    qos := new Qos.Setup(IntelQosConfig);
  }
}
