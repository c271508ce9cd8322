/**
 * The controller's entry points as transitions on a State value: the
 * delayed update (intel_qos_update), the timer callback (intel_qos_timeout),
 * the begin and end of a GPU-bound period (intel_qos_overload_begin/end),
 * initialisation and teardown; then what sequences of them guarantee.
 *
 * Each ktime_get_ns() of the source is a parameter. The timer runs on
 * jiffies; here a deadline is in nanoseconds (jiffies + nsecs_to_jiffies(dt)
 * is read as now + dt).
 */
module QosMachine {
  import opened QosTypes
  import opened QosDelay

  /**
   * timer_reduce: a pending timer is only ever moved earlier; an idle one
   * is armed at the requested expiry.
   */
  function Reduce(timer: Option<int>, expires: int): (r: Option<int>)
    ensures r.Some? && r.value <= expires
    ensures timer.Some? ==> r.value <= timer.value
    ensures r.value == expires || r == timer
  {
    if timer.Some? && timer.value <= expires then timer else Some(expires)
  }

  /** The deadline left by a series of timer_reduce calls with the expiries es, in order. */
  function ReduceAll(timer: Option<int>, es: seq<int>): Option<int>
    decreases |es|
  {
    if es == [] then timer else ReduceAll(Reduce(timer, es[0]), es[1..])
  }

  /**
   * However many reductions race, the timer ends up armed at the earliest of
   * the requested expiries and the one already pending: no reduction ever
   * postpones it.
   */
  lemma {:induction false} ReduceAllIsEarliest(timer: Option<int>, es: seq<int>)
    requires timer.Some? || es != []
    ensures ReduceAll(timer, es).Some?
    ensures forall i :: 0 <= i < |es| ==> ReduceAll(timer, es).value <= es[i]
    ensures timer.Some? ==> ReduceAll(timer, es).value <= timer.value
    ensures ReduceAll(timer, es) == timer || exists i :: 0 <= i < |es| && ReduceAll(timer, es).value == es[i]
    decreases |es|
  {
    if es != [] {
      var t' := Reduce(timer, es[0]);
      ReduceAllIsEarliest(t', es[1..]);
      var r := ReduceAll(t', es[1..]);
      assert r == ReduceAll(timer, es);
      forall i | 0 <= i < |es| ensures r.value <= es[i] {
        if i > 0 { assert es[i] == es[1..][i - 1]; }
      }
      if r == t' {
        if t'.value != es[0] { assert t' == timer; }
      } else {
        var j :| 0 <= j < |es[1..]| && r.value == es[1..][j];
        assert r.value == es[j + 1];
      }
    }
  }

  /** intel_qos_update: arm (or pull in) the timer for the time the next update is due. */
  function UpdateStep(s: State, t: int): (r: State)
    requires ValidState(s) && IsU64(t) && s.reqAdded
    ensures ValidState(r)
    ensures r == s.(timer := r.timer)
    ensures r.timer.Some? && r.timer.value <= t + Max(0, TimeToUpdate(s, t))
    ensures r.timer.value <= t + s.cfg.delayMaxNs
    ensures s.timer.None? ==> t <= r.timer.value
    ensures s.timer.Some? ==> r.timer.value <= s.timer.value && (r.timer == s.timer || t <= r.timer.value)
    ensures r.timer == s.timer || r.timer.value == t + Max(0, TimeToUpdate(s, t))
  {
    var dt := Max(0, TimeToUpdate(s, t));
    s.(timer := Reduce(s.timer, t + dt))
  }

  /**
   * intel_qos_timeout, run by the timer (so only while it is pending; it is no
   * longer pending once its callback runs): request target_hz if an update to
   * the GPU-bound value is due, the default value otherwise, and re-arm while
   * the decision still lies in the future. t1 is the read of the decision,
   * t2 the read inside the re-arming update.
   */
  function TimeoutStep(s: State, t1: int, t2: int): (r: State)
    requires ValidState(s) && IsU64(t1) && IsU64(t2) && t1 <= t2 && s.timer.Some?
    ensures ValidState(r)
    ensures r == s.(timer := r.timer, reqValue := r.reqValue)
    ensures r.reqValue == s.cfg.targetHz || r.reqValue == PM_QOS_DEFAULT_VALUE
    ensures r.timer.Some? <==> TimeToUpdate(s, t1) > 0
    ensures r.timer.Some? ==> t2 <= r.timer.value <= Max(t2, s.timeSetNs)
    ensures r.timer.Some? ==> r.timer.value == Min(t2 + s.cfg.delayMaxNs, Max(t2, s.timeSetNs))
  {
    var dt := TimeToUpdate(s, t1);
    var value := if dt == 0 then s.cfg.targetHz else PM_QOS_DEFAULT_VALUE;
    var fired := s.(timer := None, reqValue := value);
    if dt > 0 then (ActiveDelayIsTimeLeft(fired, t2); UpdateStep(fired, t2)) else fired
  }

  /**
   * intel_qos_overload_begin: push time_set_ns to now plus the magnitude of
   * the current delay, count one more GPU-bound user, and start the timer
   * chain on the first one only. t1 is read by the delay computation, t2 is
   * the explicit read, t3 the read inside the update.
   */
  function BeginStep(s: State, t1: int, t2: int, t3: int): (r: State)
    requires ValidState(s) && IsU64(t1) && IsU64(t2) && IsU64(t3) && t1 <= t2 <= t3 && s.reqAdded
    ensures ValidState(r) && r.reqAdded
    ensures r.activeCount == s.activeCount + 1
    ensures r.cfg == s.cfg && r.timeClearNs == s.timeClearNs && r.reqValue == s.reqValue
    ensures t2 + Abs(TimeToUpdate(s, t1)) < U64_MOD ==> r.timeSetNs == t2 + Abs(TimeToUpdate(s, t1))
    ensures s.activeCount > 0 ==> r.timer == s.timer
    ensures s.activeCount == 0 ==> r.timer.Some?
    ensures s.activeCount == 0 && t2 + Abs(TimeToUpdate(s, t1)) < U64_MOD ==> r.timer.value <= Max(t3, r.timeSetNs)
  {
    var dt := Abs(TimeToUpdate(s, t1));
    var marked := s.(timeSetNs := WrapU64(t2 + dt), activeCount := s.activeCount + 1);
    if s.activeCount == 0 then (ActiveDelayIsTimeLeft(marked, t3); UpdateStep(marked, t3)) else marked
  }

  /**
   * intel_qos_overload_end, once per earlier begin: anchor time_clear_ns at now
   * minus the current delay magnitude scaled down by the slope, count one
   * GPU-bound user less, and schedule an update when the last one leaves.
   */
  function EndStep(s: State, t1: int, t2: int, t3: int): (r: State)
    requires ValidState(s) && IsU64(t1) && IsU64(t2) && IsU64(t3) && t1 <= t2 <= t3 && s.reqAdded
    requires s.activeCount > 0
    ensures ValidState(r) && r.reqAdded
    ensures r.activeCount == s.activeCount - 1
    ensures r.cfg == s.cfg && r.timeSetNs == s.timeSetNs && r.reqValue == s.reqValue
    ensures Shr(Abs(TimeToUpdate(s, t1)), s.cfg.delaySlopeShift) <= t2 ==>
              r.timeClearNs == t2 - Shr(Abs(TimeToUpdate(s, t1)), s.cfg.delaySlopeShift)
    ensures s.activeCount > 1 ==> r.timer == s.timer
    ensures s.activeCount == 1 ==> r.timer.Some? && r.timer.value <= t3
  {
    var dt := Abs(TimeToUpdate(s, t1));
    var shift := s.cfg.delaySlopeShift;
    var marked := s.(timeClearNs := WrapU64(t2 - Shr(dt, shift)), activeCount := s.activeCount - 1);
    if marked.activeCount == 0 then UpdateStep(marked, t3) else marked
  }

  /**
   * intel_qos_init on zero-initialised memory: the request is added with the
   * default value, the configuration set, the timer set up but not pending.
   */
  function InitState(cfg: Config): (r: State)
    requires ValidConfig(cfg)
    ensures ValidState(r) && r.cfg == cfg
    ensures r.reqAdded && r.reqValue == PM_QOS_DEFAULT_VALUE && r.timer.None?
    ensures r.activeCount == 0 && r.timeSetNs == 0 && r.timeClearNs == 0
    ensures TimeToUpdate(r, 0) == -1
  {
    State(cfg, 0, 0, 0, None, PM_QOS_DEFAULT_VALUE, true)
  }

  /** intel_qos_fini: cancel the timer, then remove the request. */
  function FiniStep(s: State): (r: State)
    requires ValidState(s)
    ensures ValidState(r)
    ensures r.timer.None? && !r.reqAdded
    ensures r == s.(timer := None, reqAdded := false)
  {
    s.(timer := None, reqAdded := false)
  }

  /**
   * The timeout requests target_hz exactly when the GPU is still bound and
   * time_set_ns has been reached, and re-arms exactly when that moment still
   * lies ahead. Needs a positive delay_max_ns (otherwise every active
   * timeout is due) and no overflow of the idle slope.
   */
  lemma TimeoutRequestsTargetIffDue(s: State, t1: int, t2: int)
    requires ValidState(s) && IsU64(t1) && IsU64(t2) && t1 <= t2 && s.timer.Some?
    requires s.cfg.delayMaxNs > 0 && NoSlopeWrap(s, t1)
    ensures TimeoutStep(s, t1, t2).reqValue == s.cfg.targetHz <==> s.activeCount > 0 && s.timeSetNs <= t1
    ensures TimeoutStep(s, t1, t2).reqValue == PM_QOS_DEFAULT_VALUE <==> !(s.activeCount > 0 && s.timeSetNs <= t1)
    ensures TimeoutStep(s, t1, t2).timer.Some? <==> s.activeCount > 0 && t1 < s.timeSetNs
  {
    if s.activeCount == 0 && s.timeClearNs < t1 {
      IdleDelayMagnitude(s, t1);
    }
  }

  /**
   * After an idle stretch long enough that the idle delay is capped, the
   * first begin places time_set_ns exactly delay_max_ns ahead of its
   * timestamp, and arms the timer for that moment at the latest.
   */
  lemma BeginAfterLongIdle(s: State, t1: int, t2: int, t3: int)
    requires ValidState(s) && IsU64(t1) && IsU64(t2) && IsU64(t3) && t1 <= t2 <= t3 && s.reqAdded
    requires s.activeCount == 0 && s.timeClearNs < t1 && NoSlopeWrap(s, t1)
    requires (t1 - s.timeClearNs) * Pow2(s.cfg.delaySlopeShift) >= s.cfg.delayMaxNs
    requires t2 + s.cfg.delayMaxNs < U64_MOD
    ensures BeginStep(s, t1, t2, t3).timeSetNs == t2 + s.cfg.delayMaxNs
    ensures BeginStep(s, t1, t2, t3).timer.value <= Max(t3, t2 + s.cfg.delayMaxNs)
  {
    IdleDelayMagnitude(s, t1);
    var r := BeginStep(s, t1, t2, t3);
    if t3 < r.timeSetNs {
      ActiveDelayIsTimeLeft(r.(timer := None), t3);
    }
  }

  /**
   * A nested begin taken at a single instant (before time_set_ns) leaves
   * time_set_ns where it was and does not touch the timer.
   */
  lemma NestedBeginKeepsCommitPoint(s: State, t: int, t3: int)
    requires ValidState(s) && IsU64(t) && IsU64(t3) && t <= t3 && s.reqAdded
    requires s.activeCount > 0 && t < s.timeSetNs <= t + s.cfg.delayMaxNs
    ensures BeginStep(s, t, t, t3).timeSetNs == s.timeSetNs
    ensures BeginStep(s, t, t, t3).timer == s.timer
  {
    ActiveDelayIsTimeLeft(s, t);
  }

  /**
   * A nested begin reads the delay at t1 and adds it to t2: inside the
   * window, time_set_ns moves later by exactly t2 - t1.
   */
  lemma NestedBeginDefersCommitPoint(s: State, t1: int, t2: int, t3: int)
    requires ValidState(s) && IsU64(t1) && IsU64(t2) && IsU64(t3) && t1 <= t2 <= t3 && s.reqAdded
    requires s.activeCount > 0 && t1 < s.timeSetNs <= t1 + s.cfg.delayMaxNs
    requires t2 + s.cfg.delayMaxNs < U64_MOD
    ensures BeginStep(s, t1, t2, t3).timeSetNs == s.timeSetNs + (t2 - t1)
    ensures BeginStep(s, t1, t2, t3).timer == s.timer
  {
    ActiveDelayIsTimeLeft(s, t1);
  }

  /**
   * An end after time_set_ns was reached (the GPU-bound value is in force)
   * starts the idle decay from zero at its timestamp; the following idle
   * delay at that instant is the -1 sentinel.
   */
  lemma EndAfterCommitStartsDecay(s: State, t1: int, t2: int, t3: int)
    requires ValidState(s) && IsU64(t1) && IsU64(t2) && IsU64(t3) && t1 <= t2 <= t3 && s.reqAdded
    requires s.activeCount == 1 && s.timeSetNs <= t1
    ensures EndStep(s, t1, t2, t3).timeClearNs == t2
    ensures TimeToUpdate(EndStep(s, t1, t2, t3), t2) == -1
  {
    assert TimeToUpdate(s, t1) == 0;
  }

  /**
   * A begin immediately undone by an end, after a long idle stretch, leaves
   * the idle delay where it was: capped (up to the bits the slope shift
   * drops; exactly at -delay_max_ns when the shift drops none), so the
   * transient burst never moves the controller toward target_hz.
   */
  lemma BlipLeavesControllerIdle(s: State, t: int)
    requires ValidState(s) && IsU64(t) && s.reqAdded && s.activeCount == 0
    requires s.timeClearNs < t && NoSlopeWrap(s, t)
    requires (t - s.timeClearNs) * Pow2(s.cfg.delaySlopeShift) >= s.cfg.delayMaxNs
    requires t + s.cfg.delayMaxNs < U64_MOD && s.cfg.delayMaxNs >= Pow2(s.cfg.delaySlopeShift)
    ensures BeginStep(s, t, t, t).activeCount == 1
    ensures EndStep(BeginStep(s, t, t, t), t, t, t).activeCount == 0
    ensures TimeToUpdate(EndStep(BeginStep(s, t, t, t), t, t, t), t) ==
              -(RoundDown(s.cfg.delayMaxNs, s.cfg.delaySlopeShift) as int)
  {
    var dmax := s.cfg.delayMaxNs;
    var p := Pow2(s.cfg.delaySlopeShift);
    var q := Shr(dmax, s.cfg.delaySlopeShift);
    ShiftedDelayBounds(dmax, s.cfg.delaySlopeShift, t - s.timeClearNs);
    BeginAfterLongIdle(s, t, t, t);
    var b := BeginStep(s, t, t, t);
    EndOfUncommittedBegin(b, t);
    var r := EndStep(b, t, t, t);
    assert t - r.timeClearNs == q;
    assert q * p == RoundDown(dmax, s.cfg.delaySlopeShift);
    IdleDelayMagnitude(r, t);
  }

  /** An end at the instant its begin placed time_set_ns delay_max_ns ahead. */
  lemma EndOfUncommittedBegin(b: State, t: int)
    requires ValidState(b) && IsU64(t) && b.reqAdded && b.activeCount == 1
    requires b.timeSetNs == t + b.cfg.delayMaxNs && t + b.cfg.delayMaxNs < U64_MOD
    requires Shr(b.cfg.delayMaxNs, b.cfg.delaySlopeShift) <= t
    ensures EndStep(b, t, t, t).activeCount == 0
    ensures EndStep(b, t, t, t).cfg == b.cfg
    ensures EndStep(b, t, t, t).timeClearNs == t - Shr(b.cfg.delayMaxNs, b.cfg.delaySlopeShift)
  {
    ActiveDelayIsTimeLeft(b, t);
  }

  /** The delay an end scales down is at least one and at most the idle time that produced it. */
  lemma ShiftedDelayBounds(d: nat, shift: nat, e: nat)
    requires Pow2(shift) <= d && e * Pow2(shift) >= d
    ensures 1 <= Shr(d, shift) <= e
  {
    var p := Pow2(shift);
    var q := Shr(d, shift);
    DivisionBounds(d, p);
    assert q * p <= d;
    MulCancel(q, e, p);
  }

  lemma MulCancel(a: nat, b: nat, p: nat)
    requires p >= 1 && a * p <= b * p
    ensures a <= b
  {
    if a > b {
      MulMonotone(b + 1, a, p);
    }
  }

  /**
   * When the last GPU-bound user leaves, the timer is armed for that instant
   * at the latest, and the timeout it leads to requests the default value and
   * stops the timer chain.
   */
  lemma LastEndLeadsToDefault(s: State, t1: int, t2: int, t3: int, u1: int, u2: int)
    requires ValidState(s) && IsU64(t1) && IsU64(t2) && IsU64(t3) && t1 <= t2 <= t3 && s.reqAdded
    requires s.activeCount == 1 && s.cfg.delayMaxNs > 0
    requires IsU64(u1) && IsU64(u2) && u1 <= u2 && NoSlopeWrap(EndStep(s, t1, t2, t3), u1)
    ensures EndStep(s, t1, t2, t3).timer.Some? && EndStep(s, t1, t2, t3).timer.value <= t3
    ensures TimeoutStep(EndStep(s, t1, t2, t3), u1, u2).reqValue == PM_QOS_DEFAULT_VALUE
    ensures TimeoutStep(EndStep(s, t1, t2, t3), u1, u2).timer.None?
  {
    TimeoutRequestsTargetIffDue(EndStep(s, t1, t2, t3), u1, u2);
  }

  /** The entry points a caller or the timer can invoke, with their clock readings. */
  datatype Event =
    | Begin(b1: int, b2: int, b3: int)
    | End(e1: int, e2: int, e3: int)
    | Fire(f1: int, f2: int)

  /**
   * What each entry point demands: ordered u64 clock readings, an end only
   * after a matching begin, the timer callback only while the timer is pending.
   */
  predicate Enabled(s: State, e: Event)
  {
    match e
    case Begin(t1, t2, t3) => IsU64(t1) && IsU64(t2) && IsU64(t3) && t1 <= t2 <= t3
    case End(t1, t2, t3) => IsU64(t1) && IsU64(t2) && IsU64(t3) && t1 <= t2 <= t3 && s.activeCount > 0
    case Fire(t1, t2) => IsU64(t1) && IsU64(t2) && t1 <= t2 && s.timer.Some?
  }

  function Step(s: State, e: Event): (r: State)
    requires ValidState(s) && s.reqAdded && Enabled(s, e)
    ensures ValidState(r) && r.reqAdded && r.cfg == s.cfg
  {
    match e
    case Begin(t1, t2, t3) => BeginStep(s, t1, t2, t3)
    case End(t1, t2, t3) => EndStep(s, t1, t2, t3)
    case Fire(t1, t2) => TimeoutStep(s, t1, t2)
  }

  /** Every event of es is enabled in the state the earlier ones lead to. */
  predicate Runs(s: State, es: seq<Event>)
    requires ValidState(s) && s.reqAdded
    decreases |es|
  {
    es == [] || (Enabled(s, es[0]) && Runs(Step(s, es[0]), es[1..]))
  }

  function Run(s: State, es: seq<Event>): (r: State)
    requires ValidState(s) && s.reqAdded && Runs(s, es)
    ensures ValidState(r) && r.reqAdded && r.cfg == s.cfg
    decreases |es|
  {
    if es == [] then s else Run(Step(s, es[0]), es[1..])
  }

  function Begins(es: seq<Event>): nat
    decreases |es|
  {
    if es == [] then 0 else (if es[0].Begin? then 1 else 0) + Begins(es[1..])
  }

  function Ends(es: seq<Event>): nat
    decreases |es|
  {
    if es == [] then 0 else (if es[0].End? then 1 else 0) + Ends(es[1..])
  }

  /**
   * active_count is the number of begins without a matching end: along any
   * run it never drops below zero, and it ends at its start value plus the
   * begins minus the ends.
   */
  lemma {:induction false} CountIsOutstandingBegins(s: State, es: seq<Event>)
    requires ValidState(s) && s.reqAdded && Runs(s, es)
    ensures Ends(es) <= s.activeCount + Begins(es)
    ensures Run(s, es).activeCount == s.activeCount + Begins(es) - Ends(es)
    decreases |es|
  {
    if es != [] {
      CountIsOutstandingBegins(Step(s, es[0]), es[1..]);
    }
  }

  /** Every clock reading of e lies in [lo, hi). */
  predicate Within(e: Event, lo: int, hi: int)
  {
    match e
    case Begin(t1, t2, t3) => lo <= t1 && t3 < hi
    case End(t1, t2, t3) => lo <= t1 && t3 < hi
    case Fire(t1, t2) => lo <= t1 && t2 < hi
  }

  /** The run never lets the last GPU-bound user go: activity is continuous. */
  predicate RunsActive(s: State, es: seq<Event>)
    requires ValidState(s) && s.reqAdded
    decreases |es|
  {
    es == [] ||
    (Enabled(s, es[0]) && !(es[0].End? && s.activeCount == 1) &&
     RunsActive(Step(s, es[0]), es[1..]))
  }

  /**
   * One step of continuous activity before tb + delay_max_ns keeps the GPU
   * bound, keeps time_set_ns at tb + delay_max_ns or later, and never
   * requests target_hz.
   */
  lemma ActiveStepKeepsCommitPoint(s: State, e: Event, tb: int)
    requires ValidState(s) && s.reqAdded && Enabled(s, e) && !(e.End? && s.activeCount == 1)
    requires s.activeCount > 0 && s.cfg.delayMaxNs > 0 && s.reqValue != s.cfg.targetHz
    requires 0 <= tb && tb + 2 * s.cfg.delayMaxNs <= U64_MOD
    requires s.timeSetNs >= tb + s.cfg.delayMaxNs && Within(e, tb, tb + s.cfg.delayMaxNs)
    ensures Step(s, e).activeCount > 0
    ensures Step(s, e).timeSetNs >= tb + s.cfg.delayMaxNs
    ensures Step(s, e).reqValue != s.cfg.targetHz
  {
    match e
    case Begin(t1, t2, t3) =>
      ActiveDelayIsTimeLeft(s, t1);
    case End(t1, t2, t3) =>
    case Fire(t1, t2) =>
      assert t1 < s.timeSetNs;
  }

  /**
   * target_hz is not requested before the GPU has been continuously bound
   * for delay_max_ns after time_set_ns was placed at tb + delay_max_ns.
   */
  lemma {:induction false} NoTargetWhileActiveBeforeCommit(s: State, es: seq<Event>, tb: int)
    requires ValidState(s) && s.reqAdded && RunsActive(s, es)
    requires s.activeCount > 0 && s.cfg.delayMaxNs > 0 && s.reqValue != s.cfg.targetHz
    requires 0 <= tb && tb + 2 * s.cfg.delayMaxNs <= U64_MOD
    requires s.timeSetNs >= tb + s.cfg.delayMaxNs
    requires forall i :: 0 <= i < |es| ==> Within(es[i], tb, tb + s.cfg.delayMaxNs)
    ensures Runs(s, es)
    ensures Run(s, es).reqValue != s.cfg.targetHz
    decreases |es|
  {
    if es != [] {
      ActiveStepKeepsCommitPoint(s, es[0], tb);
      var s' := Step(s, es[0]);
      forall i | 0 <= i < |es[1..]| ensures Within(es[1..][i], tb, tb + s'.cfg.delayMaxNs) {
        assert es[1..][i] == es[i + 1];
      }
      NoTargetWhileActiveBeforeCommit(s', es[1..], tb);
    }
  }

  /**
   * After a long idle stretch, a begin at t2 followed by any continuous
   * activity ending before t2 + delay_max_ns never requests target_hz: the
   * GPU-bound value needs delay_max_ns of uninterrupted activity.
   */
  lemma NoTargetBeforeFullDelay(s: State, t1: int, t2: int, t3: int, es: seq<Event>)
    requires ValidState(s) && IsU64(t1) && IsU64(t2) && IsU64(t3) && t1 <= t2 <= t3 && s.reqAdded
    requires s.activeCount == 0 && s.timeClearNs < t1 && NoSlopeWrap(s, t1)
    requires (t1 - s.timeClearNs) * Pow2(s.cfg.delaySlopeShift) >= s.cfg.delayMaxNs
    requires s.cfg.delayMaxNs > 0 && t2 + 2 * s.cfg.delayMaxNs <= U64_MOD
    requires s.reqValue != s.cfg.targetHz
    requires RunsActive(BeginStep(s, t1, t2, t3), es)
    requires forall i :: 0 <= i < |es| ==> Within(es[i], t2, t2 + s.cfg.delayMaxNs)
    ensures Runs(BeginStep(s, t1, t2, t3), es)
    ensures Run(BeginStep(s, t1, t2, t3), es).reqValue != s.cfg.targetHz
  {
    BeginAfterLongIdle(s, t1, t2, t3);
    NoTargetWhileActiveBeforeCommit(BeginStep(s, t1, t2, t3), es, t2);
  }

  /** The first and the last clock reading of e. */
  function First(e: Event): int
  {
    match e
    case Begin(t1, t2, t3) => t1
    case End(t1, t2, t3) => t1
    case Fire(t1, t2) => t1
  }

  function Last(e: Event): int
  {
    match e
    case Begin(t1, t2, t3) => t3
    case End(t1, t2, t3) => t3
    case Fire(t1, t2) => t2
  }

  /** The clock readings of es come after now, in the order of the events, and stay below hi. */
  predicate InOrder(es: seq<Event>, now: int, hi: int)
    decreases |es|
  {
    es == [] || (now <= First(es[0]) && Last(es[0]) < hi && InOrder(es[1..], Last(es[0]), hi))
  }

  /** The last clock reading of es, or now when es is empty. */
  function LastReading(es: seq<Event>, now: int): int
    decreases |es|
  {
    if es == [] then now else LastReading(es[1..], Last(es[0]))
  }

  /**
   * While the GPU is bound, the controller is on its way to target_hz:
   * either target_hz is in force, or the timer is pending for
   * max(now, time_set_ns) at the latest; and time_set_ns is never more than
   * delay_max_ns ahead of now.
   */
  predicate UpdatePending(s: State, now: int)
  {
    s.activeCount > 0 && s.timeSetNs <= now + s.cfg.delayMaxNs &&
    (s.reqValue == s.cfg.targetHz || (s.timer.Some? && s.timer.value <= Max(now, s.timeSetNs)))
  }

  /** The first begin puts the controller on its way to target_hz. */
  lemma FirstBeginArmsUpdate(s: State, t1: int, t2: int, t3: int)
    requires ValidState(s) && IsU64(t1) && IsU64(t2) && IsU64(t3) && t1 <= t2 <= t3 && s.reqAdded
    requires s.activeCount == 0 && s.cfg.delayMaxNs > 0 && t3 + s.cfg.delayMaxNs < U64_MOD
    ensures UpdatePending(BeginStep(s, t1, t2, t3), t3)
  {
  }

  /** One step of continuous activity keeps the controller on its way to target_hz. */
  lemma ActiveStepKeepsUpdatePending(s: State, e: Event, now: int)
    requires ValidState(s) && s.reqAdded && Enabled(s, e) && !(e.End? && s.activeCount == 1)
    requires s.cfg.delayMaxNs > 0 && UpdatePending(s, now)
    requires now <= First(e) && Last(e) + s.cfg.delayMaxNs < U64_MOD
    ensures UpdatePending(Step(s, e), Last(e))
  {
    match e
    case Begin(t1, t2, t3) =>
      ActiveDelayIsTimeLeft(s, t1);
    case End(t1, t2, t3) =>
    case Fire(t1, t2) =>
  }

  /**
   * Along any run of continuous activity the controller stays on its way to
   * target_hz: at the last clock reading, either target_hz is in force or
   * the timer is pending no later than max(now, time_set_ns), and a timeout
   * from time_set_ns on requests target_hz (TimeoutRequestsTargetIffDue).
   */
  lemma {:induction false} ActiveRunKeepsUpdatePending(s: State, es: seq<Event>, now: int)
    requires ValidState(s) && s.reqAdded && RunsActive(s, es)
    requires s.cfg.delayMaxNs > 0 && UpdatePending(s, now)
    requires InOrder(es, now, U64_MOD - s.cfg.delayMaxNs)
    ensures Runs(s, es)
    ensures UpdatePending(Run(s, es), LastReading(es, now))
    decreases |es|
  {
    if es != [] {
      ActiveStepKeepsUpdatePending(s, es[0], now);
      ActiveRunKeepsUpdatePending(Step(s, es[0]), es[1..], Last(es[0]));
    }
  }
}
