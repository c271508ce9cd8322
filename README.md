# i915 CPU-response-frequency QoS controller, modelled in Dafny

The i915 driver tells CPU power management when the GPU is the bottleneck,
so that the CPU may switch to a more energy-efficient response mode. It
does so through a small controller (`struct intel_qos`): callers bracket
GPU-bound periods with `begin`/`end` (nested through an activity counter),
and a timer later commits a PM QoS request, either `target_hz` or the
default value. The commit is delayed and hysteretic. The GPU must stay bound
for up to `delay_max_ns` before `target_hz` is requested. Idle time counts
back against that delay, scaled by `2^delay_slope_shift`.

The controller exists twice in the source, with the same logic:
`intel_qos.c` (configuration 10000000 ns / shift 1 / 2 Hz) and an older
inline copy in `intel_gt_pm.c` on `gt->rf_qos` (250000 ns / shift 0 / 2 Hz).
The model writes the algorithm once and instantiates it twice.

- `qos_types.dfy` (`QosTypes`): the controller state as a value (`State`,
  `Config`). It also holds the C arithmetic the source relies on:
  u64 wrap-around (`WrapU64`), `<<` on a u64 (`ShlU64`) and conversion to
  s32 (`ToS32`).
- `qos_delay.dfy` (`QosDelay`): the decision function `TimeToUpdate`
  (`time_to_sf_qos_update_ns` / `time_to_rf_qos_update_ns`) and its
  properties.
- `qos_machine.dfy` (`QosMachine`): each entry point as a transition on
  `State`, timer reduction, and properties of single steps and whole runs.
- `intel_qos.dfy` (`IntelQos`): the class `Qos` with the fields of
  `struct intel_qos`. Its methods update the fields in place, and each is
  proved to make exactly the corresponding `QosMachine` transition.
- `intel_gt_pm.dfy` (`GtPm`): the class `Gt` holding `rfQos: Qos`, with the
  rf_qos functions of `intel_gt_pm.c` and their 250000/0/2 configuration.

Clock readings are parameters. `begin` and `end` read the clock three times:
inside the delay computation (`t1`), explicitly (`t2`), and inside the
nested update (`t3`). The model takes all three, with `t1 <= t2 <= t3`. The
timeout takes the reading of its decision (`t1`) and that of its re-arming
update (`t2`). Timer expiries are kept in nanoseconds:
`jiffies + nsecs_to_jiffies(dt)` is read as `now + dt`.

`ValidConfig` demands three things of the configuration. `target_hz <= 2^31 - 1`:
the fields are u32, but `target_hz` is passed on as the s32 request value,
where `0xffffffff` would read as the default value -1.
`delay_max_ns <= 2^31 - 1`, so every delay fits the s32 that carries it.
`delay_slope_shift < 32`, since a larger shift of the u32 in `end` is
undefined in C. Both configurations the source installs satisfy it, and
nothing else changes those fields.

`PM_QOS_DEFAULT_VALUE` is -1, as `include/linux/pm_qos.h` defines it.
That header is not part of this model.

Three consequences of the code that are easy to miss:
- `intel_qos_init` does not set the timestamps. They start at 0 because the
  structure is zero-allocated. A `begin` at clock reading 0 on a fresh
  controller therefore sees the idle sentinel -1, and puts `time_set_ns` at
  1, not at `delay_max_ns`. `GtPm.RfScenario` starts at `T >= 250000`.
- A nested `begin` computes the delay at its first clock read and adds it
  to its second. While `time_set_ns` is ahead by at most `delay_max_ns`,
  each nested `begin` therefore moves `time_set_ns` later by the gap
  between those two reads (`QosMachine.NestedBeginDefersCommitPoint`).
- The default value is restored at the first timeout after the last `end`.
  That `end` arms the timer for its own instant, because every idle delay
  is `<= 0`. There is no decay window before the default value returns. The
  idle slope only decides how far from `target_hz` the next `begin` starts.

## Model

| member | source | states |
|---|---|---|
| `QosDelay.TimeToUpdate` | drivers/gpu/drm/i915/gt/intel_qos.c:21-36 | Every delay lies in `[-max(1, delay_max_ns), delay_max_ns]`. While active it is `>= 0`, and 0 exactly when `time_set_ns` has been reached (or `delay_max_ns` is 0). While idle it is `<= 0`, and the sentinel -1 up to `time_clear_ns`. |
| `QosDelay.ActiveDelayIsTimeLeft` | drivers/gpu/drm/i915/gt/intel_qos.c:26-29 | While active, the delay is the time left until `time_set_ns`, or `delay_max_ns` when that is further away. |
| `QosDelay.ActiveDelayCountsDown` | drivers/gpu/drm/i915/gt/intel_qos.c:18-29 | While active and not capped, the delay decreases one for one with time until it reaches 0. |
| `QosDelay.IdleDelayMagnitude` | drivers/gpu/drm/i915/gt/intel_qos.c:30-34 | After `time_clear_ns` and without slope overflow, the idle delay is `-min(delay_max_ns, (now - time_clear_ns) * 2^shift)`. It is strictly negative when `delay_max_ns > 0`. |
| `QosDelay.IdleDelayDecreases` | drivers/gpu/drm/i915/gt/intel_qos.c:30-34 | While idle and with `delay_max_ns > 0`, the delay never increases as time passes. (With `delay_max_ns == 0` it goes from -1 to 0.) |
| `QosDelay.LargerShiftSteeperSlope` | drivers/gpu/drm/i915/gt/intel_qos_types.h:29-35 | A larger slope shift makes the idle delay at least as overdue for the same idle time. |
| `QosMachine.Reduce` | drivers/gpu/drm/i915/gt/intel_qos.c:45 | `timer_reduce`: the new expiry is the earlier of the pending one and the requested one. An idle timer is armed at the requested expiry. |
| `QosMachine.ReduceAllIsEarliest` | drivers/gpu/drm/i915/gt/intel_qos.c:41-46 | After any series of updates, the timer is armed at the earliest requested or already pending expiry. No update postpones it. |
| `QosMachine.UpdateStep` | drivers/gpu/drm/i915/gt/intel_qos.c:41-46 | Only the timer changes. It is armed no later than `now + max(0, delay)` and `now + delay_max_ns`. A fresh arming is never before now. A pending expiry only moves earlier. Unless the pending expiry is kept, the timer is armed at exactly `now + max(0, delay)`. |
| `QosMachine.TimeoutStep` | drivers/gpu/drm/i915/gt/intel_qos.c:52-65 | Only the request and the timer change. The request becomes `target_hz` or the default value. The timer is re-armed exactly when the delay is positive, at `min(now + delay_max_ns, max(now, time_set_ns))`, which is `now + delay` at the re-arm's reading. |
| `QosMachine.TimeoutRequestsTargetIffDue` | drivers/gpu/drm/i915/gt/intel_qos.c:55-64 | With `delay_max_ns > 0` and no idle-slope overflow, the timeout requests `target_hz` iff the GPU is bound and `time_set_ns` has been reached, and the default value otherwise. It re-arms iff the GPU is bound and `time_set_ns` is still ahead. |
| `QosMachine.BeginStep` | drivers/gpu/drm/i915/gt/intel_qos.c:75-83 | The counter grows by one. `time_set_ns` becomes `now + abs(delay)`. Nested begins leave the timer alone. The first begin arms it for `max(now, time_set_ns)` at the latest, unless `time_set_ns` wraps at 2^64. |
| `QosMachine.BeginAfterLongIdle` | drivers/gpu/drm/i915/gt/intel_qos.c:77-82 | After an idle stretch whose delay is capped, begin puts `time_set_ns` exactly `delay_max_ns` ahead. The timer is armed no later than that point. |
| `QosMachine.NestedBeginKeepsCommitPoint` | drivers/gpu/drm/i915/gt/intel_qos.c:77-82 | A nested begin whose two clock reads coincide, while `time_set_ns` is ahead by at most `delay_max_ns`, leaves `time_set_ns` and the timer unchanged. |
| `QosMachine.NestedBeginDefersCommitPoint` | drivers/gpu/drm/i915/gt/intel_qos.c:77-79 | A nested begin while `time_set_ns` is ahead by at most `delay_max_ns` moves `time_set_ns` later by exactly the gap between its two clock reads, and leaves the timer unchanged. |
| `QosMachine.EndStep` | drivers/gpu/drm/i915/gt/intel_qos.c:90-99 | Needs an outstanding begin. The counter drops by one. `time_clear_ns` becomes `now - (abs(delay) >> shift)`, unless that wraps below 0. The timer is untouched while users remain. The last end arms it for now at the latest. |
| `QosMachine.EndAfterCommitStartsDecay` | drivers/gpu/drm/i915/gt/intel_qos.c:92-95 | An end after `time_set_ns` was reached anchors `time_clear_ns` at now. The idle delay then restarts from the -1 sentinel. |
| `QosMachine.BlipLeavesControllerIdle` | drivers/gpu/drm/i915/gt/intel_qos.c:75-99 | A begin undone by an end at the same instant, after a long idle stretch, leaves the idle delay at `-((delay_max_ns >> shift) << shift)`. That is `-delay_max_ns` for both configurations. |
| `QosMachine.LastEndLeadsToDefault` | drivers/gpu/drm/i915/gt/intel_qos.c:97-98 | The last end arms the timer for now at the latest. With `delay_max_ns > 0` and no idle-slope overflow, the timeout that follows requests the default value and does not re-arm. |
| `QosMachine.InitState` | drivers/gpu/drm/i915/gt/intel_qos.c:101-109 | The state `intel_qos_init` leaves on zero-initialised memory: the request added at the default value, the configuration installed, no timer pending, counter and both timestamps 0. Its delay at clock reading 0 is the idle sentinel -1. |
| `QosMachine.FiniStep` | drivers/gpu/drm/i915/gt/intel_qos.c:111-115 | Teardown leaves no timer pending and the request removed. |
| `QosMachine.CountIsOutstandingBegins` | drivers/gpu/drm/i915/gt/intel_qos_types.h:50-56 | Along any run, `active_count` never goes below zero. It equals its start value plus the begins minus the ends. |
| `QosMachine.ActiveStepKeepsCommitPoint` | drivers/gpu/drm/i915/gt/intel_qos.c:55-82 | Every step of continuous activity before `tb + delay_max_ns` keeps the GPU bound. It keeps `time_set_ns >= tb + delay_max_ns` and never requests `target_hz`. |
| `QosMachine.NoTargetWhileActiveBeforeCommit` | drivers/gpu/drm/i915/gt/intel_qos.c:55-60 | No run of continuous activity ending before `tb + delay_max_ns` requests `target_hz` while `time_set_ns >= tb + delay_max_ns`. |
| `QosMachine.NoTargetBeforeFullDelay` | drivers/gpu/drm/i915/gt/intel_qos.c:67-83 | After a long idle stretch, `target_hz` is never requested before `delay_max_ns` of continuous activity since the begin. |
| `QosMachine.FirstBeginArmsUpdate` | drivers/gpu/drm/i915/gt/intel_qos.c:75-83 | After the first begin the GPU is bound, `time_set_ns` is at most `delay_max_ns` ahead, and the timer is pending for `max(now, time_set_ns)` at the latest. |
| `QosMachine.ActiveStepKeepsUpdatePending` | drivers/gpu/drm/i915/gt/intel_qos.c:52-99 | Each begin, nested end or timeout during continuous activity keeps that: either `target_hz` is in force, or the timer is pending for `max(now, time_set_ns)` at the latest. |
| `QosMachine.ActiveRunKeepsUpdatePending` | drivers/gpu/drm/i915/gt/intel_qos.c:41-99 | Along any run of continuous activity with ordered clock readings, at its last reading either `target_hz` is in force or the timer is pending for `max(now, time_set_ns)` at the latest. |
| `IntelQos.Qos.Setup` | drivers/gpu/drm/i915/gt/intel_qos.c:103-108 | The request is added at the default value and the configuration installed. No timer is pending and the counter is 0. |
| `IntelQos.Init` | drivers/gpu/drm/i915/gt/intel_qos.c:101-109 | `intel_qos_init` sets 10000000 ns, shift 1, 2 Hz, with the request at the default value and no timer pending. |
| `IntelQos.Qos.Update` | drivers/gpu/drm/i915/gt/intel_qos.c:41-46 | In place, the fields become `UpdateStep` of the old state. The timer only moves earlier and is never armed in the past. |
| `IntelQos.Qos.Timeout` | drivers/gpu/drm/i915/gt/intel_qos.c:52-65 | In place, the fields become `TimeoutStep` of the old state. A re-armed timer expires between the re-arm's reading and `max(now, time_set_ns)`. |
| `IntelQos.Qos.OverloadBegin` | drivers/gpu/drm/i915/gt/intel_qos.c:75-83 | In place, the fields become `BeginStep` of the old state. The counter grows by one, and nested begins leave the timer alone. The first begin arms it for `max(now, time_set_ns)` at the latest. |
| `IntelQos.Qos.OverloadEnd` | drivers/gpu/drm/i915/gt/intel_qos.c:90-99 | In place, the fields become `EndStep` of the old state. The last end arms the timer for now at the latest. |
| `IntelQos.Qos.Fini` | drivers/gpu/drm/i915/gt/intel_qos.c:111-115 | The timer is cancelled and the request removed. No callback can run afterwards. |
| `GtPm.Gt.InitEarly` | drivers/gpu/drm/i915/gt/intel_gt_pm.c:193-199 | rf_qos starts with 250000 ns, shift 0, 2 Hz, the request at the default value and no timer pending. |
| `GtPm.Gt.TimeToRfQosUpdate` | drivers/gpu/drm/i915/gt/intel_gt_pm.c:106-122 | The delay lies in `[-250000, 250000]`. While active it is the time left to `time_set_ns`, capped at 250000, and 0 exactly once that is reached. While idle it is -1 up to `time_clear_ns`, then minus the idle time, capped at 250000. |
| `GtPm.RfDelayClosedForm` | drivers/gpu/drm/i915/gt/intel_gt_pm.c:111-121 | With shift 0 the idle slope cannot overflow. The active delay is the time left to `time_set_ns`, capped at 250000. The idle delay is minus the idle time, capped at 250000. |
| `GtPm.Gt.RfQosUpdate` | drivers/gpu/drm/i915/gt/intel_gt_pm.c:127-132 | The timer is armed no later than `now + 250000`. It only moves earlier, and a fresh arming is never before now. |
| `GtPm.Gt.RfQosTimeout` | drivers/gpu/drm/i915/gt/intel_gt_pm.c:138-151 | The request becomes 2 iff the GPU is bound and `time_set_ns` was reached. It re-arms iff that point is still ahead, no later than `max(now, time_set_ns)`. |
| `GtPm.RfTimeoutRequestsTargetIffDue` | drivers/gpu/drm/i915/gt/intel_gt_pm.c:142-150 | The same if-and-only-if for the rf_qos configuration, in every state. No overflow hypothesis is needed. |
| `GtPm.Gt.ActiveBegin` | drivers/gpu/drm/i915/gt/intel_gt_pm.c:161-169 | In place, rf_qos becomes `BeginStep` of its old state. Only the first begin touches the timer, arming it for `max(now, time_set_ns)` at the latest. |
| `GtPm.Gt.ActiveEnd` | drivers/gpu/drm/i915/gt/intel_gt_pm.c:176-185 | In place, rf_qos becomes `EndStep` of its old state. Only the last end touches the timer, and it arms it for now at the latest. |
| `GtPm.RfScenario` | drivers/gpu/drm/i915/gt/intel_gt_pm.c:138-185 | A begin at T after long idle arms the timer for T + 250000, where the request becomes 2. An end at that instant arms the timer for the same instant, and its timeout restores the default value. |

## Left out

- Atomics and memory ordering (`atomic_read_acquire`, `atomic_fetch_inc_release`, `atomic_dec_return_release`, `atomic64_set`) are sequential field updates. Interleavings of begin/end with the timer callback are concurrency and not modelled.
- `ktime_get_ns`, `jiffies` and `nsecs_to_jiffies` are replaced by clock-reading parameters. The ns-to-jiffies conversion is the identity, and timer expiries are unbounded integers. Neither jiffies wrap-around nor `time_before_eq` is modelled.
- Timer dispatch is not modelled. The callback may be invoked whenever the timer is pending, and the model does not demand that its expiry has passed.
- The PM QoS request is reduced to the last requested value and a registered flag (`pm_qos_*`, `cpu_scaling_response_qos_*` are foreign calls).
- A `target_hz` above 2^31 - 1 is excluded by `ValidConfig`. The source would pass it on as a negative s32, and `0xffffffff` would be indistinguishable from the default value. Both installed configurations use 2.
- `active_count` is unbounded (`nat`). The 32-bit signed `atomic_t` cannot wrap after 2^31 nested begins here. An end without a begin is excluded by a precondition, as the source requires.
- `QosMachine.TimeoutRequestsTargetIffDue`, `QosDelay.IdleDelayMagnitude`, `QosDelay.IdleDelayDecreases`, `QosMachine.LastEndLeadsToDefault` and `QosMachine.NoTargetBeforeFullDelay` need `delay_max_ns > 0` (with 0 the idle delay after `time_clear_ns` is 0, so a timeout while idle requests `target_hz`) and need the u64 idle slope `(now - time_clear_ns) << shift` not to overflow. When it overflows to exactly 0, the source requests `target_hz` while idle. The rf_qos configuration (shift 0) cannot overflow. The intel_qos one (shift 1) needs 2^63 ns of idle time.
- `QosMachine.ActiveRunKeepsUpdatePending` and `QosMachine.FirstBeginArmsUpdate` need `delay_max_ns > 0` and clock readings at least `delay_max_ns` below 2^64. They say when the timer is due, not that it fires then, since timer dispatch is not modelled.
- `QosMachine.NoTargetBeforeFullDelay` and `QosMachine.BeginAfterLongIdle` assume `time_set_ns` does not wrap at 2^64. Neither covers activity interrupted by an end that takes the counter to 0. A new period then starts from a shorter delay, by design.
- `debug` (never used), the `sf_qos` sub-struct of `intel_gt_types.h` (a duplicate of `struct intel_qos`), and the prototypes in `intel_qos.h` carry no behaviour.
- Park/unpark, display power domains, forcewake, IRQ sync, engine reset, resume and runtime suspend in `intel_gt_pm.c` (lines 15-91, 202-284) are driver plumbing outside the controller.
- `drivers/gpu/drm/virtio/virtgpu_prime.c` is not part of this model. It is blocking I/O over virtio commands with no state the controller uses.
