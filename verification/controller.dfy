/** The controller side of `HeartRateMonitor` (sender.py): the published
    `bpm` as seen by whoever calls `stop_sensor`. */
module Controller {
  import opened Wrappers
  import Monitor

  /** The controller's view: the published `bpm` and whether a worker thread
      was ever started (`_thread is not None`; stopping never clears it). */
  datatype Handle = Handle(bpm: real, worker: bool)

  /** A fresh monitor: `bpm` 0 and no worker. */
  const Fresh: Handle := Handle(0.0, false)

  /** `start_sensor`: a worker now exists. */
  function StartSensor(h: Handle): (r: Handle)
    ensures r.worker && r.bpm == h.bpm
  {
    h.(worker := true)
  }

  /** A value written to `bpm` by the worker. */
  function Publish(h: Handle, write: Option<real>): (r: Handle)
    ensures r.worker == h.worker
    ensures write.None? ==> r == h
    ensures write.Some? ==> r.bpm == write.value
  {
    match write
    case None => h
    case Some(v) => h.(bpm := v)
  }

  /** `stop_sensor` as written: with a worker, raise the stop flag, set
      `bpm` to 0, then join the worker. The worker may be part-way through
      a tick when the flag goes up; that tick finishes during the join and
      its last write to `bpm`, `inflight`, lands after the reset. Without a
      worker nothing about `bpm` changes. */
  function StopSensor(h: Handle, inflight: Option<real>): (r: Handle)
    ensures r.worker == h.worker
    ensures !h.worker ==> r == h
    ensures h.worker && inflight.None? ==> r.bpm == 0.0
    ensures h.worker && inflight.Some? ==> r.bpm == inflight.value
  {
    if h.worker then Publish(h.(bpm := 0.0), inflight) else h
  }

  /** The as-written order can leave a non-zero `bpm` after `stop_sensor`
      returns: the first full, lit window with a valid estimate of 72
      publishes 72, and when that tick is in flight during the join its
      write wins over the reset. */
  lemma StopCanLeaveNonZeroBpm()
    ensures var tick := Monitor.Tick(Monitor.Init, Monitor.LitBatch(),
                                      Monitor.Constant(Monitor.Estimate(72.0, true, 98.0, true)), true);
      && tick.next.bpm == 72.0
      && StopSensor(StartSensor(Fresh), Some(tick.next.bpm)).bpm == 72.0
  {
    Monitor.LitWindowPublishes(Monitor.Estimate(72.0, true, 98.0, true), true);
  }

  /** `stop_sensor` with the reset placed after the join: whatever the
      in-flight tick wrote is overwritten. */
  function StopSensorJoined(h: Handle, inflight: Option<real>): (r: Handle)
    ensures r.worker == h.worker
    ensures !h.worker ==> r == h
    ensures h.worker ==> r.bpm == 0.0
  {
    if h.worker then Publish(h, inflight).(bpm := 0.0) else h
  }

  /** Only the worker ever writes a non-zero `bpm`, so without one it is 0. */
  predicate Quiet(h: Handle) {
    !h.worker ==> h.bpm == 0.0
  }

  /** With the corrected order, any stop of a monitor that respects `Quiet`
      leaves `bpm` at 0, and stopping twice is the same as stopping once. */
  lemma StopJoinedResetsBpm(h: Handle, inflight: Option<real>, again: Option<real>)
    requires Quiet(h)
    ensures StopSensorJoined(h, inflight).bpm == 0.0
    ensures StopSensorJoined(StopSensorJoined(h, inflight), again).bpm == 0.0
    ensures StopSensorJoined(StopSensorJoined(h, inflight), None) == StopSensorJoined(h, inflight)
  {
  }

  /** When no tick is in flight the two orders agree. */
  lemma StopOrdersAgreeWhenIdle(h: Handle)
    ensures StopSensor(h, None) == StopSensorJoined(h, None)
  {
  }
}
