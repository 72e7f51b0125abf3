/** Values shared by every stage of the gyroscope offset calibration:
    its constants, the sensor samples, the single-precision float values
    the offsets become, the parameter keys, the notifications, and the
    oracle inputs that stand for the devices, the sensor bus and the
    parameter store. */
module GyroTypes {

  /** Number of gyroscope slots (max_gyros). */
  const MaxGyros: nat := 3
  /** Samples slot 0 must deliver before sampling ends (calibration_count). */
  const CalibrationCount: nat := 5000
  /** Failed polls tolerated; one more aborts the run. */
  const MaxPollErrors: nat := 1000
  /** Result codes of the run (OK and ERROR). */
  const Ok: int := 0
  const Error: int := -1
  /** Largest tolerated gap between the last raw slot-0 sample and its mean (maxoff). */
  const MaxOff: real := 0.01

  datatype Option<T> = None | Some(value: T)

  /** One raw gyroscope report, or a per-axis sum of reports. */
  datatype Vec3 = Vec3(x: real, y: real, z: real)

  const Zero: Vec3 := Vec3(0.0, 0.0, 0.0)

  function Add(a: Vec3, b: Vec3): Vec3 {
    Vec3(a.x + b.x, a.y + b.y, a.z + b.z)
  }

  /** A float as the calibration sees it: a finite value, or the NaN/infinity
      that a division by a zero counter produces. */
  datatype Float = Finite(value: real) | NonFinite

  function Plus(f: Float, r: real): Float {
    match f
    case Finite(a) => Finite(a + r)
    case NonFinite => NonFinite
  }

  /** Float division by an unsigned counter: dividing by zero leaves the finite reals. */
  function Div(f: Float, n: nat): Float {
    match f
    case Finite(a) => if n == 0 then NonFinite else Finite(a / n as real)
    case NonFinite => NonFinite
  }

  /** The offset part of struct gyro_scale; its three scales stay 1.0 throughout. */
  datatype GyroScale = GyroScale(xOffset: Float, yOffset: Float, zOffset: Float)

  /** gyro_scale_zero: zero offsets (with unit scales). */
  const ZeroScale: GyroScale := GyroScale(Finite(0.0), Finite(0.0), Finite(0.0))

  predicate IsFinite(g: GyroScale) {
    g.xOffset.Finite? && g.yOffset.Finite? && g.zOffset.Finite?
  }

  /** One wake of the sampling loop: either poll returned <= 0, or it returned
      > 0 and each slot either reported a fresh sample (Some) or did not. */
  datatype Wake = PollFailed | Woke(gyro0: Option<Vec3>, gyro1: Option<Vec3>, gyro2: Option<Vec3>)

  /** The fresh sample slot s delivered on wake w, if any. */
  function Changed(w: Wake, s: nat): Option<Vec3> {
    match w
    case PollFailed => None
    case Woke(g0, g1, g2) => if s == 0 then g0 else if s == 1 then g1 else if s == 2 then g2 else None
  }

  /** What the device layer answers for one slot during the reset stage. */
  datatype ResetOracle = ResetOracle(opens: bool, deviceId: int, resetResult: int)

  /** What the parameter store and the device layer answer for one slot
      during the commit stage: one result per param_set, whether the
      device opens, and the result of applying the new offsets. */
  datatype CommitOracle = CommitOracle(
    xSet: bool, ySet: bool, zSet: bool, idSet: bool,
    opens: bool, applyResult: int)

  /** The four per-slot parameters CAL_GYRO<s>_XOFF, _YOFF, _ZOFF and _ID. */
  datatype Field = XOff | YOff | ZOff | Id
  datatype ParamKey = CalGyro(slot: nat, field: Field)
  datatype ParamValue = OffsetValue(offset: Float) | DeviceIdValue(id: Option<int>)

  /** One attempted GYROIOCSSCALE on a slot during the commit stage. */
  datatype Apply = Apply(slot: nat, scale: GyroScale)

  /** The notifications the run emits, by kind. */
  datatype Message =
    | Started | HoldStill | FailedReset | Progress(percent: nat) | FailedSensor
    | OffsetsRejected | FailedApply | FailedSetParams | FailedSave | Done | Failed

  /** How the sampling loop ended: slot 0 reached the count, too many polls
      failed, or the modelled trace of wakes ran out first. */
  datatype LoopExit = Completed | Aborted | TraceExhausted

  /** The returned result code, or Stalled when the trace of wakes ran out
      while the loop was still waiting (the source would keep polling). */
  datatype Outcome = Returned(res: int) | Stalled

  /** Everything the outside world answers during one run. */
  datatype Environment = Environment(
    reset: seq<ResetOracle>, trace: seq<Wake>, commit: seq<CommitOracle>, saveResult: int)

  predicate WellFormed(env: Environment) {
    |env.reset| == MaxGyros && |env.commit| == MaxGyros
  }
}
