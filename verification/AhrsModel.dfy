/** What the AHRS entry points mean (controller/src/ahrs.c, ahrs_calibration.c).

    The compass unit keeps the *list* of samples noted since the last reset. The
    program keeps only running extrema and a saturating counter; `Ahrs.Ahrs` is proved
    to behave like this model. */
module AhrsModel {
  import opened FixedPoint
  import opened Options
  import opened Heading

  const MAG_MEAS_MAX := 4095
  const CAL_MIN_SAMPLES := 150
  const CAL_MIN_SPAN := 64
  const CAL_MAX_SAMPLES := 16000

  datatype Mode = Initializing | Calibrating | Active | Disabled | Failed
  datatype Status = InProgress | Completed | Rejected
  datatype Result = Ok | InvalidConfig | UpdateFailed

  type Axes = s: seq<int16> | |s| == 3 witness [0, 0, 0]

  datatype Mag = Mag(x: int16, y: int16, z: int16) {
    function Axis(i: nat): int16
      requires i < 3
    {
      if i == 0 then x else if i == 1 then y else z
    }
  }

  datatype Imu = Imu(ax: int16, ay: int16, az: int16, gx: int16, gy: int16, gz: int16)

  datatype Calibration = Calibration(bias: Axes, num: Axes, den: Axes)

  const UNIT_CALIBRATION := Calibration([0, 0, 0], [1, 1, 1], [1, 1, 1])

  datatype Compass = Compass(mode: Mode, calib: Calibration, smoothed: Mag, noted: seq<Mag>)

  datatype ImuUnit = ImuUnit(mode: Mode, bias: Axes, smoothed: Imu)

  // True extrema of a sample list

  function Lo(samples: seq<Mag>, i: nat): int16
    requires i < 3 && samples != []
  {
    var n := |samples| - 1;
    if n == 0 then samples[0].Axis(i) else Min(Lo(samples[..n], i), samples[n].Axis(i))
  }

  function Hi(samples: seq<Mag>, i: nat): int16
    requires i < 3 && samples != []
  {
    var n := |samples| - 1;
    if n == 0 then samples[0].Axis(i) else Max(Hi(samples[..n], i), samples[n].Axis(i))
  }

  /** `Lo` and `Hi` are the least and greatest reading of the axis over all samples. */
  lemma {:induction false} Extrema(samples: seq<Mag>, i: nat)
    requires i < 3 && samples != []
    ensures forall s :: s in samples ==> Lo(samples, i) <= s.Axis(i) <= Hi(samples, i)
    ensures exists s :: s in samples && s.Axis(i) == Lo(samples, i)
    ensures exists s :: s in samples && s.Axis(i) == Hi(samples, i)
    decreases |samples|
  {
    var n := |samples| - 1;
    assert samples[n] in samples;
    if n > 0 {
      Extrema(samples[..n], i);
      assert samples == samples[..n] + [samples[n]];
    }
  }

  lemma {:induction false} LoLeHi(samples: seq<Mag>, i: nat)
    requires i < 3 && samples != []
    ensures Lo(samples, i) <= Hi(samples, i)
    decreases |samples|
  {
    if |samples| > 1 {
      LoLeHi(samples[..|samples| - 1], i);
    }
  }

  lemma ExtremaExtend(samples: seq<Mag>, s: Mag, i: nat)
    requires i < 3
    ensures Lo(samples + [s], i) == if samples == [] then s.Axis(i) else Min(Lo(samples, i), s.Axis(i))
    ensures Hi(samples + [s], i) == if samples == [] then s.Axis(i) else Max(Hi(samples, i), s.Axis(i))
  {
    assert (samples + [s])[..|samples|] == samples;
  }

  function Span(samples: seq<Mag>, i: nat): nat
    requires i < 3 && samples != []
  {
    LoLeHi(samples, i);
    Hi(samples, i) - Lo(samples, i)
  }

  predicate WideSpans(samples: seq<Mag>)
    requires samples != []
  {
    forall i :: 0 <= i < 3 ==> Span(samples, i) >= CAL_MIN_SPAN
  }

  function AvgSpan(samples: seq<Mag>): nat
    requires samples != []
  {
    (Span(samples, 0) + Span(samples, 1) + Span(samples, 2)) / 3
  }

  function Middle(samples: seq<Mag>, i: nat): int16
    requires i < 3 && samples != []
  {
    WrapI16(TruncDiv(Lo(samples, i) + Hi(samples, i), 2))
  }

  /** Bias and per-axis scale fitted to the samples, with the source's int16 casts. */
  function Fitted(samples: seq<Mag>): Calibration
    requires samples != []
  {
    var avg := WrapI16(AvgSpan(samples));
    Calibration([Middle(samples, 0), Middle(samples, 1), Middle(samples, 2)],
                [avg, avg, avg],
                [WrapI16(Span(samples, 0)), WrapI16(Span(samples, 1)), WrapI16(Span(samples, 2))])
  }

  // Correction

  lemma ProductBound(x: int, y: int, m: nat, n: nat)
    requires 0 - m <= x <= m && 0 - n <= y <= n
    ensures 0 - m * n <= x * y <= m * n
  {
    assert (m - x) * (n + y) >= 0 && (m + x) * (n - y) >= 0;
    assert (m - x) * (n - y) >= 0 && (m + x) * (n + y) >= 0;
  }

  lemma QuotientBound(n: int, d: int)
    requires d != 0
    ensures 0 - Abs(n) <= TruncDiv(n, d) <= Abs(n)
  {
    var q := Abs(n) / Abs(d);
    assert q * Abs(d) <= Abs(n);
    assert q <= q * Abs(d);
    assert TruncDiv(n, d) == q || TruncDiv(n, d) == -q;
  }

  /** The scaled value before the sensor-range clamp. The `int32` types say that neither
      the product nor the quotient leaves C's int, for every raw sample and every bias,
      numerator and denominator. */
  function ScaledAxis(centered: int32, num: int16, den: int16): int32
    requires -0xffff <= centered <= 0xffff
  {
    ProductBound(centered, num, 0xffff, 0x8000);
    var product: int32 := centered * num;
    if den == 0 then centered
    else
      QuotientBound(product, den);
      TruncDiv(product, den)
  }

  function ApplyAxisScale(centered: int32, num: int16, den: int16): (r: int16)
    requires -0xffff <= centered <= 0xffff
    ensures -MAG_MEAS_MAX <= r <= MAG_MEAS_MAX
    ensures -MAG_MEAS_MAX <= ScaledAxis(centered, num, den) <= MAG_MEAS_MAX ==> r == ScaledAxis(centered, num, den)
  {
    ClampI32(ScaledAxis(centered, num, den), -MAG_MEAS_MAX, MAG_MEAS_MAX)
  }

  function CorrectedAxis(v: int16, calib: Calibration, i: nat): int16
    requires i < 3
  {
    ApplyAxisScale(v - calib.bias[i], calib.num[i], calib.den[i])
  }

  function Corrected(raw: Mag, calib: Calibration): Mag {
    Mag(CorrectedAxis(raw.x, calib, 0), CorrectedAxis(raw.y, calib, 1), CorrectedAxis(raw.z, calib, 2))
  }

  predicate InSensorRange(m: Mag) {
    && -MAG_MEAS_MAX <= m.x <= MAG_MEAS_MAX
    && -MAG_MEAS_MAX <= m.y <= MAG_MEAS_MAX
    && -MAG_MEAS_MAX <= m.z <= MAG_MEAS_MAX
  }

  function BlendMag(cur: Mag, raw: Mag, a: Alpha): (r: Mag)
    ensures InSensorRange(cur) && InSensorRange(raw) ==> InSensorRange(r)
  {
    BlendMove(cur.x, raw.x, a);
    BlendMove(cur.y, raw.y, a);
    BlendMove(cur.z, raw.z, a);
    Mag(EmaBlend(cur.x, raw.x, a), EmaBlend(cur.y, raw.y, a), EmaBlend(cur.z, raw.z, a))
  }

  // Compass entry points

  function ResetCompass(c: Compass): Compass {
    c.(calib := UNIT_CALIBRATION, noted := [])
  }

  /** `None` is a null sample pointer. */
  function CalibrateCompass(c: Compass, sample: Option<Mag>): (Compass, Status) {
    match sample
    case None =>
      if c.mode.Active? then (ResetCompass(c).(mode := Calibrating), InProgress) else (c, Rejected)
    case Some(s) =>
      if !c.mode.Calibrating? then (c, Rejected)
      else
        var noted := c.noted + [s];
        if |noted| >= CAL_MAX_SAMPLES then (c.(noted := noted), Rejected)
        else if |noted| >= CAL_MIN_SAMPLES && WideSpans(noted) then
          (c.(noted := noted, calib := Fitted(noted)), Completed)
        else (c.(noted := noted), InProgress)
  }

  function UpdateCompass(c: Compass, sample: Option<Mag>, a: Alpha): (Compass, Result) {
    if sample.None? || c.mode.Failed? || c.mode.Disabled? then (c, UpdateFailed)
    else match c.mode
      case Calibrating =>
        var (c', status) := CalibrateCompass(c, sample);
        (c'.(mode := match status case Completed => Active case Rejected => Failed case InProgress => Calibrating), Ok)
      case Initializing => (c.(smoothed := Corrected(sample.value, c.calib), mode := Active), Ok)
      case _ => (c.(smoothed := BlendMag(c.smoothed, Corrected(sample.value, c.calib), a)), Ok)
  }

  // IMU entry points

  function CalibrateImu(u: ImuUnit): (ImuUnit, Status) {
    match u.mode
    case Active => (u.(mode := Calibrating), InProgress)
    case Calibrating => (u.(bias := [u.smoothed.ax, u.smoothed.ay, u.smoothed.az]), Completed)
    case _ => (u, Rejected)
  }

  function BlendImu(u: ImuUnit, v: Imu, a: Alpha): Imu {
    var s := u.smoothed;
    Imu(EmaBlend(s.ax, ClampI16(v.ax - u.bias[0]), a),
        EmaBlend(s.ay, ClampI16(v.ay - u.bias[1]), a),
        EmaBlend(s.az, ClampI16(v.az - u.bias[2]), a),
        EmaBlend(s.gx, v.gx, a), EmaBlend(s.gy, v.gy, a), EmaBlend(s.gz, v.gz, a))
  }

  function UpdateImu(u: ImuUnit, value: Option<Imu>, a: Alpha): (ImuUnit, Result) {
    if value.None? || u.mode.Failed? || u.mode.Disabled? then (u, UpdateFailed)
    else if u.mode.Initializing? then (u.(smoothed := value.value, mode := Active), Ok)
    else
      var u' := u.(smoothed := BlendImu(u, value.value, a));
      if u.mode.Calibrating? then (CalibrateImu(u').0.(mode := Active), Ok) else (u', Ok)
  }

  // Published attitude

  datatype Public = Public(imuMode: Mode, magMode: Mode, heading: real, pitch: real, roll: real, yaw: real,
                           rotationRateX: real, rotationRateY: real, rotationRateZ: real)
}
