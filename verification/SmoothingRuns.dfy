/** What the update entry points make of changing readings, one at a time and over whole runs. */
module SmoothingRuns {
  import opened FixedPoint
  import opened Options
  import opened Arithmetic
  import opened FilterRuns
  import opened AhrsModel
  import opened CompassCalibration

  function Saturated(v: int, lo: int, hi: int): int {
    Max(lo, Min(v, hi))
  }

  // The correction of one magnetometer axis

  /** `q` is n / d rounded toward zero. */
  ghost predicate TruncatedQuotient(q: int, n: int, d: int) {
    && Abs(q) * Abs(d) <= Abs(n) < (Abs(q) + 1) * Abs(d)
    && (q > 0 ==> (n > 0 <==> d > 0)) && (q < 0 ==> (n > 0 <==> d < 0))
  }

  /** The corrected reading `r` of an axis reading `v`: less the bias, scaled by num/den unless the axis
      is uncalibrated, and saturated at the sensor's range. */
  ghost predicate AxisCorrected(r: int16, v: int16, bias: int16, num: int16, den: int16) {
    if den == 0 then r == Saturated(v - bias, -4095, 4095)
    else exists q: int :: TruncatedQuotient(q, (v - bias) * num, den) && r == Saturated(q, -4095, 4095)
  }

  lemma Truncates(n: int, d: int)
    requires d != 0
    ensures TruncatedQuotient(TruncDiv(n, d), n, d)
  {
    QuotientWithin(Abs(n), Abs(d));
    MagnitudeOfQuotient(n, d);
  }

  lemma QuotientWithin(n: nat, d: nat)
    requires d > 0
    ensures (n / d) * d <= n < (n / d + 1) * d && n / d >= 0 && (n / d > 0 ==> n > 0)
  {
    DivBounds(n, d);
    Distribute(n / d, 1, d);
  }

  lemma MagnitudeOfQuotient(n: int, d: int)
    requires d != 0
    ensures var q := Abs(n) / Abs(d); TruncDiv(n, d) == if n >= 0 <==> d > 0 then q else -q
  {
  }

  lemma AxisCorrectedExactly(v: int16, calib: Calibration, i: nat)
    requires i < 3
    ensures AxisCorrected(CorrectedAxis(v, calib, i), v, calib.bias[i], calib.num[i], calib.den[i])
  {
    var d, num, den := v - calib.bias[i], calib.num[i], calib.den[i];
    if den != 0 {
      Truncates(d * num, den);
      assert CorrectedAxis(v, calib, i) == Saturated(TruncDiv(d * num, den), -4095, 4095);
    }
  }

  /** Every axis is corrected from its own reading with its own part of the record. */
  lemma CorrectedExactly(raw: Mag, calib: Calibration)
    ensures var r := Corrected(raw, calib);
            && AxisCorrected(r.x, raw.x, calib.bias[0], calib.num[0], calib.den[0])
            && AxisCorrected(r.y, raw.y, calib.bias[1], calib.num[1], calib.den[1])
            && AxisCorrected(r.z, raw.z, calib.bias[2], calib.num[2], calib.den[2])
  {
    AxisCorrectedExactly(raw.x, calib, 0);
    AxisCorrectedExactly(raw.y, calib, 1);
    AxisCorrectedExactly(raw.z, calib, 2);
  }

  // Uncalibrated axes

  function InRange(raw: Mag): Mag {
    Mag(Saturated(raw.x, -4095, 4095), Saturated(raw.y, -4095, 4095), Saturated(raw.z, -4095, 4095))
  }

  /** The record at program start, or after a reset of the calibration. */
  ghost predicate Uncalibrated(calib: Calibration) {
    calib == Calibration([0, 0, 0], [0, 0, 0], [0, 0, 0]) || exists c: Compass :: calib == ResetCompass(c).calib
  }

  lemma UncalibratedReads(raw: Mag, calib: Calibration)
    requires Uncalibrated(calib)
    ensures Corrected(raw, calib) == InRange(raw)
  {
  }

  /** The first sample after a start or restart is taken as it is, but for the sensor's range. */
  lemma FirstSample(c: Compass, raw: Mag, a: Alpha)
    requires c.mode.Initializing? && Uncalibrated(c.calib)
    ensures UpdateCompass(c, Some(raw), a) == (c.(mode := Active, smoothed := InRange(raw)), Ok)
  {
    UncalibratedReads(raw, c.calib);
  }

  // Runs of the magnetometer

  ghost function CorrectedAll(samples: seq<Mag>, calib: Calibration): seq<Mag> {
    seq(|samples|, k requires 0 <= k < |samples| => Corrected(samples[k], calib))
  }

  ghost function Xs(ms: seq<Mag>): seq<int16> {
    seq(|ms|, k requires 0 <= k < |ms| => ms[k].x)
  }

  ghost function Ys(ms: seq<Mag>): seq<int16> {
    seq(|ms|, k requires 0 <= k < |ms| => ms[k].y)
  }

  ghost function Zs(ms: seq<Mag>): seq<int16> {
    seq(|ms|, k requires 0 <= k < |ms| => ms[k].z)
  }

  ghost function FilteredMag(s: Mag, ms: seq<Mag>, a: Alpha): Mag {
    Mag(Run(s.x, Xs(ms), a), Run(s.y, Ys(ms), a), Run(s.z, Zs(ms), a))
  }

  lemma FilteredMagExtend(s: Mag, ms: seq<Mag>, m: Mag, a: Alpha)
    ensures FilteredMag(s, ms + [m], a) == BlendMag(FilteredMag(s, ms, a), m, a)
  {
    assert Xs(ms + [m]) == Xs(ms) + [m.x] && Ys(ms + [m]) == Ys(ms) + [m.y] && Zs(ms + [m]) == Zs(ms) + [m.z];
    RunExtend(s.x, Xs(ms), m.x, a);
    RunExtend(s.y, Ys(ms), m.y, a);
    RunExtend(s.z, Zs(ms), m.z, a);
  }

  /** Each axis filters its own corrected readings; record and mode stay. */
  lemma {:induction false} CompassRun(c: Compass, samples: seq<Mag>, a: Alpha)
    requires c.mode.Active?
    ensures Fed(c, samples, a) == c.(smoothed := FilteredMag(c.smoothed, CorrectedAll(samples, c.calib), a))
    decreases |samples|
  {
    if samples != [] {
      var prefix, last := samples[..|samples| - 1], samples[|samples| - 1];
      CompassRun(c, prefix, a);
      assert CorrectedAll(samples, c.calib) == CorrectedAll(prefix, c.calib) + [Corrected(last, c.calib)];
      FilteredMagExtend(c.smoothed, CorrectedAll(prefix, c.calib), Corrected(last, c.calib), a);
    }
  }

  // Runs of the IMU

  ghost function FedImu(u: ImuUnit, values: seq<Imu>, a: Alpha): ImuUnit
    decreases |values|
  {
    if values == [] then u
    else UpdateImu(FedImu(u, values[..|values| - 1], a), Some(values[|values| - 1]), a).0
  }

  /** A reading less its bias, saturated at the limits of int16; gyros have no bias. */
  ghost function Unbiased(v: Imu, bias: Axes): Imu {
    Imu(Saturated(v.ax - bias[0], -32768, 32767), Saturated(v.ay - bias[1], -32768, 32767),
        Saturated(v.az - bias[2], -32768, 32767), v.gx, v.gy, v.gz)
  }

  ghost function Readings(values: seq<Imu>, bias: Axes, axis: Imu -> int16): seq<int16> {
    seq<int16>(|values|, k requires 0 <= k < |values| => axis(Unbiased(values[k], bias)))
  }

  ghost function FilteredImu(s: Imu, values: seq<Imu>, bias: Axes, a: Alpha): Imu {
    Imu(Run(s.ax, Readings(values, bias, (v: Imu) => v.ax), a), Run(s.ay, Readings(values, bias, (v: Imu) => v.ay), a),
        Run(s.az, Readings(values, bias, (v: Imu) => v.az), a), Run(s.gx, Readings(values, bias, (v: Imu) => v.gx), a),
        Run(s.gy, Readings(values, bias, (v: Imu) => v.gy), a), Run(s.gz, Readings(values, bias, (v: Imu) => v.gz), a))
  }

  lemma ReadingsExtend(cur: int16, values: seq<Imu>, v: Imu, bias: Axes, axis: Imu -> int16, a: Alpha)
    ensures Run(cur, Readings(values + [v], bias, axis), a)
         == EmaBlend(Run(cur, Readings(values, bias, axis), a), axis(Unbiased(v, bias)), a)
  {
    assert Readings(values + [v], bias, axis) == Readings(values, bias, axis) + [axis(Unbiased(v, bias))];
    RunExtend(cur, Readings(values, bias, axis), axis(Unbiased(v, bias)), a);
  }

  lemma FilteredExtend(s: Imu, values: seq<Imu>, v: Imu, bias: Axes, a: Alpha)
    ensures var p, w, r := FilteredImu(s, values, bias, a), Unbiased(v, bias), FilteredImu(s, values + [v], bias, a);
            && r.ax == EmaBlend(p.ax, w.ax, a) && r.ay == EmaBlend(p.ay, w.ay, a) && r.az == EmaBlend(p.az, w.az, a)
            && r.gx == EmaBlend(p.gx, w.gx, a) && r.gy == EmaBlend(p.gy, w.gy, a) && r.gz == EmaBlend(p.gz, w.gz, a)
  {
    ReadingsExtend(s.ax, values, v, bias, (v: Imu) => v.ax, a);
    ReadingsExtend(s.ay, values, v, bias, (v: Imu) => v.ay, a);
    ReadingsExtend(s.az, values, v, bias, (v: Imu) => v.az, a);
    ReadingsExtend(s.gx, values, v, bias, (v: Imu) => v.gx, a);
    ReadingsExtend(s.gy, values, v, bias, (v: Imu) => v.gy, a);
    ReadingsExtend(s.gz, values, v, bias, (v: Imu) => v.gz, a);
  }

  /** One sample outside the start: the blend of every axis, before a calibration takes its bias. */
  lemma BlendIs(u: ImuUnit, v: Imu, a: Alpha)
    ensures var w, s := Unbiased(v, u.bias), u.smoothed;
            BlendImu(u, v, a) == Imu(EmaBlend(s.ax, w.ax, a), EmaBlend(s.ay, w.ay, a), EmaBlend(s.az, w.az, a),
                                     EmaBlend(s.gx, w.gx, a), EmaBlend(s.gy, w.gy, a), EmaBlend(s.gz, w.gz, a))
  {
  }

  /** Each axis filters its own readings, the accelerometer's less their bias and saturated. */
  lemma {:induction false} ImuRun(u: ImuUnit, values: seq<Imu>, a: Alpha)
    requires u.mode.Active?
    ensures FedImu(u, values, a) == u.(smoothed := FilteredImu(u.smoothed, values, u.bias, a))
    decreases |values|
  {
    if values != [] {
      var prefix, last := values[..|values| - 1], values[|values| - 1];
      ImuRun(u, prefix, a);
      FilteredExtend(u.smoothed, prefix, last, u.bias, a);
      assert values == prefix + [last];
      BlendIs(FedImu(u, prefix, a), last, a);
    }
  }

  /** The sample that ends a calibration is smoothed like any other, with the old bias; the new bias is
      the smoothed accelerometer, this sample included. */
  lemma ImuCapture(u: ImuUnit, v: Imu, a: Alpha)
    requires u.mode.Calibrating?
    ensures var s := FilteredImu(u.smoothed, [v], u.bias, a);
            UpdateImu(u, Some(v), a) == (ImuUnit(Active, [s.ax, s.ay, s.az], s), Ok)
  {
    FilteredExtend(u.smoothed, [], v, u.bias, a);
    BlendIs(u, v, a);
    assert [] + [v] == [v];
  }

  /** The first sample after a start or restart is taken as it is, whatever the bias. */
  lemma ImuFirst(u: ImuUnit, v: Imu, a: Alpha)
    requires u.mode.Initializing?
    ensures UpdateImu(u, Some(v), a) == (ImuUnit(Active, u.bias, v), Ok)
  {
  }
}
