/** Calibrating the accelerometer of a sensor that does not move. */
module ImuCalibration {
  import opened FixedPoint
  import opened Options
  import opened FilterRuns
  import opened AhrsModel

  ghost function Updated(u: ImuUnit, v: Imu, a: Alpha, n: nat): ImuUnit
    decreases n
  {
    if n == 0 then u else UpdateImu(Updated(u, v, a, n - 1), Some(v), a).0
  }

  /** Active and calibrated on the reading `v`. */
  function Still(v: Imu, smoothed: Imu): ImuUnit {
    ImuUnit(Active, [v.ax, v.ay, v.az], smoothed)
  }

  lemma BlendSame(v: int16, a: Alpha)
    ensures EmaBlend(v, v, a) == v
  {
    BlendMove(v, v, a);
  }

  /** First sample, start of calibration, next sample: the bias is the reading itself. */
  ghost function Calibrated(u: ImuUnit, v: Imu, a: Alpha): ImuUnit {
    UpdateImu(CalibrateImu(UpdateImu(u, Some(v), a).0).0, Some(v), a).0
  }

  lemma CalibrationCapturesReading(u: ImuUnit, v: Imu, a: Alpha)
    requires u.mode.Initializing? && u.bias == [0, 0, 0]
    ensures Calibrated(u, v, a) == Still(v, v)
  {
    BlendSame(v.ax, a);
    BlendSame(v.ay, a);
    BlendSame(v.az, a);
    BlendSame(v.gx, a);
    BlendSame(v.gy, a);
    BlendSame(v.gz, a);
  }

  lemma IterateSnoc(cur: int16, raw: int16, a: Alpha, n: nat)
    ensures Iterate(cur, raw, a, n + 1) == EmaBlend(Iterate(cur, raw, a, n), raw, a)
  {
    RunExtend(cur, Held(raw, n), raw, a);
    assert Held(raw, n + 1) == Held(raw, n) + [raw];
  }

  /** One update after calibration: accelerometers blend toward 0, gyros toward the reading. */
  lemma UpdateStill(v: Imu, s: Imu, a: Alpha)
    requires s.gx == v.gx && s.gy == v.gy && s.gz == v.gz
    ensures UpdateImu(Still(v, s), Some(v), a).0
         == Still(v, Imu(EmaBlend(s.ax, 0, a), EmaBlend(s.ay, 0, a), EmaBlend(s.az, 0, a), v.gx, v.gy, v.gz))
  {
    BlendSame(v.gx, a);
    BlendSame(v.gy, a);
    BlendSame(v.gz, a);
  }

  ghost function Settling(v: Imu, a: Alpha, n: nat): Imu {
    Imu(Iterate(v.ax, 0, a, n), Iterate(v.ay, 0, a, n), Iterate(v.az, 0, a, n), v.gx, v.gy, v.gz)
  }

  lemma SettlingStep(v: Imu, a: Alpha, n: nat)
    ensures var s := Settling(v, a, n);
            Settling(v, a, n + 1) == Imu(EmaBlend(s.ax, 0, a), EmaBlend(s.ay, 0, a), EmaBlend(s.az, 0, a), v.gx, v.gy, v.gz)
  {
    IterateSnoc(v.ax, 0, a, n);
    IterateSnoc(v.ay, 0, a, n);
    IterateSnoc(v.az, 0, a, n);
  }

  lemma StillSettles(v: Imu, a: Alpha, n: nat, u: ImuUnit)
    requires u == Still(v, Settling(v, a, n))
    ensures UpdateImu(u, Some(v), a).0 == Still(v, Settling(v, a, n + 1))
  {
    UpdateStill(v, Settling(v, a, n), a);
    SettlingStep(v, a, n);
  }

  lemma {:induction false} UpdatesIterate(v: Imu, a: Alpha, n: nat)
    ensures Updated(Still(v, v), v, a, n)
         == Still(v, Settling(v, a, n))
  {
    if n > 0 {
      UpdatesIterate(v, a, n - 1);
      StillSettles(v, a, n - 1, Updated(Still(v, v), v, a, n - 1));
    }
  }

  lemma AxisSettles(v: int16, a: Alpha, n: nat)
    ensures n >= Abs(v) ==> Iterate(v, 0, a, n) == Limit(v, 0, a) && 0 - StallBand(a) <= Iterate(v, 0, a, n) <= 0
  {
    if n >= Abs(v) {
      ConstantInputConverges(v, 0, a, n);
    }
  }

  /** The still sensor: once calibrated, |reading| further updates bring every smoothed
      accelerometer axis to its limit in [-floor(32767/a), 0], for good; gyros keep reading. */
  lemma StillSensor(u: ImuUnit, v: Imu, a: Alpha, n: nat)
    requires u.mode.Initializing? && u.bias == [0, 0, 0]
    ensures var s := Updated(Calibrated(u, v, a), v, a, n).smoothed;
            && (n >= Abs(v.ax) ==> s.ax == Limit(v.ax, 0, a) && 0 - StallBand(a) <= s.ax <= 0)
            && (n >= Abs(v.ay) ==> s.ay == Limit(v.ay, 0, a) && 0 - StallBand(a) <= s.ay <= 0)
            && (n >= Abs(v.az) ==> s.az == Limit(v.az, 0, a) && 0 - StallBand(a) <= s.az <= 0)
            && s.gx == v.gx && s.gy == v.gy && s.gz == v.gz
  {
    CalibrationCapturesReading(u, v, a);
    UpdatesIterate(v, a, n);
    AxisSettles(v.ax, a, n);
    AxisSettles(v.ay, a, n);
    AxisSettles(v.az, a, n);
  }
}
