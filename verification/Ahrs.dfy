/** The AHRS object of controller/src/ahrs.c and ahrs_calibration.c, updated in place. */
module Ahrs {
  import opened FixedPoint
  import opened Options
  import opened Heading
  import opened HeadingAccuracy
  import M = AhrsModel

  method NewAxes() returns (a: array<int16>)
    ensures fresh(a) && a.Length == 3 && a[..] == [0, 0, 0]
  {
    a := new int16[] [0, 0, 0];
  }

  method SetAxes(a: array<int16>, v: int16)
    requires a.Length == 3
    modifies a
    ensures a[..] == [v, v, v]
  {
    a[0], a[1], a[2] := v, v, v;
  }

  class Ahrs {
    var emaAlpha: real

    var imuState: M.Mode
    const imuBias: array<int32>
    var smoothedImu: M.Imu

    var magState: M.Mode
    const magBias: array<int16>
    const magScaleNum: array<int16>
    const magScaleDen: array<int16>
    var smoothedMag: M.Mag

    const magCalMin: array<int16>
    const magCalMax: array<int16>
    var magCalSampleCount: uint16
    var magCalHaveBounds: bool

    /** The samples noted since the last reset. */
    ghost var noted: seq<M.Mag>

    ghost function Repr(): set<object> {
      {this, imuBias, magBias, magScaleNum, magScaleDen, magCalMin, magCalMax}
    }

    /** Every buffer is separate, the running extrema and the saturating counter describe
        `noted`, and the smoothed values are in range. */
    ghost predicate Valid()
      reads Repr()
    {
      && Shape()
      && (forall i :: 0 <= i < 3 ==> -0x8000 <= imuBias[i] <= 0x7fff)
      && M.InSensorRange(smoothedMag)
      && magCalSampleCount == Min(|noted|, 0xffff)
      && (magCalHaveBounds <==> noted != [])
      && (magCalHaveBounds ==> forall i :: 0 <= i < 3 ==>
            magCalMin[i] == M.Lo(noted, i) && magCalMax[i] == M.Hi(noted, i))
    }

    ghost predicate Shape() {
      && imuBias.Length == magBias.Length == magScaleNum.Length == magScaleDen.Length == 3
      && magCalMin.Length == magCalMax.Length == 3
      && magBias != magScaleNum && magBias != magScaleDen && magBias != magCalMin && magBias != magCalMax
      && magScaleNum != magScaleDen && magScaleNum != magCalMin && magScaleNum != magCalMax
      && magScaleDen != magCalMin && magScaleDen != magCalMax
      && magCalMin != magCalMax
    }

    ghost function Compass(): M.Compass
      requires Shape()
      reads Repr()
    {
      M.Compass(magState, M.Calibration(magBias[..], magScaleNum[..], magScaleDen[..]), smoothedMag, noted)
    }

    ghost function Imu(): M.ImuUnit
      requires Valid()
      reads Repr()
    {
      M.ImuUnit(imuState, [imuBias[0], imuBias[1], imuBias[2]], smoothedImu)
    }

    /** Program start: the static initialiser, everything else zero. */
    constructor ()
      ensures Valid() && fresh(Repr())
      ensures Compass() == M.Compass(M.Initializing, M.Calibration([0, 0, 0], [0, 0, 0], [0, 0, 0]), M.Mag(0, 0, 0), [])
      ensures Imu() == M.ImuUnit(M.Initializing, [0, 0, 0], M.Imu(0, 0, 0, 0, 0, 0))
      ensures emaAlpha == 0.1
    {
      emaAlpha := 0.1;
      imuState, magState := M.Initializing, M.Initializing;
      smoothedImu, smoothedMag := M.Imu(0, 0, 0, 0, 0, 0), M.Mag(0, 0, 0);
      var bias := NewAxes();
      var num := NewAxes();
      var den := NewAxes();
      var min := NewAxes();
      var max := NewAxes();
      magBias, magScaleNum, magScaleDen, magCalMin, magCalMax := bias, num, den, min, max;
      imuBias := new int32[] [0, 0, 0];
      magCalSampleCount, magCalHaveBounds := 0, false;
      noted := [];
    }

    // Compass calibration

    /** First loop of the finish test: the spans, floored at 1, and whether all are wide. */
    method MeasureSpans(span: array<int32>) returns (ok: bool)
      requires Valid() && noted != []
      requires span.Length == 3 && span !in Repr()
      modifies span
      ensures forall j :: 0 <= j < 3 ==> span[j] == Max(M.Span(noted, j), 1)
      ensures ok <==> M.WideSpans(noted)
    {
      ok := true;
      for i := 0 to 3
        invariant forall j :: 0 <= j < i ==> span[j] == Max(M.Span(noted, j), 1)
        invariant ok <==> forall j :: 0 <= j < i ==> M.Span(noted, j) >= M.CAL_MIN_SPAN
      {
        var max: int32, min: int32 := magCalMax[i], magCalMin[i];
        span[i] := max - min;
        assert span[i] == M.Span(noted, i);
        if span[i] < M.CAL_MIN_SPAN {
          ok := false;
        }
        if span[i] < 1 {
          span[i] := 1;
        }
      }
    }

    method AverageSpan(span: array<int32>) returns (avgSpan: int32)
      requires span.Length == 3 && forall j :: 0 <= j < 3 ==> 1 <= span[j] <= 0xffff
      ensures avgSpan == (span[0] as int + span[1] + span[2]) / 3
    {
      avgSpan := 0;
      for i := 0 to 3
        invariant 0 <= avgSpan <= i * 0xffff
        invariant avgSpan == (if i > 0 then span[0] as int else 0) + (if i > 1 then span[1] else 0)
                             + (if i > 2 then span[2] else 0)
      {
        avgSpan := avgSpan + span[i];
      }
      avgSpan := avgSpan / 3;
      if avgSpan < 1 {
        assert false;  // the source's floor at 1 is never needed: every span is at least 1
      }
    }

    /** Last loop of the finish test. */
    method StoreFit(span: array<int32>, avgSpan: int32)
      requires Valid() && noted != [] && span.Length == 3 && span !in Repr()
      requires avgSpan == M.AvgSpan(noted) && forall j :: 0 <= j < 3 ==> span[j] == M.Span(noted, j)
      modifies magBias, magScaleNum, magScaleDen
      ensures M.Calibration(magBias[..], magScaleNum[..], magScaleDen[..]) == M.Fitted(noted)
    {
      ghost var fit := M.Fitted(noted);
      for i := 0 to 3
        invariant forall j :: 0 <= j < i ==>
          magBias[j] == fit.bias[j] && magScaleNum[j] == fit.num[j] && magScaleDen[j] == fit.den[j]
      {
        var min: int32, max: int32 := magCalMin[i], magCalMax[i];
        var mid := TruncDiv(min + max, 2);
        magBias[i] := WrapI16(mid);
        magScaleNum[i] := WrapI16(avgSpan);
        magScaleDen[i] := WrapI16(span[i]);
      }
      assert magBias[..] == fit.bias;
      assert magScaleNum[..] == fit.num;
      assert magScaleDen[..] == fit.den;
    }

    method MagCalTryFinish() returns (ok: bool)
      requires Valid() && noted != []
      modifies magBias, magScaleNum, magScaleDen
      ensures Valid()
      ensures ok <==> M.WideSpans(noted)
      ensures Compass() == if ok then old(Compass()).(calib := M.Fitted(noted)) else old(Compass())
      ensures Imu() == old(Imu())
    {
      var span := new int32[3];
      ok := MeasureSpans(span);
      if ok {
        var avgSpan := AverageSpan(span);
        StoreFit(span, avgSpan);
      }
    }

    /** One axis of the running extrema. */
    method NoteAxis(i: nat, v: int16)
      requires Shape() && i < 3
      modifies magCalMin, magCalMax
      ensures magCalMin[..] == old(magCalMin[..])[i := if magCalHaveBounds then Min(old(magCalMin[i]), v) else v]
      ensures magCalMax[..] == old(magCalMax[..])[i := if magCalHaveBounds then Max(old(magCalMax[i]), v) else v]
    {
      if !magCalHaveBounds {
        magCalMin[i] := v;
        magCalMax[i] := v;
      } else {
        if v < magCalMin[i] { magCalMin[i] := v; }
        if v > magCalMax[i] { magCalMax[i] := v; }
      }
    }

    method MagCalNoteSample(sample: M.Mag)
      requires Valid()
      modifies this`magCalSampleCount, this`magCalHaveBounds, this`noted, magCalMin, magCalMax
      ensures Valid()
      ensures Compass() == old(Compass()).(noted := old(noted) + [sample])
      ensures Imu() == old(Imu())
    {
      M.ExtremaExtend(noted, sample, 0);
      M.ExtremaExtend(noted, sample, 1);
      M.ExtremaExtend(noted, sample, 2);
      ghost var lo, hi := magCalMin[..], magCalMax[..];
      NoteAxis(0, sample.x);
      NoteAxis(1, sample.y);
      NoteAxis(2, sample.z);
      assert forall i :: 0 <= i < 3 ==>
        && magCalMin[..][i] == (if magCalHaveBounds then Min(lo[i], sample.Axis(i)) else sample.Axis(i))
        && magCalMax[..][i] == (if magCalHaveBounds then Max(hi[i], sample.Axis(i)) else sample.Axis(i));
      magCalHaveBounds := true;
      if magCalSampleCount < 0xffff {
        magCalSampleCount := magCalSampleCount + 1;
      }
      noted := noted + [sample];
    }

    method ResetCompassCalibration()
      requires Valid()
      modifies this`magCalSampleCount, this`magCalHaveBounds, this`noted, magBias, magScaleNum, magScaleDen
      ensures Valid()
      ensures Compass() == M.ResetCompass(old(Compass()))
      ensures Imu() == old(Imu())
    {
      magCalSampleCount := 0;
      magCalHaveBounds := false;
      noted := [];
      SetAxes(magBias, 0);
      SetAxes(magScaleNum, 1);
      SetAxes(magScaleDen, 1);
    }

    method CalibrateCompass(sample: Option<M.Mag>) returns (status: M.Status)
      requires Valid()
      modifies this`magCalSampleCount, this`magCalHaveBounds, this`noted, this`magState
      modifies magBias, magScaleNum, magScaleDen, magCalMin, magCalMax
      ensures Valid()
      ensures (Compass(), status) == M.CalibrateCompass(old(Compass()), sample)
      ensures Imu() == old(Imu())
      ensures status.Rejected? <==>
                if sample.None? then !old(magState).Active? else !old(magState).Calibrating? || |noted| >= 16000
      ensures status.Completed? <==>
                sample.Some? && old(magState).Calibrating? && 150 <= |noted| < 16000 && M.WideSpans(noted)
    {
      status := M.InProgress;
      if sample.None? {
        if magState == M.Active {
          ResetCompassCalibration();
          magState := M.Calibrating;
        } else {
          status := M.Rejected;
        }
      } else if magState != M.Calibrating {
        status := M.Rejected;
      } else {
        MagCalNoteSample(sample.value);
        if magCalSampleCount >= M.CAL_MAX_SAMPLES {
          status := M.Rejected;
        } else if magCalSampleCount >= M.CAL_MIN_SAMPLES {
          var done := MagCalTryFinish();
          if done {
            status := M.Completed;
          }
        }
      }
    }

    // IMU calibration

    method ResetImuCalibration()
      requires Valid()
      modifies imuBias
      ensures Valid()
      ensures Imu() == old(Imu()).(bias := [0, 0, 0])
      ensures Compass() == old(Compass())
    {
      imuBias[0], imuBias[1], imuBias[2] := 0, 0, 0;
    }

    method CalibrateImu() returns (status: M.Status)
      requires Valid()
      modifies this`imuState, imuBias
      ensures Valid()
      ensures (Imu(), status) == M.CalibrateImu(old(Imu()))
      ensures Compass() == old(Compass())
      ensures status.Rejected? <==> !old(imuState).Active? && !old(imuState).Calibrating?
      ensures status.Rejected? ==> Imu() == old(Imu())
    {
      if imuState == M.Active {
        imuState := M.Calibrating;
        return M.InProgress;
      }
      if imuState == M.Calibrating {
        imuBias[0] := smoothedImu.ax;
        imuBias[1] := smoothedImu.ay;
        imuBias[2] := smoothedImu.az;
        return M.Completed;
      }
      return M.Rejected;
    }

    // Entry points

    method Init() returns (result: M.Result)
      requires Valid()
      modifies this
      ensures Valid() && emaAlpha == old(emaAlpha)
      ensures result == if 0.0 < emaAlpha < 1.0 then M.Ok else M.InvalidConfig
      ensures Compass() == if result.Ok?
                then old(Compass()).(mode := M.Initializing, smoothed := M.Mag(0, 0, 0), noted := [])
                else old(Compass())
      ensures Imu() == if result.Ok?
                then old(Imu()).(mode := M.Initializing, smoothed := M.Imu(0, 0, 0, 0, 0, 0))
                else old(Imu())
    {
      result := M.Ok;
      if emaAlpha <= 0.0 || emaAlpha >= 1.0 {
        result := M.InvalidConfig;
      }
      if result == M.Ok {
        imuState, magState := M.Initializing, M.Initializing;
        smoothedImu := M.Imu(0, 0, 0, 0, 0, 0);
        smoothedMag := M.Mag(0, 0, 0);
        magCalSampleCount := 0;
        magCalHaveBounds := false;
        noted := [];
      }
    }

    method UpdateImu(value: Option<M.Imu>) returns (result: M.Result)
      requires Valid()
      modifies this`imuState, this`smoothedImu, imuBias
      ensures Valid()
      ensures (Imu(), result) == M.UpdateImu(old(Imu()), value, FloatToQ15(emaAlpha))
      ensures Compass() == old(Compass())
      ensures result == if value.None? || old(imuState).Failed? || old(imuState).Disabled? then M.UpdateFailed else M.Ok
      ensures result.UpdateFailed? ==> Imu() == old(Imu())
    {
      result := M.Ok;
      var aq := FloatToQ15(emaAlpha);
      if value.None? || imuState == M.Failed || imuState == M.Disabled {
        result := M.UpdateFailed;
      } else if imuState == M.Initializing {
        smoothedImu := value.value;
        imuState := M.Active;
      } else {
        var v, s := value.value, smoothedImu;
        var cx: int32, cy: int32, cz: int32 := v.ax - imuBias[0], v.ay - imuBias[1], v.az - imuBias[2];
        smoothedImu := M.Imu(EmaBlend(s.ax, ClampI16(cx), aq), EmaBlend(s.ay, ClampI16(cy), aq),
                             EmaBlend(s.az, ClampI16(cz), aq), EmaBlend(s.gx, v.gx, aq),
                             EmaBlend(s.gy, v.gy, aq), EmaBlend(s.gz, v.gz, aq));
        if imuState == M.Calibrating {
          var status := CalibrateImu();
          if status == M.Completed {
            imuState := M.Active;
          } else if status == M.Rejected {
            assert false;  // the source's transition to FAILED here can never be taken
          }
        }
      }
    }

    method MagCorrected(raw: M.Mag, out: array<int16>)
      requires Valid() && out.Length == 3 && out !in Repr()
      modifies out
      ensures M.Mag(out[0], out[1], out[2]) == M.Corrected(raw, Compass().calib)
    {
      var vx: int32, vy: int32, vz: int32 := raw.x - magBias[0], raw.y - magBias[1], raw.z - magBias[2];
      out[0] := M.ApplyAxisScale(vx, magScaleNum[0], magScaleDen[0]);
      out[1] := M.ApplyAxisScale(vy, magScaleNum[1], magScaleDen[1]);
      out[2] := M.ApplyAxisScale(vz, magScaleNum[2], magScaleDen[2]);
    }

    /** Correct one sample and take it as, or blend it into, the smoothed value. */
    method SmoothMagnetometer(raw: M.Mag, first: bool, aq: Alpha)
      requires Valid()
      modifies this`smoothedMag
      ensures Valid()
      ensures smoothedMag == var c := M.Corrected(raw, Compass().calib);
                             if first then c else M.BlendMag(old(smoothedMag), c, aq)
    {
      var corr := new int16[3];
      MagCorrected(raw, corr);
      if first {
        smoothedMag := M.Mag(corr[0], corr[1], corr[2]);
      } else {
        smoothedMag := M.BlendMag(smoothedMag, M.Mag(corr[0], corr[1], corr[2]), aq);
      }
    }

    method UpdateMagnetometer(sample: Option<M.Mag>) returns (result: M.Result)
      requires Valid()
      modifies this`magCalSampleCount, this`magCalHaveBounds, this`noted, this`magState, this`smoothedMag
      modifies magBias, magScaleNum, magScaleDen, magCalMin, magCalMax
      ensures Valid()
      ensures (Compass(), result) == M.UpdateCompass(old(Compass()), sample, FloatToQ15(emaAlpha))
      ensures Imu() == old(Imu())
      ensures result == if sample.None? || old(magState).Failed? || old(magState).Disabled? then M.UpdateFailed else M.Ok
      ensures result.UpdateFailed? ==> Compass() == old(Compass())
    {
      result := M.Ok;
      var aq := FloatToQ15(emaAlpha);
      if sample.None? || magState == M.Failed || magState == M.Disabled {
        result := M.UpdateFailed;
      } else if magState == M.Calibrating {
        var status := CalibrateCompass(sample);
        if status == M.Completed {
          magState := M.Active;
        } else if status == M.Rejected {
          magState := M.Failed;
        }
      } else if magState == M.Initializing {
        SmoothMagnetometer(sample.value, true, aq);
        magState := M.Active;
      } else {
        SmoothMagnetometer(sample.value, false, aq);
      }
    }

    method GetData() returns (out: M.Public)
      requires Valid()
      ensures out.imuMode == imuState && out.magMode == magState
      ensures 0.0 <= out.heading < 360.0 && out.yaw == out.heading
      ensures out.heading == if magState.Active? then HeadingDeg(smoothedMag.x, smoothedMag.y) else 0.0
      ensures magState.Active? ==> PointsOrZero(smoothedMag.x, smoothedMag.y, out.heading)
      ensures out.rotationRateX == out.rotationRateY == out.rotationRateZ == 0.0
      ensures out.pitch == if imuState.Active? then SignedDeg(smoothedImu.az, smoothedImu.ay) else 0.0
      ensures out.roll == if imuState.Active? then SignedDeg(smoothedImu.az, smoothedImu.ax) else 0.0
      ensures imuState.Active? ==> PointsOrZero(smoothedImu.az, smoothedImu.ay, out.pitch)
      ensures imuState.Active? ==> PointsOrZero(smoothedImu.az, smoothedImu.ax, out.roll)
      ensures imuState.Active? ==> Level(smoothedImu.ay, smoothedImu.az, out.pitch)
      ensures imuState.Active? ==> Level(smoothedImu.ax, smoothedImu.az, out.roll)
    {
      out := M.Public(imuState, magState, 0.0, 0.0, 0.0, 0.0, 0.0, 0.0, 0.0);
      var mx, my := smoothedMag.x, smoothedMag.y;
      if magState == M.Active && (mx != 0 || my != 0) {
        HeadingOrder(Dir(mx, my), Dir(mx, my));
        HeadingPointsToField(mx, my);
        var rad := Atan2(my as real, mx as real);
        if rad.Some? {
          var deg := NormalizeDeg(RadToDeg(rad.value));
          out := out.(heading := deg, yaw := deg);
        }
      }
      if imuState == M.Active {
        if smoothedImu.az != 0 || smoothedImu.ay != 0 {
          AtanIsSigned(smoothedImu.ay, smoothedImu.az);
          SignedPoints(smoothedImu.az, smoothedImu.ay);
          var rad := Atan2(smoothedImu.ay as real, smoothedImu.az as real);
          if rad.Some? {
            out := out.(pitch := RadToDeg(rad.value));
          }
        }
        if smoothedImu.ax != 0 || smoothedImu.az != 0 {
          AtanIsSigned(smoothedImu.ax, smoothedImu.az);
          SignedPoints(smoothedImu.az, smoothedImu.ax);
          var rad := Atan2(smoothedImu.ax as real, smoothedImu.az as real);
          if rad.Some? {
            out := out.(roll := RadToDeg(rad.value));
          }
        }
      }
    }
  }
}
