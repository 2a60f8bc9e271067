/** What a compass calibration run achieves, as a function of the samples fed to it. */
module CompassCalibration {
  import opened Arithmetic
  import opened FixedPoint
  import opened Options
  import opened AhrsModel

  /** The compass after feeding every sample through the update entry point. */
  ghost function Fed(c: Compass, samples: seq<Mag>, a: Alpha): Compass
    decreases |samples|
  {
    if samples == [] then c
    else UpdateCompass(Fed(c, samples[..|samples| - 1], a), Some(samples[|samples| - 1]), a).0
  }

  ghost function Begun(c: Compass): Compass {
    CalibrateCompass(c, None).0
  }

  /** The first `n` samples satisfy the finish test while the budget lasts. */
  ghost predicate Finishes(samples: seq<Mag>, n: nat) {
    150 <= n < 16000 && n <= |samples| && forall i :: 0 <= i < 3 ==> Hi(samples[..n], i) - Lo(samples[..n], i) >= 64
  }

  ghost predicate FirstFinish(samples: seq<Mag>, n: nat) {
    Finishes(samples, n) && forall m: nat :: m < n ==> !Finishes(samples, m)
  }

  lemma FinishesExtend(samples: seq<Mag>, s: Mag)
    ensures forall n: nat :: n <= |samples| ==> (Finishes(samples + [s], n) <==> Finishes(samples, n))
  {
    forall n: nat | n <= |samples|
      ensures Finishes(samples + [s], n) <==> Finishes(samples, n)
    {
      assert (samples + [s])[..n] == samples[..n];
    }
  }

  /** A run ends ACTIVE, with the calibration fitted to exactly the first `n` samples,
      where `n` is the first count in [150, 16000) whose samples span 64 on every axis;
      with no such `n` it is FAILED from sample 16000 on; otherwise it is still collecting. Unless
      it ends ACTIVE the record is the unit one and the smoothed field is as before it. */
  ghost predicate Outcome(r: Compass, samples: seq<Mag>, smoothed: Mag) {
    && (r.mode.Active? <==> exists n: nat :: Finishes(samples, n))
    && (r.mode.Failed? <==> |samples| >= 16000 && forall n: nat :: !Finishes(samples, n))
    && (r.mode.Calibrating? <==> |samples| < 16000 && forall n: nat :: !Finishes(samples, n))
    && (r.mode.Calibrating? ==> r.noted == samples)
    && (!r.mode.Active? ==> r.calib == Calibration([0, 0, 0], [1, 1, 1], [1, 1, 1]) && r.smoothed == smoothed)
    && (forall n: nat :: FirstFinish(samples, n) ==> r.noted == samples[..n] && r.calib == Fitted(samples[..n]))
  }

  lemma {:induction false} CompassOutcome(c: Compass, samples: seq<Mag>, a: Alpha)
    requires c.mode.Active?
    ensures Outcome(Fed(Begun(c), samples, a), samples, c.smoothed)
    decreases |samples|
  {
    if samples != [] {
      var k := |samples| - 1;
      var prefix, s := samples[..k], samples[k];
      assert samples == prefix + [s] && samples[..k + 1] == samples;
      CompassOutcome(c, prefix, a);
      FinishesExtend(prefix, s);
      OutcomeStep(Fed(Begun(c), prefix, a), prefix, s, c.smoothed, a);
    }
  }

  lemma OutcomeStep(r: Compass, prefix: seq<Mag>, s: Mag, smoothed: Mag, a: Alpha)
    requires Outcome(r, prefix, smoothed)
    ensures Outcome(UpdateCompass(r, Some(s), a).0, prefix + [s], smoothed)
  {
    var samples, r' := prefix + [s], UpdateCompass(r, Some(s), a).0;
    FinishesExtend(prefix, s);
    var n := |samples|;
    assert samples[..n] == samples;
    if m: nat :| Finishes(prefix, m) {
      FinishedStays(prefix, s, m);
      assert r'.mode.Active? && r'.noted == r.noted && r'.calib == r.calib;
    } else {
      assert forall m: nat :: Finishes(samples, m) ==> m == n;
      assert Finishes(samples, n) <==> CAL_MIN_SAMPLES <= n < CAL_MAX_SAMPLES && WideSpans(samples);
      if r.mode.Calibrating? {
        assert r'.noted == samples;
      } else {
        assert r.mode.Failed?;
      }
    }
  }

  /** Once finished, the first finish does not move. */
  lemma FinishedStays(prefix: seq<Mag>, s: Mag, m: nat)
    requires Finishes(prefix, m)
    ensures Finishes(prefix + [s], m)
    ensures forall f: nat :: FirstFinish(prefix + [s], f) ==> FirstFinish(prefix, f) && (prefix + [s])[..f] == prefix[..f]
  {
    FinishesExtend(prefix, s);
  }

  // The fit and its int16 casts

  lemma WrapExactly(v: int)
    requires 0 < v <= 0xffff
    ensures WrapI16(v) == if v <= 0x7fff then v else v - 0x1_0000
    ensures WrapI16(v) != 0
  {
  }

  lemma SpanAtMost(samples: seq<Mag>, i: nat)
    requires i < 3 && samples != []
    ensures Span(samples, i) <= 0xffff
  {
  }

  lemma AvgSpanBounds(samples: seq<Mag>)
    requires samples != [] && WideSpans(samples)
    ensures CAL_MIN_SPAN <= AvgSpan(samples) <= 0xffff
    ensures forall i :: 0 <= i < 3 ==>
              Span(samples, i) <= 3 * AvgSpan(samples) && 3 * AvgSpan(samples) <= Span(samples, i) + 0x1_fffe
  {
    SpanAtMost(samples, 0);
    SpanAtMost(samples, 1);
    SpanAtMost(samples, 2);
    assert Span(samples, 0) >= CAL_MIN_SPAN && Span(samples, 1) >= CAL_MIN_SPAN && Span(samples, 2) >= CAL_MIN_SPAN;
  }

  lemma FitParts(samples: seq<Mag>, i: nat)
    requires i < 3 && samples != []
    ensures var cal := Fitted(samples);
            && cal.bias[i] == WrapI16(TruncDiv(Lo(samples, i) as int + Hi(samples, i), 2))
            && cal.num[i] == WrapI16(AvgSpan(samples)) && cal.den[i] == WrapI16(Span(samples, i))
  {
  }

  lemma MiddleFitsInt16(lo: int16, hi: int16)
    ensures WrapI16(TruncDiv(lo as int + hi, 2)) == TruncDiv(lo as int + hi, 2)
  {
  }

  lemma FitValues(samples: seq<Mag>, i: nat)
    requires i < 3 && samples != [] && WideSpans(samples)
    ensures var cal, avg, d := Fitted(samples), AvgSpan(samples), Span(samples, i);
            && cal.bias[i] == TruncDiv(Lo(samples, i) as int + Hi(samples, i), 2)
            && cal.num[i] == (if avg <= 0x7fff then avg else avg - 0x1_0000) && cal.num[i] != 0
            && cal.den[i] == (if d <= 0x7fff then d else d - 0x1_0000) && cal.den[i] != 0
  {
    FitParts(samples, i);
    MiddleFitsInt16(Lo(samples, i), Hi(samples, i));
    AvgSpanBounds(samples);
    SpanAtMost(samples, i);
    assert Span(samples, i) >= CAL_MIN_SPAN;
    WrapExactly(AvgSpan(samples));
    WrapExactly(Span(samples, i));
  }

  /** For any int16 samples: the bias is always the exact middle; the scale's numerator and
      denominator are the mean span and the span exactly when those fit int16, and otherwise turn
      negative. */
  lemma FitIsExact(samples: seq<Mag>, i: nat)
    requires i < 3 && samples != [] && WideSpans(samples)
    ensures var cal := Fitted(samples);
            var avg := (Hi(samples, 0) as int - Lo(samples, 0) + Hi(samples, 1) - Lo(samples, 1)
                        + Hi(samples, 2) - Lo(samples, 2)) / 3;
            var d := Hi(samples, i) as int - Lo(samples, i);
            && cal.bias[i] == TruncDiv(Lo(samples, i) as int + Hi(samples, i), 2)
            && cal.num[i] == (if avg <= 0x7fff then avg else avg - 0x1_0000) && cal.num[i] != 0
            && cal.den[i] == (if d <= 0x7fff then d else d - 0x1_0000) && cal.den[i] != 0
  {
    FitValues(samples, i);
  }

  // Scaling

  lemma TruncDivOrder(x: int, y: int, d: int)
    requires d > 0 && x <= y
    ensures TruncDiv(x, d) <= TruncDiv(y, d)
  {
    if x >= 0 {
      DivOrder(x, y, d);
    } else if y < 0 {
      DivOrder(-y, -x, d);
    } else {
      DivBelow(y, d, 0);
      DivBelow(-x, d, 0);
    }
  }

  /** A reading is at most (d+1)/2 from the middle of the recorded extremes, and one of them is
      exactly that far. */
  lemma MiddleFacts(lo: int, hi: int, v: int)
    requires lo <= v <= hi
    ensures var mid, k := TruncDiv(lo + hi, 2), (hi - lo + 1) / 2;
            lo <= mid <= hi && Abs(v - mid) <= k && (Abs(lo - mid) == k || Abs(hi - mid) == k)
  {
  }

  lemma TruncDivOfProduct(x: int, num: nat, den: nat)
    requires den > 0
    ensures TruncDiv(x * num, den) == if x >= 0 then (Abs(x) * num) / den else -((Abs(x) * num) / den)
  {
    if x >= 0 {
      assert x * num >= 0;
    } else {
      assert -(x * num) == Abs(x) * num >= 0;
      if x * num == 0 {
        assert Abs(x) * num == 0;
      }
    }
  }

  lemma ScaledIs(x: int32, num: int16, den: int16)
    requires -0xffff <= x <= 0xffff && den != 0
    ensures ScaledAxis(x, num, den) == TruncDiv(x * num, den)
  {
  }

  /** The scaled reading `x` away from the middle stays in the sensor range exactly while
      |x| * num / den is below 4096. */
  lemma ScaledInRangeExactly(x: int32, num: int16, den: int16)
    requires -0xffff <= x <= 0xffff && num > 0 && den > 0
    ensures ScaledAxis(x, num, den) == TruncDiv(x * num, den)
    ensures -MAG_MEAS_MAX <= ScaledAxis(x, num, den) <= MAG_MEAS_MAX <==> Abs(x) * num < 4096 * den
  {
    ScaledIs(x, num, den);
    TruncDivOfProduct(x, num, den);
    DivBelow(Abs(x) * num, den, 4096);
    DivBelow(Abs(x) * num, den, 0);
  }

  // What a good calibration is

  /** Corrected extremes: `avg` or one less apart. */
  ghost predicate SpanEqualised(cal: Calibration, samples: seq<Mag>, i: nat)
    requires i < 3 && samples != []
  {
    var span := CorrectedAxis(Hi(samples, i), cal, i) - CorrectedAxis(Lo(samples, i), cal, i);
    span == AvgSpan(samples) || span == AvgSpan(samples) - 1
  }

  lemma ExtremesScaled(lo: int, hi: int, avg: nat)
    requires lo < hi
    ensures var mid, d := TruncDiv(lo + hi, 2), hi - lo;
            avg - 1 <= TruncDiv((hi - mid) * avg, d) - TruncDiv((lo - mid) * avg, d) <= avg
  {
    var mid := TruncDiv(lo + hi, 2);
    MiddleFacts(lo, hi, lo);
    TruncDivOfProduct(hi - mid, avg, hi - lo);
    TruncDivOfProduct(lo - mid, avg, hi - lo);
    FloorsOfParts(hi - mid, mid - lo, avg);
    DivBelow(0, hi - lo, 1);
  }

  lemma ScaleOrder(x: int32, y: int32, num: int16, den: int16)
    requires -0xffff <= x <= y <= 0xffff && num > 0 && den > 0
    ensures ApplyAxisScale(x, num, den) <= ApplyAxisScale(y, num, den)
  {
    MulCancel(x, y, num);
    TruncDivOrder(x * num, y * num, den);
    ScaledIs(x, num, den);
    ScaledIs(y, num, den);
  }

  ghost predicate OrderPreserving(cal: Calibration, i: nat)
    requires i < 3
  {
    forall v: int16, w: int16 :: v <= w ==> CorrectedAxis(v, cal, i) <= CorrectedAxis(w, cal, i)
  }

  ghost predicate ClampIdle(cal: Calibration, samples: seq<Mag>, i: nat)
    requires i < 3
  {
    forall s :: s in samples ==>
      CorrectedAxis(s.Axis(i), cal, i) == ScaledAxis(s.Axis(i) - cal.bias[i], cal.num[i], cal.den[i])
  }

  ghost predicate Equalised(cal: Calibration, samples: seq<Mag>)
    requires samples != []
  {
    forall i :: 0 <= i < 3 ==>
      SpanEqualised(cal, samples, i) && OrderPreserving(cal, i) && ClampIdle(cal, samples, i)
  }

  // Exactly when the fit is one

  /** Span and mean span fit int16, and half the span, scaled, stays in the sensor range. */
  ghost predicate AxisFits(samples: seq<Mag>, i: nat)
    requires i < 3 && samples != []
  {
    && AvgSpan(samples) <= 0x7fff && Span(samples, i) <= 0x7fff
    && ((Span(samples, i) + 1) / 2) * AvgSpan(samples) < 4096 * Span(samples, i)
  }

  lemma SampleUnclamped(samples: seq<Mag>, i: nat, s: Mag)
    requires i < 3 && s in samples && WideSpans(samples) && AxisFits(samples, i)
    ensures var cal, v := Fitted(samples), s.Axis(i);
            CorrectedAxis(v, cal, i) == ScaledAxis(v - cal.bias[i], cal.num[i], cal.den[i])
  {
    Extrema(samples, i);
    ReadingUnclamped(samples, i, s.Axis(i));
  }

  lemma ScaledOutOfRange(x: int32, num: int16, den: int16)
    requires -0xffff <= x <= 0xffff && num > 0 && den > 0 && Abs(x) * num >= 4096 * den
    ensures ApplyAxisScale(x, num, den) != ScaledAxis(x, num, den)
  {
    ScaledInRangeExactly(x, num, den);
  }

  /** The extreme furthest from the middle is clamped when half a span would be. */
  lemma ExtremeClamped(samples: seq<Mag>, i: nat) returns (e: int16)
    requires i < 3 && samples != [] && WideSpans(samples) && !AxisFits(samples, i)
    requires AvgSpan(samples) <= 0x7fff && Span(samples, i) <= 0x7fff
    ensures e == Lo(samples, i) || e == Hi(samples, i)
    ensures var cal := Fitted(samples);
            CorrectedAxis(e, cal, i) != ScaledAxis(e - cal.bias[i], cal.num[i], cal.den[i])
  {
    LoLeHi(samples, i);
    var lo, hi := Lo(samples, i), Hi(samples, i);
    MiddleFacts(lo, hi, lo);
    e := if Abs(lo - TruncDiv(lo as int + hi, 2)) == (Span(samples, i) + 1) / 2 then lo else hi;
    FitValues(samples, i);
    var cal := Fitted(samples);
    FarOutClamped(e, cal, i, (Span(samples, i) + 1) / 2);
  }

  lemma FarOutClamped(e: int16, cal: Calibration, i: nat, k: nat)
    requires i < 3 && cal.num[i] > 0 && cal.den[i] > 0
    requires Abs(e as int - cal.bias[i]) == k && k * (cal.num[i] as int) >= 4096 * (cal.den[i] as int)
    ensures CorrectedAxis(e, cal, i) != ScaledAxis(e as int - cal.bias[i], cal.num[i], cal.den[i])
  {
    ScaledOutOfRange(e as int - cal.bias[i], cal.num[i], cal.den[i]);
  }

  /** Without a wrap, the clamp changes no sample if and only if it would not change one half span
      away from the middle. */
  lemma ClampIdleExactly(samples: seq<Mag>, i: nat)
    requires i < 3 && samples != [] && WideSpans(samples)
    requires AvgSpan(samples) <= 0x7fff && Span(samples, i) <= 0x7fff
    ensures ClampIdle(Fitted(samples), samples, i) <==> AxisFits(samples, i)
  {
    if AxisFits(samples, i) {
      AllUnclamped(samples, i);
    } else {
      var e := ExtremeClamped(samples, i);
      Extrema(samples, i);
      var s :| s in samples && s.Axis(i) == e;
    }
  }

  lemma AllUnclamped(samples: seq<Mag>, i: nat)
    requires i < 3 && samples != [] && WideSpans(samples) && AxisFits(samples, i)
    ensures ClampIdle(Fitted(samples), samples, i)
  {
    forall s | s in samples
      ensures var cal, v := Fitted(samples), s.Axis(i);
              CorrectedAxis(v, cal, i) == ScaledAxis(v - cal.bias[i], cal.num[i], cal.den[i])
    {
      SampleUnclamped(samples, i, s);
    }
  }

  lemma ScaledWithin(x: int32, num: int16, den: int16, k: nat)
    requires -0xffff <= x <= 0xffff && num > 0 && den > 0 && Abs(x) <= k && k * num < 4096 * den
    ensures ApplyAxisScale(x, num, den) == ScaledAxis(x, num, den) == TruncDiv(x * num, den)
  {
    MulLe(Abs(x), k, num, num);
    ScaledInRangeExactly(x, num, den);
  }

  lemma ReadingUnclamped(samples: seq<Mag>, i: nat, v: int16)
    requires i < 3 && samples != [] && WideSpans(samples) && AxisFits(samples, i)
    requires Lo(samples, i) <= v <= Hi(samples, i)
    ensures var cal := Fitted(samples);
            var x, num, den := v - cal.bias[i], cal.num[i], cal.den[i];
            den != 0 && CorrectedAxis(v, cal, i) == ScaledAxis(x, num, den) == TruncDiv(x * num, den)
  {
    FitValues(samples, i);
    MiddleFacts(Lo(samples, i), Hi(samples, i), v);
    AvgSpanBounds(samples);
    assert Span(samples, i) >= CAL_MIN_SPAN;
    var cal := Fitted(samples);
    ScaledWithin(v - cal.bias[i], cal.num[i], cal.den[i], (Span(samples, i) + 1) / 2);
  }

  /** The same of the scale's own fields. */
  lemma ExtremesCorrected(lo: int16, hi: int16, bias: int16, num: int16, den: int16)
    requires lo < hi && bias == TruncDiv(lo as int + hi, 2) && num >= 0 && den == hi as int - lo
    ensures num - 1 <= TruncDiv((hi - bias) as int * num, den) - TruncDiv((lo - bias) as int * num, den) <= num as int
  {
    ExtremesScaled(lo, hi, num);
  }

  lemma AxisEqualised(samples: seq<Mag>, i: nat)
    requires i < 3 && samples != [] && WideSpans(samples) && AxisFits(samples, i)
    ensures SpanEqualised(Fitted(samples), samples, i)
  {
    var lo, hi, cal := Lo(samples, i), Hi(samples, i), Fitted(samples);
    LoLeHi(samples, i);
    FitValues(samples, i);
    assert Span(samples, i) >= CAL_MIN_SPAN;
    ExtremesCorrected(lo, hi, cal.bias[i], cal.num[i], cal.den[i]);
    ReadingUnclamped(samples, i, lo);
    ReadingUnclamped(samples, i, hi);
  }

  lemma TruncDivNegated(n: int, d: int)
    requires d != 0
    ensures TruncDiv(n, d) == TruncDiv(-n, -d)
  {
  }

  lemma ScaleOrderNegative(x: int32, y: int32, num: int16, den: int16)
    requires -0xffff <= x <= y <= 0xffff && num < 0 && den < 0
    ensures ApplyAxisScale(x, num, den) <= ApplyAxisScale(y, num, den)
  {
    MulCancel(x, y, 0 - num);
    assert x * (0 - num) == -(x * num) && y * (0 - num) == -(y * num);
    TruncDivOrder(-(x * num), -(y * num), 0 - den);
    TruncDivNegated(x * num, den);
    TruncDivNegated(y * num, den);
    ScaledIs(x, num, den);
    ScaledIs(y, num, den);
  }

  /** A scale with a negative sign moves a reading four counts off the middle to the other side. */
  lemma ScaleReverses(num: int16, den: int16)
    requires (num < 0 < den || den < 0 < num) && Abs(den) <= 4 * Abs(num)
    ensures ApplyAxisScale(0, num, den) == 0
    ensures ApplyAxisScale(4, num, den) < 0 < ApplyAxisScale(-4, num, den)
  {
    ScaledIs(0, num, den);
    ScaledIs(4, num, den);
    ScaledIs(-4, num, den);
    DivBelow(4 * Abs(num), Abs(den), 1);
  }

  ghost predicate SameWrap(samples: seq<Mag>, i: nat)
    requires i < 3 && samples != []
  {
    AvgSpan(samples) <= 0x7fff <==> Span(samples, i) <= 0x7fff
  }

  /** Numerator and denominator of one sign: the correction keeps order. */
  lemma SameSignOrders(cal: Calibration, i: nat, v: int16, w: int16)
    requires i < 3 && v <= w
    requires (cal.num[i] > 0 && cal.den[i] > 0) || (cal.num[i] < 0 && cal.den[i] < 0)
    ensures CorrectedAxis(v, cal, i) <= CorrectedAxis(w, cal, i)
  {
    var x, y, num, den := v - cal.bias[i], w - cal.bias[i], cal.num[i], cal.den[i];
    if num > 0 { ScaleOrder(x, y, num, den); } else { ScaleOrderNegative(x, y, num, den); }
  }

  /** Of opposite signs: it does not. */
  lemma OppositeSignReverses(cal: Calibration, i: nat)
    requires i < 3 && Abs(cal.den[i]) <= 4 * Abs(cal.num[i])
    requires cal.num[i] < 0 < cal.den[i] || cal.den[i] < 0 < cal.num[i]
    ensures !OrderPreserving(cal, i)
  {
    var bias := cal.bias[i];
    ScaleReverses(cal.num[i], cal.den[i]);
    if bias <= 0 {
      assert CorrectedAxis(bias, cal, i) > CorrectedAxis(bias + 4, cal, i);
    } else {
      assert CorrectedAxis(bias - 4, cal, i) > CorrectedAxis(bias, cal, i);
    }
  }

  lemma FitSigns(samples: seq<Mag>, i: nat)
    requires i < 3 && samples != [] && WideSpans(samples)
    ensures var num, den := Fitted(samples).num[i], Fitted(samples).den[i];
            && (SameWrap(samples, i) <==> (num > 0 && den > 0) || (num < 0 && den < 0))
            && (!SameWrap(samples, i) ==> (num < 0 < den || den < 0 < num) && Abs(den) <= 4 * Abs(num))
  {
    FitValues(samples, i);
    AvgSpanBounds(samples);
    SpanAtMost(samples, i);
    assert Span(samples, i) >= CAL_MIN_SPAN;
  }

  /** For any int16 samples the fitted correction of an axis preserves order if and only if the
      axis's span and the mean span both fit int16 or both do not. */
  lemma OrderExactly(samples: seq<Mag>, i: nat)
    requires i < 3 && samples != [] && WideSpans(samples)
    ensures OrderPreserving(Fitted(samples), i) <==> SameWrap(samples, i)
  {
    FitSigns(samples, i);
    var cal := Fitted(samples);
    if SameWrap(samples, i) {
      forall v: int16, w: int16 | v <= w
        ensures CorrectedAxis(v, cal, i) <= CorrectedAxis(w, cal, i)
      {
        SameSignOrders(cal, i, v, w);
      }
    } else {
      OppositeSignReverses(cal, i);
    }
  }

  ghost predicate AllFit(samples: seq<Mag>)
    requires samples != []
  {
    forall i :: 0 <= i < 3 ==> AxisFits(samples, i)
  }

  lemma AxisGoodExactly(samples: seq<Mag>, i: nat)
    requires i < 3 && samples != [] && WideSpans(samples)
    ensures AxisFits(samples, i) <==>
            var cal := Fitted(samples);
            SpanEqualised(cal, samples, i) && OrderPreserving(cal, i) && ClampIdle(cal, samples, i)
  {
    OrderExactly(samples, i);
    if AxisFits(samples, i) {
      AxisEqualised(samples, i);
    }
    if AvgSpan(samples) <= 0x7fff && Span(samples, i) <= 0x7fff {
      ClampIdleExactly(samples, i);
    }
  }

  lemma EqualisedExactly(samples: seq<Mag>)
    requires samples != [] && WideSpans(samples)
    ensures Equalised(Fitted(samples), samples) <==> AllFit(samples)
  {
    forall i | 0 <= i < 3
      ensures AxisFits(samples, i) <==>
              var cal := Fitted(samples);
              SpanEqualised(cal, samples, i) && OrderPreserving(cal, i) && ClampIdle(cal, samples, i)
    {
      AxisGoodExactly(samples, i);
    }
  }

  // Completed runs

  /** For any int16 samples: a completed calibration equalises (corrected extremes of all three axes
      span the mean span or one less, correction preserves order, and the clamp changes no sample of
      the run) if and only if every axis fits, a condition on the three spans alone. */
  lemma CalibrationEqualisesExactly(c: Compass, samples: seq<Mag>, a: Alpha, n: nat)
    requires c.mode.Active? && FirstFinish(samples, n)
    ensures var r := Fed(Begun(c), samples, a);
            r.mode.Active? && (Equalised(r.calib, samples[..n]) <==> AllFit(samples[..n]))
  {
    CompassOutcome(c, samples, a);
    EqualisedExactly(samples[..n]);
  }

  /** And each axis keeps the order of readings if and only if its span and the mean span fit int16
      both or neither. */
  lemma CalibrationOrderExactly(c: Compass, samples: seq<Mag>, a: Alpha, n: nat, i: nat)
    requires c.mode.Active? && FirstFinish(samples, n) && i < 3
    ensures var r := Fed(Begun(c), samples, a);
            r.mode.Active? && (OrderPreserving(r.calib, i) <==> SameWrap(samples[..n], i))
  {
    CompassOutcome(c, samples, a);
    OrderExactly(samples[..n], i);
  }

  /** Spans that the sensor's range of +/-4095 allows, whatever the constant offset. */
  ghost predicate SpansInRange(samples: seq<Mag>)
    requires samples != []
  {
    forall i :: 0 <= i < 3 ==> Span(samples, i) <= 2 * MAG_MEAS_MAX
  }

  lemma SensorRangeSpans(samples: seq<Mag>)
    requires samples != [] && forall s :: s in samples ==> InSensorRange(s)
    ensures SpansInRange(samples)
  {
    Extrema(samples, 0);
    Extrema(samples, 1);
    Extrema(samples, 2);
  }

  lemma HalfSpanTimesCap(d: nat)
    requires CAL_MIN_SPAN <= d <= 2 * MAG_MEAS_MAX
    ensures (d + d % 2) * (d + 4 * MAG_MEAS_MAX) < 6 * (4096 * d)
  {
    if d % 2 == 0 {
      MulCancel(d + 4 * MAG_MEAS_MAX, 6 * 4096, d);
    } else {
      MulLe(0, d - 2, 0, 8193 - d);
      assert (d - 2) * (8193 - d) == 8195 * d - d * d - 16386;
      assert (d + 1) * (d + 16380) == d * d + 16381 * d + 16380;
    }
  }

  lemma HalfSpanScaled(d: nat, avg: nat)
    requires CAL_MIN_SPAN <= d <= 2 * MAG_MEAS_MAX && 3 * avg <= d + 4 * MAG_MEAS_MAX
    ensures ((d + 1) / 2) * avg < 4096 * d
  {
    var k, cap := (d + 1) / 2, d + 4 * MAG_MEAS_MAX;
    assert 2 * k == d + d % 2;
    MulLe(2 * k, 2 * k, 3 * avg, cap);
    assert 6 * (k * avg) == (2 * k) * (3 * avg);
    HalfSpanTimesCap(d);
  }

  lemma AxisRangeFits(samples: seq<Mag>, i: nat)
    requires i < 3 && samples != [] && WideSpans(samples) && SpansInRange(samples)
    ensures AxisFits(samples, i)
  {
    var x, y, z := Span(samples, 0), Span(samples, 1), Span(samples, 2);
    assert CAL_MIN_SPAN <= x <= 2 * MAG_MEAS_MAX && CAL_MIN_SPAN <= y <= 2 * MAG_MEAS_MAX;
    assert CAL_MIN_SPAN <= z <= 2 * MAG_MEAS_MAX;
    assert AvgSpan(samples) == (x + y + z) / 3;
    HalfSpanScaled(Span(samples, i), AvgSpan(samples));
  }

  lemma RangeFits(samples: seq<Mag>)
    requires samples != [] && WideSpans(samples) && SpansInRange(samples)
    ensures AllFit(samples)
  {
    forall i | 0 <= i < 3
      ensures AxisFits(samples, i)
    {
      AxisRangeFits(samples, i);
    }
  }

  /** The point of the calibration: every run that completes within the sensor's spans equalises. */
  lemma CalibrationEqualises(c: Compass, samples: seq<Mag>, a: Alpha, n: nat)
    requires c.mode.Active?
    requires FirstFinish(samples, n) && SpansInRange(samples[..n])
    ensures var r := Fed(Begun(c), samples, a);
            r.mode.Active? && Equalised(r.calib, samples[..n])
  {
    CalibrationEqualisesExactly(c, samples, a, n);
    RangeFits(samples[..n]);
  }

  // Runs beyond the sensor's spans

  /** A sensor that rests at `lo` for 149 samples and then reads `hi`. */
  function Swing(lo: Mag, hi: Mag): seq<Mag> {
    seq(149, _ => lo) + [hi]
  }

  lemma SwingSpan(lo: Mag, hi: Mag, i: nat)
    requires i < 3 && lo.Axis(i) <= hi.Axis(i)
    ensures Span(Swing(lo, hi), i) == hi.Axis(i) as int - lo.Axis(i)
  {
    Extrema(seq(149, _ => lo), i);
    ExtremaExtend(seq(149, _ => lo), hi, i);
  }

  lemma SwingFinishes(lo: Mag, hi: Mag)
    requires forall i :: 0 <= i < 3 ==> hi.Axis(i) as int - lo.Axis(i) >= CAL_MIN_SPAN
    ensures FirstFinish(Swing(lo, hi), 150) && Swing(lo, hi)[..150] == Swing(lo, hi)
  {
    assert Swing(lo, hi)[..150] == Swing(lo, hi);
    forall i | 0 <= i < 3
      ensures Hi(Swing(lo, hi), i) - Lo(Swing(lo, hi), i) >= 64
    {
      SwingSpan(lo, hi, i);
    }
    assert Finishes(Swing(lo, hi), 150);
    forall m: nat | m < 150
      ensures !Finishes(Swing(lo, hi), m)
    {
    }
  }

  /** A run of 150 samples that completes and turns the x axis round: its span of 40000 wraps. */
  lemma OutOfRangeReversal(c: Compass, a: Alpha)
    requires c.mode.Active?
    ensures var r := Fed(Begun(c), Swing(Mag(-20000, 0, 0), Mag(20000, 64, 64)), a);
            r.mode.Active? && !OrderPreserving(r.calib, 0)
  {
    var lo, hi := Mag(-20000, 0, 0), Mag(20000, 64, 64);
    SwingFinishes(lo, hi);
    SwingSpan(lo, hi, 0);
    SwingSpan(lo, hi, 1);
    SwingSpan(lo, hi, 2);
    CalibrationOrderExactly(c, Swing(lo, hi), a, 150, 0);
  }

  lemma WideSwing(i: nat)
    requires i < 3
    ensures var samples := Swing(Mag(-5000, -5000, -5000), Mag(5000, 5000, 5000));
            Span(samples, i) == 10000 && AvgSpan(samples) == 10000
  {
    var lo, hi := Mag(-5000, -5000, -5000), Mag(5000, 5000, 5000);
    SwingSpan(lo, hi, 0);
    SwingSpan(lo, hi, 1);
    SwingSpan(lo, hi, 2);
  }

  /** A run that completes, keeps the order, and has its extremes clamped: spans of 10000. */
  lemma OutOfRangeClamp(c: Compass, a: Alpha, samples: seq<Mag>, i: nat)
    requires c.mode.Active? && i < 3
    requires samples == Swing(Mag(-5000, -5000, -5000), Mag(5000, 5000, 5000))
    ensures var r := Fed(Begun(c), samples, a);
            r.mode.Active? && OrderPreserving(r.calib, i) && !ClampIdle(r.calib, samples, i)
  {
    SwingFinishes(Mag(-5000, -5000, -5000), Mag(5000, 5000, 5000));
    WideSwing(i);
    CalibrationOrderExactly(c, samples, a, 150, i);
    CompassOutcome(c, samples, a);
    ClampIdleExactly(samples, i);
  }
}
