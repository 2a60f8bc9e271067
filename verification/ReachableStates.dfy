/** What holds of the compass after any sequence of entry-point calls. */
module ReachableStates {
  import opened FixedPoint
  import opened Heading
  import opened Options
  import opened AhrsModel

  datatype Call =
    | InitOk
    | Update(sample: Option<Mag>, a: Alpha)
    | Calibrate(sample: Option<Mag>)
    | Reset

  function Called(c: Compass, call: Call): Compass {
    match call
    case InitOk => c.(mode := Initializing, smoothed := Mag(0, 0, 0), noted := [])
    case Update(sample, a) => UpdateCompass(c, sample, a).0
    case Calibrate(sample) => CalibrateCompass(c, sample).0
    case Reset => ResetCompass(c)
  }

  function After(c: Compass, calls: seq<Call>): Compass
    decreases |calls|
  {
    if calls == [] then c else Called(After(c, calls[..|calls| - 1]), calls[|calls| - 1])
  }

  lemma CallKeepsRange(c: Compass, call: Call)
    requires InSensorRange(c.smoothed)
    ensures InSensorRange(Called(c, call).smoothed)
  {
  }

  /** Through initialising, calibrating, failing and active phases, in any order and with any
      calibration record and any int16 samples, the smoothed field stays in the sensor's range
      and the published heading in [0, 360). */
  lemma {:induction false} SmoothedStaysInRange(c: Compass, calls: seq<Call>)
    requires InSensorRange(c.smoothed)
    ensures var m := After(c, calls).smoothed;
            InSensorRange(m) && 0.0 <= HeadingDeg(m.x, m.y) < 360.0
    decreases |calls|
  {
    if calls != [] {
      SmoothedStaysInRange(c, calls[..|calls| - 1]);
      CallKeepsRange(After(c, calls[..|calls| - 1]), calls[|calls| - 1]);
    }
    var m := After(c, calls).smoothed;
    if m.x != 0 || m.y != 0 {
      HeadingOrder(Dir(m.x, m.y), Dir(m.x, m.y));
    }
  }

  /** The correction never leaves C's int: at most 65535 * 32768 before the division. */
  lemma CorrectionFitsInt32(raw: int16, bias: int16, num: int16, den: int16)
    ensures -0x7fff_8000 <= (raw - bias) as int * num <= 0x7fff_8000
    ensures den != 0 ==> -0x7fff_8000 <= TruncDiv((raw - bias) as int * num, den) <= 0x7fff_8000
  {
    ProductBound(raw - bias, num, 0xffff, 0x8000);
    if den != 0 {
      QuotientBound((raw - bias) as int * num, den);
    }
  }
}
