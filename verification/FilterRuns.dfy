/** The Q15 exponential filter over whole input sequences. */
module FilterRuns {
  import opened Arithmetic
  import opened FixedPoint

  function Run(cur: int16, raws: seq<int16>, a: Alpha): int16
    decreases raws
  {
    if raws == [] then cur else Run(EmaBlend(cur, raws[0], a), raws[1..], a)
  }

  lemma {:induction false} RunExtend(cur: int16, raws: seq<int16>, raw: int16, a: Alpha)
    ensures Run(cur, raws + [raw], a) == EmaBlend(Run(cur, raws, a), raw, a)
    decreases raws
  {
    if raws != [] {
      assert (raws + [raw])[0] == raws[0] && (raws + [raw])[1..] == raws[1..] + [raw];
      RunExtend(EmaBlend(cur, raws[0], a), raws[1..], raw, a);
    }
  }

  /** The filter that the fixed-point one approximates: exact rational arithmetic. */
  ghost function ExactRun(x: real, raws: seq<int16>, a: Alpha): real
    decreases raws
  {
    if raws == [] then x else ExactRun(ExactBlend(x, raws[0], a), raws[1..], a)
  }

  ghost function ExactBlend(x: real, raw: int16, a: Alpha): real {
    x + a as real / 32768.0 * (raw as real - x)
  }

  /** `y` is at or below `x`, by at most 32767/a. */
  ghost predicate Tracks(y: int16, x: real, a: Alpha) {
    0.0 <= x - y as real && (x - y as real) * a as real <= 32767.0
  }

  lemma BlendTracks(y: int16, x: real, raw: int16, a: Alpha)
    requires Tracks(y, x, a)
    ensures Tracks(EmaBlend(y, raw, a), ExactBlend(x, raw, a), a)
  {
    BlendMove(y, raw, a);
    var y', A := EmaBlend(y, raw, a), a as real;
    var rem := (a * (raw - y)) % 32768;
    assert a * (raw - y) == 32768 * (y' - y) + rem;
    ErrorStep(y as real, y' as real, x, raw as real, A, rem as real);
    ScaleByAlpha(x - y as real, ExactBlend(x, raw, a) - y' as real, A, rem as real);
  }

  lemma ErrorStep(y: real, y': real, x: real, raw: real, A: real, rem: real)
    requires A * (raw - y) == 32768.0 * (y' - y) + rem
    ensures var x' := x + A / 32768.0 * (raw - x);
            32768.0 * (x' - y') == 32768.0 * (x - y) - (x - y) * A + rem
  {
    assert 32768.0 * (A / 32768.0 * (raw - x)) == A * (raw - x);
    assert A * (raw - x) == A * (raw - y) - (x - y) * A;
  }

  lemma ScaleByAlpha(e: real, e': real, A: real, rem: real)
    requires 1.0 <= A <= 32767.0 && 0.0 <= rem <= 32767.0
    requires 0.0 <= e && e * A <= 32767.0
    requires 32768.0 * e' == 32768.0 * e - e * A + rem
    ensures 0.0 <= e' && e' * A <= 32767.0
  {
    var u := e * A;
    ProductNonNegative(e, 32768.0 - A);
    assert e * (32768.0 - A) == 32768.0 * e - u;
    calc {
      32768.0 * (e' * A);
      (32768.0 * e') * A;
      (32768.0 * e - u + rem) * A;
      32768.0 * u - u * A + rem * A;
    }
    ProductNonNegative(32767.0 - u, 32768.0 - A);
    assert (32767.0 - u) * (32768.0 - A) == 32767.0 * (32768.0 - A) - (32768.0 * u - u * A);
    ProductNonNegative(32767.0 - rem, A);
    assert (32767.0 - rem) * A == 32767.0 * A - rem * A;
  }

  lemma ProductNonNegative(x: real, y: real)
    requires x >= 0.0 && y >= 0.0
    ensures x * y >= 0.0
  {
  }

  /** Whole-run accuracy: started equal, the fixed-point filter never exceeds the
      exact one and never falls more than 32767/a below it. */
  lemma {:induction false} FilterTracksExact(y: int16, x: real, raws: seq<int16>, a: Alpha)
    requires Tracks(y, x, a)
    ensures Tracks(Run(y, raws, a), ExactRun(x, raws, a), a)
    decreases raws
  {
    if raws != [] {
      BlendTracks(y, x, raws[0], a);
      FilterTracksExact(EmaBlend(y, raws[0], a), ExactBlend(x, raws[0], a), raws[1..], a);
    }
  }

  lemma FilterAccuracy(start: int16, raws: seq<int16>, a: Alpha)
    ensures var gap := ExactRun(start as real, raws, a) - Run(start, raws, a) as real;
            0.0 <= gap <= 32767.0 / a as real
  {
    FilterTracksExact(start, start as real, raws, a);
    QuotientBound(ExactRun(start as real, raws, a) - Run(start, raws, a) as real, 32767.0, a as real);
  }

  lemma QuotientBound(x: real, n: real, d: real)
    requires d > 0.0 && x * d <= n
    ensures x <= n / d
  {
    var q := n / d;
    assert q * d == n;
    assert (q - x) * d >= 0.0;
  }

  // Order and contraction

  lemma BlendOrder(c1: int16, c2: int16, r1: int16, r2: int16, a: Alpha)
    requires c1 <= c2 && r1 <= r2
    ensures EmaBlend(c1, r1, a) <= EmaBlend(c2, r2, a)
    ensures EmaBlend(c2, r1, a) - EmaBlend(c1, r1, a) <= c2 - c1
  {
    BlendMove(c1, r1, a);
    BlendMove(c2, r1, a);
    BlendMove(c2, r2, a);
    UnclampedOrder(c1, c2, r1, r2, a);
    MoveOrder(a, r1 - c2, r1 - c1);
  }

  lemma UnclampedOrder(c1: int16, c2: int16, r1: int16, r2: int16, a: Alpha)
    requires c1 <= c2 && r1 <= r2
    ensures BlendUnclamped(c1, r1, a) <= BlendUnclamped(c2, r2, a)
  {
    ProductOrder(r1, r2, a);
    ProductOrder(c1, c2, Q15_ONE - a);
    FloorOrder(r1 * a + c1 * (Q15_ONE - a), r2 * a + c2 * (Q15_ONE - a));
  }

  lemma MoveOrder(a: Alpha, d1: int, d2: int)
    requires d1 <= d2
    ensures (a * d1) / Q15_ONE <= (a * d2) / Q15_ONE
  {
    ProductOrder(d1, d2, a);
    FloorOrder(a * d1, a * d2);
  }

  lemma ProductOrder(x: int, y: int, k: nat)
    requires x <= y
    ensures x * k <= y * k
  {
  }

  lemma FloorOrder(x: int, y: int)
    requires x <= y
    ensures x / Q15_ONE <= y / Q15_ONE
  {
  }

  ghost predicate PointwiseLe(s: seq<int16>, t: seq<int16>) {
    |s| == |t| && forall i :: 0 <= i < |s| ==> s[i] <= t[i]
  }

  lemma {:induction false} RunOrder(c1: int16, c2: int16, s: seq<int16>, t: seq<int16>, a: Alpha)
    requires c1 <= c2 && PointwiseLe(s, t)
    ensures Run(c1, s, a) <= Run(c2, t, a)
    decreases s
  {
    if s != [] {
      BlendOrder(c1, c2, s[0], t[0], a);
      RunOrder(EmaBlend(c1, s[0], a), EmaBlend(c2, t[0], a), s[1..], t[1..], a);
    }
  }

  /** Two filters fed the same inputs never move apart. */
  lemma {:induction false} RunContracts(c1: int16, c2: int16, raws: seq<int16>, a: Alpha)
    ensures Abs(Run(c1, raws, a) - Run(c2, raws, a)) <= Abs(c1 - c2)
    decreases raws
  {
    if raws != [] {
      if c1 <= c2 { BlendOrder(c1, c2, raws[0], raws[0], a); } else { BlendOrder(c2, c1, raws[0], raws[0], a); }
      RunContracts(EmaBlend(c1, raws[0], a), EmaBlend(c2, raws[0], a), raws[1..], a);
    }
  }

  lemma {:induction false} RunInHull(cur: int16, raws: seq<int16>, a: Alpha, lo: int16, hi: int16)
    requires lo <= cur <= hi && forall r :: r in raws ==> lo <= r <= hi
    ensures lo <= Run(cur, raws, a) <= hi
    decreases raws
  {
    if raws != [] {
      assert raws[0] in raws && forall r :: r in raws[1..] ==> r in raws;
      BlendMove(cur, raws[0], a);
      RunInHull(EmaBlend(cur, raws[0], a), raws[1..], a, lo, hi);
    }
  }

  // Constant input

  /** The input `raw`, held for `n` samples. */
  function Held(raw: int16, n: nat): seq<int16> {
    seq(n, _ => raw)
  }

  function Iterate(cur: int16, raw: int16, a: Alpha, n: nat): int16 {
    Run(cur, Held(raw, n), a)
  }

  lemma IterateFirst(cur: int16, raw: int16, a: Alpha, n: nat)
    ensures Iterate(cur, raw, a, n) == if n == 0 then cur else Iterate(EmaBlend(cur, raw, a), raw, a, n - 1)
  {
    if n > 0 {
      assert Held(raw, n)[1..] == Held(raw, n - 1);
    }
  }

  /** How far below a constant input the filter can stall. */
  function StallBand(a: Alpha): (band: nat)
    ensures band <= Q15_MAX
  {
    Q15_MAX / a
  }

  /** Where a constant input takes the filter. */
  function Limit(cur: int16, raw: int16, a: Alpha): int {
    if cur >= raw then raw else Max(cur, raw - StallBand(a))
  }

  lemma StallBandBound(a: Alpha, d: nat)
    ensures d <= StallBand(a) <==> a * d <= Q15_MAX
  {
    DivBelow(Q15_MAX, a, d);
  }

  /** The fixed points are exactly the values from `raw - StallBand(a)` to `raw`. */
  lemma FixedPoints(cur: int16, raw: int16, a: Alpha)
    ensures EmaBlend(cur, raw, a) == cur <==> raw - StallBand(a) <= cur <= raw
  {
    BlendMove(cur, raw, a);
    if cur <= raw {
      StallBandBound(a, raw - cur);
    } else {
      assert a * (raw - cur) < 0;
    }
  }

  /** One step goes toward `raw` without overshoot, strictly unless it is stalled, and
      does not change where the run is heading. */
  lemma StepTowardLimit(cur: int16, raw: int16, a: Alpha)
    ensures var next := EmaBlend(cur, raw, a);
            && Limit(next, raw, a) == Limit(cur, raw, a)
            && (next == cur || Abs(next - raw) < Abs(cur - raw))
            && (cur <= raw ==> cur <= next <= raw)
            && (cur >= raw ==> raw <= next <= cur)
  {
    BlendMove(cur, raw, a);
    FixedPoints(cur, raw, a);
    var b := StallBand(a);
    if cur < raw - b {
      // a*(b+1) is in [32768, 65536), so the point just outside the band steps by exactly one.
      StallBandBound(a, b);
      StallBandBound(a, b + 1);
      assert a * (b + 1) == a * b + a;
      BlendOrder(cur, raw - (b + 1), raw, raw, a);
      BlendMove(raw - (b + 1), raw, a);
      assert (a * (b + 1)) / Q15_ONE == 1;
      assert EmaBlend(raw - (b + 1), raw, a) == raw - b;
    }
  }

  /** Convergence: within |cur - raw| steps the filter is at its limit, and stays. */
  lemma {:induction false} ConstantInputConverges(cur: int16, raw: int16, a: Alpha, n: nat)
    requires n >= Abs(cur - raw)
    ensures Iterate(cur, raw, a, n) == Limit(cur, raw, a)
    ensures raw - StallBand(a) <= Iterate(cur, raw, a, n) <= raw
    decreases n
  {
    var next := EmaBlend(cur, raw, a);
    IterateFirst(cur, raw, a, n);
    StepTowardLimit(cur, raw, a);
    FixedPoints(cur, raw, a);
    if n > 0 {
      if next == cur {
        IterateFixed(cur, raw, a, n);
      } else {
        ConstantInputConverges(next, raw, a, n - 1);
      }
    }
  }

  lemma {:induction false} IterateFixed(cur: int16, raw: int16, a: Alpha, n: nat)
    requires EmaBlend(cur, raw, a) == cur
    ensures Iterate(cur, raw, a, n) == cur
    decreases n
  {
    IterateFirst(cur, raw, a, n);
    if n > 0 {
      IterateFixed(cur, raw, a, n - 1);
    }
  }

  // The accuracy bound is tight up to rounding

  /** The exact filter closes on a constant input at least as fast as 1/(1 + n alpha). */
  lemma {:induction false} ExactApproach(x: real, target: int16, a: Alpha, n: nat)
    requires x <= target as real
    ensures var alpha := a as real / 32768.0;
            var left := target as real - ExactRun(x, Held(target, n), a);
            0.0 <= left && left * (1.0 + n as real * alpha) <= target as real - x
    decreases n
  {
    var alpha, raws := a as real / 32768.0, Held(target, n);
    if n > 0 {
      var x' := ExactBlend(x, target, a);
      var d := target as real - x;
      assert target as real - x' == (1.0 - alpha) * d;
      ProductNonNegative(1.0 - alpha, d);
      ExactApproach(x', target, a, n - 1);
      assert raws[1..] == Held(target, n - 1);
      ApproachStep(target as real - ExactRun(x, raws, a), d, alpha, n as real - 1.0);
    }
  }

  lemma ApproachStep(left: real, d: real, alpha: real, m: real)
    requires 0.0 < alpha < 1.0 && 0.0 <= m && 0.0 <= left && 0.0 <= d
    requires left * (1.0 + m * alpha) <= (1.0 - alpha) * d
    ensures left * (1.0 + (m + 1.0) * alpha) <= d
  {
    var u := m * alpha;
    ProductNonNegative(m, alpha);
    // left * (1 + u) <= (1 - alpha) * d, so left * alpha <= alpha * (1 - alpha) * d too
    ProductNonNegative(left, u);
    assert left * (1.0 + u) == left + left * u;
    ProductNonNegative(alpha, (1.0 - alpha) * d - left);
    assert alpha * ((1.0 - alpha) * d - left) == alpha * ((1.0 - alpha) * d) - alpha * left;
    ProductNonNegative(alpha, d);
    ProductNonNegative(alpha, alpha * d);
    assert alpha * ((1.0 - alpha) * d) == alpha * d - alpha * (alpha * d);
    assert left * (1.0 + (m + 1.0) * alpha) == left + left * u + alpha * left;
    assert (1.0 - alpha) * d == d - alpha * d;
  }

  /** There are runs whose gap comes as close as you like to the whole stall band: with start 0
      and constant input `StallBand(a)` the fixed-point filter stays at 0 for ever. */
  lemma AccuracyBoundIsTight(a: Alpha, n: nat)
    ensures var band, raws := StallBand(a), Held(StallBand(a), n);
            var alpha := a as real / 32768.0;
            && Run(0, raws, a) == 0
            && ExactRun(0.0, raws, a) * (1.0 + n as real * alpha) >= band as real * (n as real * alpha)
  {
    var band: int16 := StallBand(a);
    var alpha := a as real / 32768.0;
    FixedPoints(0, band, a);
    IterateFixed(0, band, a, n);
    ExactApproach(0.0, band, a, n);
    var e, t := ExactRun(0.0, Held(band, n), a), 1.0 + n as real * alpha;
    assert (band as real - e) * t == band as real * t - e * t;
    assert band as real * t == band as real + band as real * (n as real * alpha);
  }
}
