/** Compass heading: the polynomial atan2 of controller/src/utils.c over the reals,
    and the heading that controller/src/ahrs.c publishes from it. */
module Heading {
  import opened FixedPoint
  import opened Options

  const PI := 3.14159265358979323846
  const PI_4 := 0.7853981633974483
  const PI_3_4 := 2.356194490192345
  const ATAN2_A := 0.1963
  const ATAN2_B := 0.9817
  const DEG_PER_CIRCLE := 360.0

  function RadToDeg(rad: real): real {
    rad * (180.0 / PI)
  }

  function NormalizeDeg(deg: real): (r: real)
    ensures -360.0 <= deg < 720.0 ==> 0.0 <= r < 360.0
    ensures r == deg || r == deg + 360.0 || r == deg - 360.0
  {
    var up := if deg < 0.0 then deg + DEG_PER_CIRCLE else deg;
    if up >= DEG_PER_CIRCLE then up - DEG_PER_CIRCLE else up
  }

  /** The range on which the single correction step normalises, exactly. */
  lemma NormalizesExactly(deg: real)
    ensures 0.0 <= NormalizeDeg(deg) < 360.0 <==> -360.0 <= deg < 720.0
  {
  }

  function AbsReal(v: real): real {
    if v < 0.0 then -v else v
  }

  function Cubic(ratio: real): real {
    (ATAN2_A * ratio * ratio - ATAN2_B) * ratio
  }

  /** `None` is the domain-error NaN. */
  function Atan2(y: real, x: real): Option<real> {
    if x == 0.0 && y == 0.0 then None
    else
      var absY := AbsReal(y);
      var angle :=
        if x >= 0.0 then PI_4 + Cubic((x - absY) / (x + absY))
        else PI_3_4 + Cubic((x + absY) / (absY - x));
      Some(if y < 0.0 then -angle else angle)
  }

  /** The published heading in degrees; 0 when the horizontal field is zero. */
  function HeadingDeg(mx: int16, my: int16): real {
    match Atan2(my as real, mx as real)
    case None => 0.0
    case Some(rad) => NormalizeDeg(RadToDeg(rad))
  }

  // Directions, ordered counterclockwise from just past +x round to +x itself

  datatype Dir = Dir(x: int16, y: int16)

  ghost predicate NonZero(p: Dir) {
    p.x != 0 || p.y != 0
  }

  ghost function Sector(p: Dir): nat {
    if p.y > 0 then 0 else if p.y == 0 && p.x < 0 then 1 else if p.y < 0 then 2 else 3
  }

  ghost function Cross(p: Dir, q: Dir): int {
    p.x * q.y - p.y * q.x
  }

  ghost predicate Before(p: Dir, q: Dir) {
    Sector(p) < Sector(q) || (Sector(p) == Sector(q) && Cross(p, q) > 0)
  }

  ghost predicate SameDirection(p: Dir, q: Dir) {
    Sector(p) == Sector(q) && Cross(p, q) == 0
  }

  // The cubic and the ratio, on the closed upper half plane

  const SLOPE := ATAN2_B - 3.0 * ATAN2_A

  /** The cubic falls with slope at least SLOPE on [-1, 1]. */
  lemma CubicFalls(r: real, s: real)
    requires -1.0 <= r <= s <= 1.0
    ensures Cubic(r) - Cubic(s) >= SLOPE * (s - r)
  {
    var q := r * r + r * s + s * s;
    SquareLeOne(r);
    SquareLeOne(s);
    assert r * s <= 1.0 by {
      assert (r - s) * (r - s) >= 0.0;
      assert (r - s) * (r - s) == r * r - 2.0 * (r * s) + s * s;
    }
    assert q <= 3.0;
    var d := s - r;
    calc {
      Cubic(r) - Cubic(s);
      ATAN2_A * (r * r * r - s * s * s) + ATAN2_B * d;
      { assert r * r * r - s * s * s == -(d * q); }
      d * (ATAN2_B - ATAN2_A * q);
    }
    assert d * (ATAN2_B - ATAN2_A * q) >= d * SLOPE;
  }

  lemma SquareLeOne(r: real)
    requires -1.0 <= r <= 1.0
    ensures 0.0 <= r * r <= 1.0
  {
    if r >= 0.0 {
      assert r * r <= r;
    } else {
      assert r * r == (-r) * (-r) <= -r;
    }
  }

  ghost function Ratio(x: int, y: nat): real
    requires x != 0 || y != 0
  {
    if x >= 0 then (x - y) as real / (x + y) as real else (x + y) as real / (y - x) as real
  }

  ghost function UpperAngle(x: int, y: nat): real
    requires x != 0 || y != 0
  {
    (if x >= 0 then PI_4 else PI_3_4) + Cubic(Ratio(x, y))
  }

  ghost predicate OnGrid(x: int, y: nat) {
    -0x8000 <= x <= 0x8000 && y <= 0x8000
  }

  /** Comparing quotients by cross-multiplication. */
  lemma QuotientOrder(a: int, b: int, c: int, d: int)
    requires b > 0 && d > 0
    ensures a * d <= c * b ==> a as real / b as real <= c as real / d as real
    ensures a * d < c * b ==> a as real / b as real < c as real / d as real
  {
    var u, v := a as real / b as real, c as real / d as real;
    var bd := b as real * d as real;
    assert bd > 0.0;
    assert u * b as real == a as real && v * d as real == c as real;
    assert u * bd == (a * d) as real;
    assert v * bd == (c * b) as real;
    if u > v { assert u * bd > v * bd; }
    if u == v { assert u * bd == v * bd; }
  }

  lemma QuotientIs(a: int, b: int, c: int)
    requires b != 0 && a == b * c
    ensures a as real / b as real == c as real
  {
    assert a as real == b as real * c as real;
  }

  lemma ProductSigns(x: int, y: int)
    ensures x >= 0 && y >= 0 ==> x * y >= 0
    ensures x > 0 && y > 0 ==> x * y > 0
    ensures x < 0 && y > 0 ==> x * y < 0
    ensures x < 0 && y < 0 ==> x * y > 0
    ensures x > 0 && y < 0 ==> x * y < 0
    ensures x == 0 || y == 0 ==> x * y == 0
  {
  }

  lemma RatioRange(x: int, y: nat)
    requires x != 0 || y != 0
    ensures -1.0 <= Ratio(x, y) <= 1.0
  {
    var den := if x >= 0 then x + y else y - x;
    var num := if x >= 0 then x - y else x + y;
    QuotientOrder(-1, 1, num, den);
    QuotientOrder(num, den, 1, 1);
  }

  /** Away from the axes the ratio keeps the grid's distance from -1 and 1. */
  lemma RatioGap(x: int, y: nat)
    requires OnGrid(x, y) && x != 0 && y != 0
    ensures -32767.0 / 32769.0 <= Ratio(x, y) <= 32767.0 / 32769.0
  {
    var den := if x >= 0 then x + y else y - x;
    var num := if x >= 0 then x - y else x + y;
    QuotientOrder(-32767, 32769, num, den);
    QuotientOrder(num, den, 32767, 32769);
  }

  /** Within one closed quadrant the angle follows the cross product. */
  lemma QuadrantOrder(x1: int, y1: nat, x2: int, y2: nat)
    requires x1 != 0 || y1 != 0
    requires x2 != 0 || y2 != 0
    requires x1 >= 0 <==> x2 >= 0
    ensures x1 * y2 - y1 * x2 > 0 ==> UpperAngle(x1, y1) < UpperAngle(x2, y2)
    ensures x1 * y2 - y1 * x2 == 0 ==> UpperAngle(x1, y1) == UpperAngle(x2, y2)
  {
    var n1, d1 := if x1 >= 0 then x1 - y1 else x1 + y1, if x1 >= 0 then x1 + y1 else y1 - x1;
    var n2, d2 := if x2 >= 0 then x2 - y2 else x2 + y2, if x2 >= 0 then x2 + y2 else y2 - x2;
    assert n1 * d2 - n2 * d1 == 2 * (x1 * y2 - y1 * x2);
    QuotientOrder(n2, d2, n1, d1);
    QuotientOrder(n1, d1, n2, d2);
    RatioRange(x1, y1);
    RatioRange(x2, y2);
    if x1 * y2 - y1 * x2 > 0 {
      CubicFalls(Ratio(x2, y2), Ratio(x1, y1));
    }
  }

  /** The value of the upper-half angle on the axes, and its margins elsewhere: enough to
      beat the few-microradian overlap of the two cubics at every seam. */
  lemma AngleMargins(x: int, y: nat)
    requires OnGrid(x, y) && (x != 0 || y != 0)
    ensures y == 0 && x > 0 ==> UpperAngle(x, y) == PI_4 + ATAN2_A - ATAN2_B
    ensures y == 0 && x < 0 ==> UpperAngle(x, y) == PI_3_4 + ATAN2_B - ATAN2_A
    ensures y > 0 ==> 0.00002 < UpperAngle(x, y) < 3.141572
    ensures x >= 0 ==> UpperAngle(x, y) <= PI_4 + ATAN2_B - ATAN2_A
    ensures x < 0 ==> UpperAngle(x, y) > PI_4 + ATAN2_B - ATAN2_A + 0.00002
  {
    var r := Ratio(x, y);
    RatioRange(x, y);
    CubicFalls(-1.0, r);
    CubicFalls(r, 1.0);
    if x != 0 && y != 0 {
      RatioGap(x, y);
      assert SLOPE * (1.0 - r) >= SLOPE * (2.0 / 32769.0);
      assert SLOPE * (r + 1.0) >= SLOPE * (2.0 / 32769.0);
    } else if y == 0 {
      assert r == if x > 0 then 1.0 else -1.0 by {
        if x > 0 { QuotientIs(x, x, 1); } else { QuotientIs(x, -x, -1); }
      }
    } else {
      assert r == -1.0 by { QuotientIs(x - y, x + y, -1); }
    }
  }

  /** Across the whole upper half plane. */
  lemma UpperOrder(x1: int, y1: nat, x2: int, y2: nat)
    requires OnGrid(x1, y1) && OnGrid(x2, y2) && y1 > 0
    requires x2 != 0 || y2 != 0
    requires x1 * y2 - y1 * x2 > 0
    ensures UpperAngle(x1, y1) < UpperAngle(x2, y2)
  {
    AngleMargins(x1, y1);
    AngleMargins(x2, y2);
    ProductSigns(x1, y2);
    ProductSigns(y1, x2);
    if (x1 >= 0) == (x2 >= 0) {
      QuadrantOrder(x1, y1, x2, y2);
    }
  }

  /** The angle in (0, 2 PI) that the heading is the degrees of. */
  ghost function Turn(p: Dir): real
    requires NonZero(p)
  {
    var u := UpperAngle(p.x, Abs(p.y));
    if Sector(p) < 2 then u else if Sector(p) == 2 then 2.0 * PI - u else 2.0 * PI + u
  }

  lemma TurnBounds(p: Dir)
    requires NonZero(p)
    ensures Sector(p) == 0 ==> 0.00002 < Turn(p) < 3.141572
    ensures Sector(p) == 1 ==> 3.141594 < Turn(p) < 3.141595
    ensures Sector(p) == 2 ==> 3.141613 < Turn(p) < 2.0 * PI - 0.00002
    ensures Sector(p) == 3 ==> 2.0 * PI - 0.000002 < Turn(p) < 2.0 * PI
  {
    AngleMargins(p.x, Abs(p.y));
  }

  lemma DegreesOrder(s: real, t: real)
    ensures s < t ==> RadToDeg(s) < RadToDeg(t)
    ensures RadToDeg(2.0 * PI) == 360.0
    ensures RadToDeg(s + 2.0 * PI) == RadToDeg(s) + 360.0
    ensures RadToDeg(0.0) == 0.0
  {
  }

  lemma HeadingIsTurn(p: Dir)
    requires NonZero(p)
    ensures HeadingDeg(p.x, p.y) == RadToDeg(Turn(p))
    ensures 0.0 < HeadingDeg(p.x, p.y) < 360.0
  {
    TurnBounds(p);
    AtanOfUpper(p);
    var u := UpperAngle(p.x, Abs(p.y));
    var rad := if p.y < 0 then -u else u;
    DegreesOrder(0.0, Turn(p));
    DegreesOrder(Turn(p), 2.0 * PI);
    DegreesOrder(rad, 0.0);
    DegreesOrder(0.0, rad);
  }

  lemma AtanOfUpper(p: Dir)
    requires NonZero(p)
    ensures var u := UpperAngle(p.x, Abs(p.y));
            Atan2(p.y as real, p.x as real) == Some(if p.y < 0 then -u else u)
  {
    var y := Abs(p.y);
    assert AbsReal(p.y as real) == y as real;
    assert (p.x - y) as real == p.x as real - y as real;
    assert (p.x + y) as real == p.x as real + y as real;
    assert (y - p.x) as real == y as real - p.x as real;
  }

  lemma SwapMirrored(p: Dir, q: Dir)
    ensures q.x * (0 - p.y) - (0 - q.y) * p.x == Cross(p, q)
  {
  }

  lemma TurnFollowsDirection(p: Dir, q: Dir)
    requires NonZero(p) && NonZero(q)
    ensures Before(p, q) ==> Turn(p) < Turn(q)
    ensures SameDirection(p, q) ==> Turn(p) == Turn(q)
  {
    if Sector(p) != Sector(q) {
      TurnBounds(p);
      TurnBounds(q);
    } else if Cross(p, q) == 0 {
      SameUpper(p, q);
    } else if p.y > 0 && Cross(p, q) > 0 {
      UpperOrder(p.x, p.y, q.x, q.y);
    } else if p.y < 0 && Cross(p, q) > 0 {
      SwapMirrored(p, q);
      UpperOrder(q.x, 0 - q.y, p.x, 0 - p.y);
    }
  }

  lemma SameUpper(p: Dir, q: Dir)
    requires NonZero(p) && NonZero(q) && SameDirection(p, q)
    ensures UpperAngle(p.x, Abs(p.y)) == UpperAngle(q.x, Abs(q.y))
  {
    if p.y == 0 {
      AngleMargins(p.x, 0);
      AngleMargins(q.x, 0);
    } else {
      ProductSigns(p.x, q.y);
      ProductSigns(p.y, q.x);
      assert p.x * q.y == p.y * q.x;
      assert p.x * Abs(q.y) - Abs(p.y) * q.x == 0;
      QuadrantOrder(p.x, Abs(p.y), q.x, Abs(q.y));
    }
  }

  /** Headings order the directions exactly as a counterclockwise sweep does, and due +x,
      the end of the sweep, reads just under 360. */
  lemma HeadingOrder(p: Dir, q: Dir)
    requires NonZero(p) && NonZero(q)
    ensures HeadingDeg(p.x, p.y) < HeadingDeg(q.x, q.y) <==> Before(p, q)
    ensures HeadingDeg(p.x, p.y) == HeadingDeg(q.x, q.y) <==> SameDirection(p, q)
    ensures 0.0 < HeadingDeg(p.x, p.y) < 360.0
    ensures p.x > 0 && p.y == 0 ==> HeadingDeg(p.x, p.y) > 359.9998
  {
    TurnFollowsDirection(p, q);
    TurnFollowsDirection(q, p);
    HeadingIsTurn(p);
    HeadingIsTurn(q);
    DegreesOrder(Turn(p), Turn(q));
    DegreesOrder(Turn(q), Turn(p));
    assert Cross(q, p) == -Cross(p, q) by {
      assert p.x * q.y == q.y * p.x && p.y * q.x == q.x * p.y;
    }
    TurnBounds(p);
    DegreesOrder(2.0 * PI - 0.000002, Turn(p));
  }

  lemma CubicOdd(r: real)
    ensures Cubic(-r) == -Cubic(r)
  {
    assert (-r) * (-r) == r * r;
  }

  lemma NegatedQuotient(n: int, d: int)
    requires d != 0
    ensures (-n) as real / d as real == -(n as real / d as real)
  {
    var q := n as real / d as real;
    assert q * d as real == n as real;
    assert (-q) * d as real == (-n) as real;
  }

  /** Off the axes a quarter turn of the field keeps or negates the ratio. */
  lemma RatioTurned(x: int, y: int)
    requires x != 0 && y != 0
    ensures Ratio(-y, Abs(x)) == if x > 0 <==> y > 0 then Ratio(x, Abs(y)) else -Ratio(x, Abs(y))
  {
    var ay, ax: int := Abs(y), Abs(x);
    NegatedQuotient(ax - ay, ax + ay);
    assert (if -y >= 0 then -y + ax else ax + y) == ax + ay;
  }

  /** What a quarter turn adds to the angle: PI/2, less a whole turn when it passes +x. */
  ghost function TurnAdded(p: Dir): real {
    if p.x > 0 && p.y <= 0 then PI / 2.0 - 2.0 * PI else PI / 2.0
  }

  ghost predicate Turned(p: Dir, q: Dir) {
    NonZero(p) && q.x == 0 - p.y && q.y == p.x
  }

  lemma UpperTurned(p: Dir, q: Dir)
    requires Turned(p, q) && p.x != 0 && p.y != 0
    ensures var c := Cubic(Ratio(p.x, Abs(p.y)));
            && UpperAngle(p.x, Abs(p.y)) == (if p.x > 0 then PI_4 else PI_3_4) + c
            && UpperAngle(q.x, Abs(q.y)) == (if p.y < 0 then PI_4 else PI_3_4) + (if p.x > 0 <==> p.y > 0 then c else -c)
  {
    RatioTurned(p.x, p.y);
    CubicOdd(Ratio(p.x, Abs(p.y)));
  }

  lemma AxisAngle(x: int, y: nat)
    requires OnGrid(x, y) && (x == 0) != (y == 0)
    ensures x > 0 ==> UpperAngle(x, y) == PI_4 + ATAN2_A - ATAN2_B
    ensures x == 0 ==> UpperAngle(x, y) == PI_4 + ATAN2_B - ATAN2_A
    ensures x < 0 ==> UpperAngle(x, y) == PI_3_4 + ATAN2_B - ATAN2_A
  {
    AngleMargins(x, y);
    if x == 0 {
      QuotientIs(x - y, x + y, -1);
    }
  }

  /** Off the axes a quarter turn is a quarter turn; from the x axis to the y axis it is short or
      long by the 4e-6 rad that the cubics miss at the seams. */
  lemma TurnTurned(p: Dir, q: Dir)
    requires Turned(p, q)
    ensures p.y != 0 ==> -0.000000000000001 < Turn(q) - Turn(p) - TurnAdded(p) < 0.000000000000001
    ensures p.y == 0 ==> 0.0000036 < (if p.x > 0 then 1.0 else -1.0) * (Turn(q) - Turn(p) - TurnAdded(p)) < 0.0000037
  {
    if p.x != 0 && p.y != 0 {
      UpperTurned(p, q);
    } else {
      AxisAngle(p.x, Abs(p.y));
      AxisAngle(q.x, Abs(q.y));
    }
  }

  /** Turning the sensor by a quarter turn adds a quarter turn to the heading: to within 1e-12
      degrees from anywhere off the x axis, and to within 0.00022 degrees from the x axis. The four
      polynomial branches are one curve, moved round, with a flaw of that size at two seams. */
  lemma QuarterTurn(p: Dir, q: Dir)
    requires Turned(p, q)
    ensures var added := if p.x > 0 && p.y <= 0 then 90.0 - 360.0 else 90.0;
            var d := HeadingDeg(q.x, q.y) - HeadingDeg(p.x, p.y) - added;
            if p.y != 0 then -0.000000000001 < d < 0.000000000001
            else if p.x > 0 then 0.0002 < d < 0.00022 else -0.00022 < d < -0.0002
  {
    HeadingIsTurn(p);
    HeadingIsTurn(q);
    TurnTurned(p, q);
    DegreesDifference(Turn(q), Turn(p), TurnAdded(p));
    assert RadToDeg(PI / 2.0) == 90.0 && RadToDeg(PI / 2.0 - 2.0 * PI) == 90.0 - 360.0;
    var t := Turn(q) - Turn(p) - TurnAdded(p);
    DegreesOrder(t, 0.000000000000001);
    DegreesOrder(-0.000000000000001, t);
    DegreesOrder(t, 0.0000037);
    DegreesOrder(0.0000036, t);
    DegreesOrder(t, -0.0000036);
    DegreesOrder(-0.0000037, t);
  }

  lemma DegreesDifference(t: real, s: real, added: real)
    ensures RadToDeg(t) - RadToDeg(s) - RadToDeg(added) == RadToDeg(t - s - added)
  {
  }

  /** The order needs the integer grid. Between reals the two cubics overlap at the seams: this
      direction is just past 90 degrees and yet gets a smaller angle than 90 degrees itself. */
  lemma SeamsOverlapOffGrid()
    ensures Atan2(1.0, -0.000001).Some? && Atan2(1.0, 0.0).Some?
    ensures Atan2(1.0, -0.000001).value < Atan2(1.0, 0.0).value
  {
    var ratio := (-0.000001 + 1.0) / (1.0 - -0.000001);
    assert ratio >= 0.99999;
    CubicFalls(-1.0, ratio);
    assert ratio <= 1.0;
    CubicFalls(0.99999, ratio);
    assert Cubic(0.99999) < -0.78539;
  }
}
