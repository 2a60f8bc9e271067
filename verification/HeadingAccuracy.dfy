/** How far the published heading is from the direction of the field, against sine and cosine. */
module HeadingAccuracy {
  import opened FixedPoint
  import opened Trigonometry
  import opened Heading

  // The reference: directions measured from the diagonal of their quadrant

  function Sign(v: int): int {
    if v < 0 then -1 else 1
  }

  /** The diagonal of the quadrant of (x, y), in degrees. */
  function DiagonalDeg(x: int, y: int): real {
    if y >= 0 then (if x >= 0 then 45.0 else 135.0) else if x >= 0 then 315.0 else 225.0
  }

  /** (x, y) as seen from that diagonal, both times the square root of 2: along it, and across it
      counterclockwise. */
  function Along(x: int, y: int): nat {
    Abs(x) + Abs(y)
  }

  function Across(x: int, y: int): int {
    Sign(x) * y - Sign(y) * x
  }

  function DegToRad(deg: real): real {
    deg * (PI / 180.0)
  }

  /** How far (u, v) lies to the clockwise side of the direction of cosine `c` and sine `s`. */
  function Miss(u: real, v: real, s: real, c: real): real {
    u * s - v * c
  }

  /** The direction `t` radians off an axis misses (u, v), `u` along that axis and `v` across it, by
      an angle whose sine is at most 0.0104, by polynomials of `n` terms after the first. */
  ghost predicate Near(u: real, v: real, t: real, n: nat) {
    var miss := Miss(u, v, Sin(t, n), Cos(t, n));
    -0.79 < t < 0.79 && miss * miss <= 0.0104 * 0.0104 * (u * u + v * v)
  }

  /** `deg` is the direction of (x, y) but for 0.6 degrees and whole turns. */
  ghost predicate PointsTo(x: int, y: int, deg: real) {
    var u, v, off := Along(x, y) as real, Across(x, y) as real, deg - DiagonalDeg(x, y);
    forall n: nat :: n >= 3 ==>
      Near(u, v, DegToRad(off), n) || Near(u, v, DegToRad(off + 360.0), n) || Near(u, v, DegToRad(off - 360.0), n)
  }

  /** `PointsTo`, or zero where there is nothing to point to. */
  ghost predicate PointsOrZero(x: int, y: int, deg: real) {
    if x == 0 && y == 0 then deg == 0.0 else PointsTo(x, y, deg)
  }

  /** `deg` has the sign of the tilt `y`, and is zero but for 0.0002 degrees when level. */
  ghost predicate Level(y: int, x: int, deg: real) {
    && (y > 0 ==> 0.0 < deg < 180.0) && (y < 0 ==> -180.0 < deg < 0.0)
    && (y == 0 && x >= 0 ==> -0.0002 < deg < 0.0002)
  }

  // Bounds on sine and cosine

  /** Cosine, `e` standing for what the terms after the third contribute. */
  function CosinePart(q: real, e: real): real {
    1.0 - q / 2.0 + q * q / 24.0 - q * q * q / 720.0 * e
  }

  /** Sine over the angle, likewise. */
  function SinePart(q: real, e: real): real {
    1.0 - q / 6.0 + q * q / 120.0 - q * q * q / 5040.0 * e
  }

  lemma CosBounds(q: real, n: nat) returns (e: real)
    requires 0.0 <= q <= 1.0 && n >= 3
    ensures 0.5 <= e <= 1.0 && Nested(q, 0, n) == CosinePart(q, e)
  {
    e := Nested(q, 6, n - 3);
    NestedRange(q, 6, n - 3);
    assert Nested(q, 4, n - 2) == 1.0 - q / 30.0 * e;
    assert Nested(q, 2, n - 1) == 1.0 - q / 12.0 * (1.0 - q / 30.0 * e);
    assert Nested(q, 0, n) == 1.0 - q / 2.0 * (1.0 - q / 12.0 * (1.0 - q / 30.0 * e));
  }

  lemma SinBounds(q: real, n: nat) returns (e: real)
    requires 0.0 <= q <= 1.0 && n >= 3
    ensures 0.5 <= e <= 1.0 && Nested(q, 1, n) == SinePart(q, e)
  {
    e := Nested(q, 7, n - 3);
    NestedRange(q, 7, n - 3);
    assert Nested(q, 5, n - 2) == 1.0 - q / 42.0 * e;
    assert Nested(q, 3, n - 1) == 1.0 - q / 20.0 * (1.0 - q / 42.0 * e);
    assert Nested(q, 1, n) == 1.0 - q / 6.0 * (1.0 - q / 20.0 * (1.0 - q / 42.0 * e));
  }

  // Small facts about products

  lemma SquareNonNegative(x: real)
    ensures x * x >= 0.0
  {
  }

  /** Powers of `z`, kept apart so that what is proved of them is linear. */
  ghost predicate PowersOf(z: real, z2: real, z3: real, z4: real) {
    && z2 == z * z && z3 == z * z2 && z4 == z * z3
    && 0.0 <= z4 <= z3 <= z2 <= z <= 1.0
  }

  lemma Powers(z: real) returns (z2: real, z3: real, z4: real)
    requires 0.0 <= z <= 1.0
    ensures PowersOf(z, z2, z3, z4)
  {
    z2 := Shrunk(z, z);
    z3 := Shrunk(z, z2);
    z4 := Shrunk(z, z3);
  }

  lemma Shrunk(z: real, x: real) returns (y: real)
    requires 0.0 <= z <= 1.0 && 0.0 <= x
    ensures y == z * x && 0.0 <= y <= x
  {
    y := z * x;
    Product(z, x);
    Product(1.0 - z, x);
    assert (1.0 - z) * x == x - z * x;
  }

  // The polynomial of the source, at the ratio `r` with z = r * r: its angle is r * w

  /** Sine less ratio times cosine, over the ratio, without the terms of seventh order. */
  function Leading(w: real, q: real): real {
    w * (1.0 - q / 6.0 + q * q / 120.0) - (1.0 - q / 2.0 + q * q / 24.0)
  }

  function Falling(z: real, z2: real, z3: real): real {
    -0.0183 + 0.127884355 * z - 0.129218268 * z2 + 0.023709087 * z3
  }

  lemma LeadingExpanded(z: real, w: real, q: real, z2: real, z3: real, z4: real)
    requires w == 0.9817 - 0.1963 * z && q == z * (w * w) && PowersOf(z, z2, z3, z4)
    ensures 120.0 * Leading(w, q) == -2.196 + 15.34612256974 * z - 15.50619218276236901143 * z2
      + 2.84509044875348717385 * z3 - 0.5982378987821822703 * z4 + 0.0756163018433672317 * (z * z4)
      - 0.00013586334174897315 * (z2 * z4) - 0.00029147512552266043 * (z3 * z4)
  {
    assert q == 0.96373489 * z - 0.38541542 * z2 + 0.03853369 * z3;
    assert q * q == 0.9287849382033121 * z2 - 0.7428765747960076 * z3 + 0.2228175689606646 * z4
                    - 0.0297029566309996 * (z * z4) + 0.0014848452650161 * (z2 * z4);
  }

  lemma LeadingBounds(leading: real, z: real, z2: real, z3: real, z4: real, z5: real, z6: real, z7: real)
    requires 0.0 <= z5 <= z4 && 0.0 <= z6 <= z4 && 0.0 <= z7 <= z4
    requires 120.0 * leading == -2.196 + 15.34612256974 * z - 15.50619218276236901143 * z2
      + 2.84509044875348717385 * z3 - 0.5982378987821822703 * z4 + 0.0756163018433672317 * z5
      - 0.00013586334174897315 * z6 - 0.00029147512552266043 * z7
    requires 0.0 <= z3 <= z2 <= z <= 1.0
    ensures Falling(z, z2, z3) - 0.00000001 - 0.005 * z4 <= leading <= Falling(z, z2, z3) + 0.00000001 - 0.0043 * z4
  {
  }

  // The terms of seventh order

  lemma CubeOfProduct(q: real, z: real, g: real, z2: real, z3: real)
    requires q == z * g && z2 == z * z && z3 == z * z2
    ensures q * q * q == z3 * (g * g * g)
  {
  }

  lemma CubeOrder(x: real, y: real)
    requires 0.0 <= x <= y
    ensures 0.0 <= x * x * x <= y * y * y
  {
    ProductAtMost(x, x, y, y);
    Product(x, x);
    assert x * x <= y * y;
    ProductAtMost(x, x * x, y, y * y);
    Product(x, x * x);
  }

  lemma CubeExpanded(z: real, z2: real, z3: real)
    requires z2 == z * z && z3 == z * z2
    ensures var m := 0.9638 - 0.3468 * z;
            m * m * m == 0.895283882072 - 0.966438421776 * z + 0.347749371936 * z2 - 0.041709719232 * z3
  {
  }

  lemma ConvexCube(z: real, z2: real, z3: real)
    requires z2 == z * z && z3 == z * z2 && z >= 0.0
    ensures z - 2.0 * z2 + z3 >= 0.0
  {
    SquareNonNegative(1.0 - z);
    Product(z, (1.0 - z) * (1.0 - z));
  }

  /** The cube of a falling line is below its chord. */
  lemma CubeChord(z: real, m: real, z2: real, z3: real, z4: real)
    requires PowersOf(z, z2, z3, z4) && m == 0.9638 - 0.3468 * z
    ensures m * m * m <= 0.8953 - 0.66 * z
  {
    CubeExpanded(z, z2, z3);
    ConvexCube(z, z2, z3);
    BelowChord(m * m * m, z, z2, z3);
  }

  lemma BelowChord(c: real, z: real, z2: real, z3: real)
    requires c == 0.895283882072 - 0.966438421776 * z + 0.347749371936 * z2 - 0.041709719232 * z3
    requires 0.0 <= z3 <= z2 <= z && z - 2.0 * z2 + z3 >= 0.0
    ensures c <= 0.8953 - 0.66 * z
  {
  }

  lemma CubeBounds(z: real, w: real, q: real, z2: real, z3: real, z4: real)
    requires w == 0.9817 - 0.1963 * z && q == z * (w * w) && PowersOf(z, z2, z3, z4)
    ensures 0.0 <= q <= 0.97 && 0.0 <= q * q * q <= 0.8953 * z3 - 0.66 * z4
  {
    var g, m := w * w, 0.9638 - 0.3468 * z;
    SquareOfLine(z, w, z2);
    CubeOrder(g, m);
    CubeChord(z, m, z2, z3, z4);
    CubeBound(z, q, g, z2, z3, z4);
  }

  lemma SquareOfLine(z: real, w: real, z2: real)
    requires w == 0.9817 - 0.1963 * z && z2 == z * z
    ensures w * w == 0.96373489 - 0.38541542 * z + 0.03853369 * z2 && w * w >= 0.0
  {
  }

  lemma CubeBound(z: real, q: real, g: real, z2: real, z3: real, z4: real)
    requires q == z * g && PowersOf(z, z2, z3, z4) && 0.0 <= g <= 0.97 && 0.0 <= g * g * g <= 0.8953 - 0.66 * z
    ensures 0.0 <= q <= 0.97 && 0.0 <= q * q * q <= 0.8953 * z3 - 0.66 * z4
  {
    var y := Shrunk(z, g);
    CubeOfProduct(q, z, g, z2, z3);
    ScaledChord(z3, g * g * g, z, z4);
  }

  lemma ScaledChord(c: real, x: real, z: real, cz: real)
    requires 0.0 <= c && 0.0 <= x <= 0.8953 - 0.66 * z && cz == z * c
    ensures 0.0 <= c * x <= 0.8953 * c - 0.66 * cz
  {
    Scaled(c, x, 0.8953 - 0.66 * z);
  }

  lemma Scaled(c: real, x: real, y: real)
    requires 0.0 <= c && 0.0 <= x <= y
    ensures 0.0 <= c * x <= c * y
  {
    Product(c, x);
    Product(c, y - x);
  }

  // How far off at most

  lemma WithinBelow(r: real, z: real, d: real, z2: real, z3: real, z4: real)
    requires -1.0 <= r <= 1.0 && z == r * r && PowersOf(z, z2, z3, z4)
    requires Falling(z, z2, z3) - 0.00000002 - 0.005 * z4 <= d <= 0.0
    ensures -0.0103 <= r * d <= 0.0103
  {
    if z <= 0.3 {
      SmallSquare(z, z2);
      BelowBound(z, d, z2, z3, z4);
      RatioAtMost(r, z);
      RatioTimes(r, d, 0.55, 0.0184);
    } else {
      Chords(z, z2, z3);
      BelowBound(z, d, z2, z3, z4);
      RatioTimes(r, d, 1.0, 0.01);
    }
  }

  lemma RatioAtMost(r: real, z: real)
    requires z == r * r && z <= 0.3
    ensures -0.55 <= r <= 0.55
  {
    if r >= 0.0 {
      ProductAtLeast(r, 0.55);
    } else {
      ProductAtLeast(-r, 0.55);
    }
  }

  lemma RatioTimes(r: real, d: real, m: real, n: real)
    requires -m <= r <= m && -n <= d <= 0.0
    ensures -(m * n) <= r * d <= m * n
  {
    if r >= 0.0 {
      ProductAtMost(r, d, m, n);
    } else {
      ProductAtMost(-r, d, m, n);
      assert (-r) * d == -(r * d);
    }
  }

  lemma ProductAtLeast(a: real, m: real)
    requires 0.0 <= m && 0.0 <= a && a * a <= m * m
    ensures a <= m
  {
    if a > m {
      ProductPositive(a - m, a);
      Product(a - m, m);
    }
  }

  lemma ProductPositive(x: real, y: real)
    requires x > 0.0 && y > 0.0
    ensures x * y > 0.0
  {
  }

  lemma BelowBound(z: real, d: real, z2: real, z3: real, z4: real)
    requires 0.0 <= z4 <= z3 <= z2 <= z <= 1.0 && Falling(z, z2, z3) - 0.00000002 - 0.005 * z4 <= d
    requires if z <= 0.3 then z2 <= 0.3 * z else z2 <= 1.3 * z - 0.3 && z3 >= 1.92 * z - 1.024
    ensures d >= if z <= 0.3 then -0.0184 else -0.01
  {
  }

  lemma SmallSquare(z: real, z2: real)
    requires 0.0 <= z <= 0.3 && z2 == z * z
    ensures z2 <= 0.3 * z
  {
    Product(z, 0.3 - z);
  }

  lemma Chords(z: real, z2: real, z3: real)
    requires 0.3 <= z <= 1.0 && z2 == z * z && z3 == z * z2
    ensures z2 <= 1.3 * z - 0.3 && z3 >= 1.92 * z - 1.024
  {
    Product(z - 0.3, 1.0 - z);
    SquareNonNegative(z - 0.8);
    Product((z - 0.8) * (z - 0.8), z + 1.6);
  }

  lemma WithinAbove(r: real, z: real, d: real, z2: real, z3: real, z4: real)
    requires -1.0 <= r <= 1.0 && z == r * r && PowersOf(z, z2, z3, z4)
    requires 0.0 <= d <= Falling(z, z2, z3) + 0.00000002 + 0.001182 * z3 - 0.00517 * z4
    ensures Slight(r * d, z)
  {
    var h := Falling(z, z2, z3) + 0.00000002 + 0.001182 * z3 - 0.00517 * z4;
    var a, c := if r < 0.0 then -r else r, z + 0.6241;
    TangentLine(r, a);
    var s := z2 - 1.232 * z + 0.379456;
    var k := 0.0729908167790256 + 0.0928784514833 * z - 0.01529505 * z2 + 0.00517 * z3;
    SquaredDistance(z, z2);
    Product(s, k);
    Certificate(z, s, k, h, z2, z3, z4);
    AboveCertificate(z, c * h, s * k);
    Chain(r, a, c, d, h, 0.01039 * (1.0 + 0.4142 * z));
  }

  lemma Chain(r: real, a: real, c: real, d: real, h: real, e: real)
    requires (a == r || a == -r) && 0.0 <= 1.58 * a <= c && 0.0 <= d <= h && c * h <= 1.58 * e
    ensures -e <= r * d <= e
  {
    Scaled(c, d, h);
    Product(c - 1.58 * a, d);
    assert (c - 1.58 * a) * d == c * d - 1.58 * (a * d);
    Product(a, d);
    if a != r {
      assert r * d == -(a * d);
    }
  }

  lemma TangentLine(r: real, a: real)
    requires a == r || a == -r
    ensures 1.58 * a <= r * r + 0.6241
  {
    SquareNonNegative(a - 0.79);
    assert a * a == r * r;
  }

  lemma AboveCertificate(z: real, x: real, y: real)
    requires 0.0 <= z <= 1.0 && 0.0 <= y
    requires 0.0104 * 1.58 * (1.0 + 0.4142 * z) - x == y + 0.0001562141462980619264 - 0.0000251109697875456 * z
    ensures x <= 1.58 * (0.01039 * (1.0 + 0.4142 * z))
  {
  }

  lemma SquaredDistance(z: real, z2: real)
    requires z2 == z * z
    ensures z2 - 1.232 * z + 0.379456 >= 0.0
  {
    SquareNonNegative(z - 0.616);
    assert (z - 0.616) * (z - 0.616) == z2 - 1.232 * z + 0.379456;
  }

  lemma Certificate(z: real, s: real, k: real, h: real, z2: real, z3: real, z4: real)
    requires z2 == z * z && z3 == z * z2 && z4 == z * z3
    requires h == Falling(z, z2, z3) + 0.00000002 + 0.001182 * z3 - 0.00517 * z4
    requires s == z2 - 1.232 * z + 0.379456
    requires k == 0.0729908167790256 + 0.0928784514833 * z - 0.01529505 * z2 + 0.00517 * z3
    ensures 0.0104 * 1.58 * (1.0 + 0.4142 * z) - (z + 0.6241) * h
         == s * k + 0.0001562141462980619264 - 0.0000251109697875456 * z
  {
  }

  function Seventh(c: real, w: real, e0: real, e1: real): real {
    c / 720.0 * e0 - w * (c / 5040.0 * e1)
  }

  lemma SeventhBounds(c: real, w: real, e0: real, e1: real)
    requires 0.0 <= c && 0.78 <= w <= 0.9817 && 0.5 <= e0 <= 1.0 && 0.5 <= e1 <= 1.0
    ensures 0.0 <= Seventh(c, w, e0, e1) <= 0.00132 * c
  {
    var y := Weighted(w, e1);
    var k := e0 / 720.0 - y / 5040.0;
    Product(c, k);
    Product(c, 0.00132 - k);
    assert Seventh(c, w, e0, e1) == c * k;
  }

  lemma Weighted(w: real, e: real) returns (y: real)
    requires 0.78 <= w <= 0.9817 && 0.5 <= e <= 1.0
    ensures y == w * e && 0.39 <= y <= 0.9817
  {
    y := w * e;
    Product(e, w - 0.78);
    assert e * (w - 0.78) == y - 0.78 * e;
    Product(e, 0.9817 - w);
    assert e * (0.9817 - w) == 0.9817 * e - y;
  }

  lemma Collected(w: real, q: real, e0: real, e1: real)
    ensures w * SinePart(q, e1) - CosinePart(q, e0) == Leading(w, q) + Seventh(q * q * q, w, e0, e1)
  {
  }

  lemma DeviationBounds(z: real, w: real, q: real, e0: real, e1: real, z2: real, z3: real, z4: real) returns (d: real)
    requires w == 0.9817 - 0.1963 * z && q == z * (w * w) && PowersOf(z, z2, z3, z4)
    requires 0.5 <= e0 <= 1.0 && 0.5 <= e1 <= 1.0
    ensures d == w * SinePart(q, e1) - CosinePart(q, e0)
    ensures -(0.00000002 + 0.005 * z4) <= d - Falling(z, z2, z3) <= 0.00000002 + 0.001182 * z3 - 0.00517 * z4
  {
    LeadingExpanded(z, w, q, z2, z3, z4);
    var z5 := Shrunk(z, z4);
    var z6 := Shrunk(z2, z4);
    var z7 := Shrunk(z3, z4);
    LeadingBounds(Leading(w, q), z, z2, z3, z4, z5, z6, z7);
    CubeBounds(z, w, q, z2, z3, z4);
    Collected(w, q, e0, e1);
    SeventhBounds(q * q * q, w, e0, e1);
    d := w * SinePart(q, e1) - CosinePart(q, e0);
    SumOfParts(d, Leading(w, q), Seventh(q * q * q, w, e0, e1), q * q * q, Falling(z, z2, z3), z3, z4);
  }

  lemma SumOfParts(d: real, leading: real, seventh: real, c: real, f: real, z3: real, z4: real)
    requires d == leading + seventh && 0.0 <= seventh <= 0.00132 * c && c <= 0.8953 * z3 - 0.66 * z4 && 0.0 <= z4 <= z3
    requires f - 0.00000001 - 0.005 * z4 <= leading <= f + 0.00000001 - 0.0043 * z4
    ensures -(0.00000002 + 0.005 * z4) <= d - f <= 0.00000002 + 0.001182 * z3 - 0.00517 * z4
  {
  }

  /** The angle that the source assigns to the ratio `r`. */
  ghost function Angle(r: real): real {
    r * (0.9817 - 0.1963 * (r * r))
  }

  /** `x` is at most 0.01039 times a little less than the root of 1 + z. */
  ghost predicate Slight(x: real, z: real) {
    -(0.01039 * (1.0 + 0.4142 * z)) <= x <= 0.01039 * (1.0 + 0.4142 * z)
  }

  lemma PartsError(r: real, z: real, w: real, q: real, n: nat) returns (d: real)
    requires -1.0 <= r <= 1.0 && z == r * r && w == 0.9817 - 0.1963 * z && q == z * (w * w) && n >= 3
    ensures d == w * Nested(q, 1, n) - Nested(q, 0, n) && Slight(r * d, z)
  {
    Square(r);
    SquaredAngle(z, w, q);
    var e0 := CosBounds(q, n);
    var e1 := SinBounds(q, n);
    d := DeviationWithin(r, z, w, q, e0, e1);
  }

  lemma SquaredAngle(z: real, w: real, q: real)
    requires 0.0 <= z <= 1.0 && w == 0.9817 - 0.1963 * z && q == z * (w * w)
    ensures 0.0 <= q <= 1.0
  {
    var z2, z3, z4 := Powers(z);
    CubeBounds(z, w, q, z2, z3, z4);
  }

  lemma DeviationWithin(r: real, z: real, w: real, q: real, e0: real, e1: real) returns (d: real)
    requires -1.0 <= r <= 1.0 && z == r * r && w == 0.9817 - 0.1963 * z && q == z * (w * w)
    requires 0.5 <= e0 <= 1.0 && 0.5 <= e1 <= 1.0
    ensures d == w * SinePart(q, e1) - CosinePart(q, e0) && Slight(r * d, z)
  {
    Square(r);
    var z2, z3, z4 := Powers(z);
    d := DeviationBounds(z, w, q, e0, e1, z2, z3, z4);
    Within(r, z, d, z2, z3, z4);
  }

  lemma RatioError(r: real, n: nat)
    requires -1.0 <= r <= 1.0 && n >= 3
    ensures Slight(Sin(Angle(r), n) - r * Cos(Angle(r), n), r * r)
  {
    var z, t := r * r, Angle(r);
    var w, q := 0.9817 - 0.1963 * z, t * t;
    SquareOfProduct(r, w, t);
    var d := PartsError(r, z, w, q, n);
    var sine, cosine := Parts(t, q, n);
    FactorOut(r, w, t, sine, cosine, d);
  }

  lemma Within(r: real, z: real, d: real, z2: real, z3: real, z4: real)
    requires -1.0 <= r <= 1.0 && z == r * r && PowersOf(z, z2, z3, z4)
    requires Falling(z, z2, z3) - 0.00000002 - 0.005 * z4 <= d
    requires d <= Falling(z, z2, z3) + 0.00000002 + 0.001182 * z3 - 0.00517 * z4
    ensures Slight(r * d, z)
  {
    if d <= 0.0 {
      WithinBelow(r, z, d, z2, z3, z4);
    } else {
      WithinAbove(r, z, d, z2, z3, z4);
    }
  }

  lemma Parts(t: real, q: real, n: nat) returns (s: real, c: real)
    requires q == t * t
    ensures s == Nested(q, 1, n) && c == Nested(q, 0, n) && Sin(t, n) == t * s && Cos(t, n) == c
  {
    s, c := Nested(q, 1, n), Nested(q, 0, n);
  }

  lemma SquareOfProduct(r: real, w: real, t: real)
    requires t == r * w
    ensures t * t == (r * r) * (w * w)
  {
  }

  lemma FactorOut(r: real, w: real, t: real, s: real, c: real, d: real)
    requires d == w * s - c && t == r * w
    ensures t * s - r * c == r * d
  {
  }

  lemma AngleRange(r: real)
    requires -1.0 <= r <= 1.0
    ensures -0.7854 <= Angle(r) <= 0.7854
  {
    if r >= 0.0 {
      AngleAtMost(r);
    } else {
      AngleAtMost(-r);
    }
  }

  lemma AngleAtMost(r: real)
    requires 0.0 <= r <= 1.0
    ensures 0.0 <= Angle(r) <= 0.7854
  {
    var z := Shrunk(r, r);
    Product(1.0 - r, 0.9817 - 0.1963 * (1.0 + r + z));
    assert (1.0 - r) * (0.9817 - 0.1963 * (1.0 + r + z)) == 0.7854 - Angle(r);
    Product(r, 0.9817 - 0.1963 * z);
  }

  /** The angle of ratio v/u points along (u, v), but for the tolerance. */
  lemma AngleNear(u: real, v: real, t: real, n: nat)
    requires u > 0.0 && -u <= v <= u && n >= 3
    requires -0.00000000000001 <= t - Angle(v / u) <= 0.00000000000001
    ensures Near(u, v, t, n)
  {
    var r := v / u;
    assert v == r * u && -1.0 <= r <= 1.0 by {
      if r > 1.0 { ProductPositive(r - 1.0, u); }
      if r < -1.0 { ProductPositive(-1.0 - r, u); }
    }
    AngleRange(r);
    RatioError(r, n);
    SmallChange(t, Angle(r), n, 0.00000000000001);
    Shifted(u, v, r, Sin(t, n), Cos(t, n), Sin(Angle(r), n), Cos(Angle(r), n));
  }

  lemma Shifted(u: real, v: real, r: real, s: real, c: real, s0: real, c0: real)
    requires -1.0 <= r <= 1.0 && v == r * u && Slight(s0 - r * c0, r * r)
    requires -0.00000000000003 <= s - s0 <= 0.00000000000003 && -0.00000000000002 <= c - c0 <= 0.00000000000002
    ensures var miss := Miss(u, v, s, c); miss * miss <= 0.0104 * 0.0104 * (u * u + v * v)
  {
    var e, z := s - r * c, r * r;
    Square(r);
    CosineTimes(r, c, c0);
    AddSlight(e, s0 - r * c0, z);
    SquareWithin(e, z);
    ScaledUp(u, v, r, s, c, e);
  }

  lemma AddSlight(e: real, e0: real, z: real)
    requires 0.0 <= z && Slight(e0, z) && -0.0000000001 <= e - e0 <= 0.0000000001
    ensures -(0.0104 * (1.0 + 0.4142 * z)) <= e <= 0.0104 * (1.0 + 0.4142 * z)
  {
  }

  lemma CosineTimes(r: real, c: real, d: real)
    requires -1.0 <= r <= 1.0 && -0.00000000000002 <= c - d <= 0.00000000000002
    ensures -0.00000000000002 <= r * c - r * d <= 0.00000000000002
  {
    if r >= 0.0 {
      ProductAtMost(r, c - d, 1.0, 0.00000000000002);
    } else {
      ProductAtMost(-r, c - d, 1.0, 0.00000000000002);
    }
    assert r * (c - d) == r * c - r * d;
  }

  lemma SquareWithin(e: real, z: real)
    requires 0.0 <= z <= 1.0 && -(0.0104 * (1.0 + 0.4142 * z)) <= e <= 0.0104 * (1.0 + 0.4142 * z)
    ensures e * e <= 0.0104 * 0.0104 * (1.0 + z)
  {
    var m := 0.0104 * (1.0 + 0.4142 * z);
    Product(m - e, m + e);
    assert (m - e) * (m + e) == m * m - e * e;
    Product(z, 1.0 - z);
    assert m * m == 0.0104 * 0.0104 * (1.0 + 0.8284 * z + 0.17156164 * (z * z));
  }

  lemma ScaledUp(u: real, v: real, r: real, s: real, c: real, e: real)
    requires v == r * u && e == s - r * c && e * e <= 0.0104 * 0.0104 * (1.0 + r * r)
    ensures var miss := Miss(u, v, s, c); miss * miss <= 0.0104 * 0.0104 * (u * u + v * v)
  {
    var miss, m := Miss(u, v, s, c), 0.0104 * 0.0104 * (1.0 + r * r);
    assert miss == u * e;
    SquareNonNegative(u);
    Product(u * u, m - e * e);
    assert (u * u) * (m - e * e) == (u * u) * m - miss * miss;
    assert (u * u) * m == 0.0104 * 0.0104 * (u * u + v * v);
  }

  // The heading

  lemma CubicIsAngle(r: real)
    ensures Cubic(-r) == Angle(r) && Cubic(r) == -Angle(r)
  {
  }

  lemma RatioIsAcross(x: int, y: int)
    requires x != 0 || y != 0
    ensures Along(x, y) > 0 && Abs(Across(x, y)) <= Along(x, y)
    ensures Ratio(x, Abs(y)) == (Across(x, y) as real / Along(x, y) as real) * if y >= 0 then -1.0 else 1.0
  {
    NegatedQuotient(Across(x, y), Along(x, y));
  }

  lemma TurnNearDiagonal(p: Dir)
    requires NonZero(p)
    ensures var off := RadToDeg(Turn(p)) - DiagonalDeg(p.x, p.y);
            var t := DegToRad(if p.y == 0 && p.x > 0 then off - 360.0 else off);
            -0.00000000000001 <= t - Angle(Across(p.x, p.y) as real / Along(p.x, p.y) as real) <= 0.00000000000001
  {
    RatioIsAcross(p.x, p.y);
    CubicIsAngle(Across(p.x, p.y) as real / Along(p.x, p.y) as real);
    DegToRadBack(Turn(p), DiagonalDeg(p.x, p.y));
  }

  lemma DegToRadBack(rad: real, deg: real)
    ensures DegToRad(RadToDeg(rad) - deg) == rad - DegToRad(deg)
    ensures DegToRad(RadToDeg(rad) - deg - 360.0) == rad - DegToRad(deg) - 2.0 * PI
  {
  }

  /** What is left of `deg` from the diagonal, but for a whole turn on the positive x axis. */
  ghost function OffDiagonal(mx: int16, my: int16): real {
    DegToRad(HeadingDeg(mx, my) - DiagonalDeg(mx, my) - if my == 0 && mx > 0 then 360.0 else 0.0)
  }

  lemma FieldNear(mx: int16, my: int16, u: real, v: real, n: nat)
    requires (mx != 0 || my != 0) && n >= 3 && u == Along(mx, my) as real && v == Across(mx, my) as real
    ensures Near(u, v, OffDiagonal(mx, my), n)
  {
    var p := Dir(mx, my);
    HeadingIsTurn(p);
    TurnNearDiagonal(p);
    RatioIsAcross(mx, my);
    AngleNear(u, v, OffDiagonal(mx, my), n);
  }

  /** The published heading is the direction of the field to within 0.6 degrees, for every field. */
  lemma HeadingPointsToField(mx: int16, my: int16)
    requires mx != 0 || my != 0
    ensures PointsTo(mx, my, HeadingDeg(mx, my))
  {
    SameButTurns(mx, my, HeadingDeg(mx, my));
  }

  lemma SameButTurns(mx: int16, my: int16, deg: real)
    requires mx != 0 || my != 0
    requires deg == HeadingDeg(mx, my) || (deg == HeadingDeg(mx, my) - 360.0 && (my < 0 || (my == 0 && mx > 0)))
    ensures PointsTo(mx, my, deg)
  {
    var u, v, t := Along(mx, my) as real, Across(mx, my) as real, OffDiagonal(mx, my);
    var off := deg - DiagonalDeg(mx, my);
    assert t == DegToRad(off) || t == DegToRad(off + 360.0) || t == DegToRad(off - 360.0);
    forall n: nat {:trigger Near(u, v, t, n)} | n >= 3
      ensures Near(u, v, t, n)
    {
      FieldNear(mx, my, u, v, n);
    }
  }

  // Angles in (-180, 180]

  /** The angle of (x, y) in degrees, as the heading gives it, taken to the other side of zero where
      the heading is on the way back to 360. */
  ghost function SignedDeg(x: int16, y: int16): real {
    if y < 0 || (y == 0 && x > 0) then HeadingDeg(x, y) - 360.0 else HeadingDeg(x, y)
  }

  lemma AtanIsSigned(y: int16, x: int16)
    requires x != 0 || y != 0
    ensures var rad := Atan2(y as real, x as real); rad.Some? && RadToDeg(rad.value) == SignedDeg(x, y)
  {
    var p := Dir(x, y);
    AtanOfUpper(p);
    HeadingIsTurn(p);
    RadToDegMinus(Turn(p));
  }

  lemma RadToDegMinus(rad: real)
    ensures RadToDeg(rad - 2.0 * PI) == RadToDeg(rad) - 360.0 && RadToDeg(-rad) == -RadToDeg(rad)
  {
  }

  /** It points along (x, y), it has the sign of `y`, and it is zero but for 0.0002 degrees exactly
      on the positive x axis. */
  lemma SignedPoints(x: int16, y: int16)
    requires x != 0 || y != 0
    ensures PointsTo(x, y, SignedDeg(x, y))
    ensures -180.0 < SignedDeg(x, y) < 180.0002 && (y > 0 ==> SignedDeg(x, y) < 180.0)
    ensures (y > 0 ==> SignedDeg(x, y) > 0.0) && (y < 0 ==> SignedDeg(x, y) < 0.0)
    ensures y == 0 && x > 0 <==> -0.0002 < SignedDeg(x, y) < 0.0002
  {
    SameButTurns(x, y, SignedDeg(x, y));
    var p := Dir(x, y);
    HeadingIsTurn(p);
    TurnBounds(p);
    RadToDegMinus(Turn(p));
    SignedRange(if Sector(p) < 2 then Turn(p) else Turn(p) - 2.0 * PI);
  }

  lemma SignedRange(t: real)
    ensures 0.00002 < t < 3.141595 ==> 0.0002 < RadToDeg(t) < 180.0002
    ensures t < 3.141572 ==> RadToDeg(t) < 180.0
    ensures -3.14158 < t < -0.00002 ==> -180.0 < RadToDeg(t) < -0.0002
    ensures -0.000002 < t < 0.0 ==> -0.0002 < RadToDeg(t) < 0.0
  {
  }

  /** It grows with `y` in front (x > 0), and in either half plane it turns toward zero as `x` grows. */
  lemma SignedOrder(x: int16, y: int16, x': int16, y': int16)
    requires x != 0 || y != 0
    requires x' != 0 || y' != 0
    ensures x == x' > 0 && y < y' ==> SignedDeg(x, y) < SignedDeg(x', y')
    ensures x < x' && y == y' > 0 ==> SignedDeg(x, y) > SignedDeg(x', y')
    ensures x < x' && y == y' < 0 ==> SignedDeg(x, y) < SignedDeg(x', y')
  {
    HeadingOrder(Dir(x, y), Dir(x', y'));
    HeadingOrder(Dir(x', y'), Dir(x, y));
    SignedPoints(x, y);
    SignedPoints(x', y');
    CrossOfShift(x, y, x', y');
  }

  lemma CrossOfShift(x: int16, y: int16, x': int16, y': int16)
    ensures x == x' > 0 && y < y' ==> Cross(Dir(x, y), Dir(x', y')) > 0
    ensures x < x' && y == y' > 0 ==> Cross(Dir(x', y'), Dir(x, y)) > 0
    ensures x < x' && y == y' < 0 ==> Cross(Dir(x, y), Dir(x', y')) > 0
  {
    ShiftedProduct(x, y, y');
    ShiftedProduct(y, x, x');
    ProductSigns(x, y' as int - y);
    ProductSigns(y, x' as int - x);
  }

  lemma ShiftedProduct(k: int, a: int, b: int)
    ensures k * b - a * k == k * (b - a)
  {
  }
}
