/** Sine and cosine as their Taylor polynomials about zero, in Horner form.

    The polynomials close in on sine and cosine: `TaylorConverges` bounds what all further terms
    together can change. */
module Trigonometry {

  function Reciprocal(k: nat): (c: real)
    ensures 0.0 < c <= 0.5
  {
    1.0 / ((k + 1) * (k + 2)) as real
  }

  function OneLess(z: real, c: real, m: real): real {
    1.0 - z * c * m
  }

  /** 1 - z/((k+1)(k+2)) + z^2/((k+1)(k+2)(k+3)(k+4)) - ..., with `n` terms after the first. */
  function Nested(z: real, k: nat, n: nat): real
    decreases n
  {
    if n == 0 then 1.0 else OneLess(z, Reciprocal(k), Nested(z, k + 2, n - 1))
  }

  /** t - t^3/3! + t^5/5! - ..., with `n` terms after the first. */
  function Sin(t: real, n: nat): real {
    t * Nested(t * t, 1, n)
  }

  /** 1 - t^2/2! + t^4/4! - ..., with `n` terms after the first. */
  function Cos(t: real, n: nat): real {
    Nested(t * t, 0, n)
  }

  function Halved(n: nat): real {
    if n == 0 then 1.0 else Halved(n - 1) / 2.0
  }

  lemma ProductAtMost(x: real, y: real, m: real, n: real)
    requires 0.0 <= x <= m && -n <= y <= n
    ensures -(m * n) <= x * y <= m * n
  {
    Product(m - x, n);
    Product(x, n - y);
    Product(x, n + y);
    assert (m - x) * n == m * n - x * n && x * (n - y) == x * n - x * y && x * (n + y) == x * n + x * y;
  }

  lemma Product(x: real, y: real)
    requires x >= 0.0 && y >= 0.0
    ensures x * y >= 0.0
  {
  }

  lemma {:induction false} NestedRange(z: real, k: nat, n: nat)
    requires 0.0 <= z <= 1.0
    ensures 0.5 <= Nested(z, k, n) <= 1.0
    decreases n
  {
    if n > 0 {
      NestedRange(z, k + 2, n - 1);
      RangeStep(z, Reciprocal(k), Nested(z, k + 2, n - 1));
    }
  }

  lemma RangeStep(z: real, c: real, m: real)
    requires 0.0 <= z <= 1.0 && 0.0 < c <= 0.5 && 0.0 <= m <= 1.0
    ensures 0.0 <= z * c <= 0.5 && 0.5 <= OneLess(z, c, m) <= 1.0
  {
    assert z * c <= c;
    assert (z * c) * m <= z * c;
  }

  /** The first `n` terms are within 2^-n of any longer polynomial, at any angle up to one radian. */
  lemma {:induction false} TaylorConverges(z: real, k: nat, n: nat, m: nat)
    requires 0.0 <= z <= 1.0 && n <= m
    ensures -Halved(n) <= Nested(z, k, n) - Nested(z, k, m) <= Halved(n)
    decreases n
  {
    NestedRange(z, k, m);
    if n > 0 {
      TaylorConverges(z, k + 2, n - 1, m - 1);
      ConvergesStep(z, Reciprocal(k), Nested(z, k + 2, m - 1), Nested(z, k + 2, n - 1), Halved(n - 1));
    }
  }

  lemma ConvergesStep(z: real, c: real, p: real, q: real, h: real)
    requires 0.0 <= z <= 1.0 && 0.0 < c <= 0.5 && -h <= p - q <= h
    ensures -(h / 2.0) <= OneLess(z, c, q) - OneLess(z, c, p) <= h / 2.0
  {
    RangeStep(z, c, 1.0);
    ProductAtMost(z * c, p - q, 0.5, h);
    assert (z * c) * (p - q) == z * c * p - z * c * q;
  }

  lemma {:induction false} NestedLipschitz(y: real, z: real, k: nat, n: nat, d: real)
    requires 0.0 <= y <= 1.0 && 0.0 <= z <= 1.0 && -d <= y - z <= d
    ensures -d <= Nested(y, k, n) - Nested(z, k, n) <= d
    decreases n
  {
    if n > 0 {
      NestedLipschitz(y, z, k + 2, n - 1, d);
      NestedRange(y, k + 2, n - 1);
      LipschitzStep(y, z, Reciprocal(k), Nested(y, k + 2, n - 1), Nested(z, k + 2, n - 1), d);
    }
  }

  lemma LipschitzStep(y: real, z: real, c: real, p: real, q: real, d: real)
    requires 0.0 <= z <= 1.0 && 0.0 < c <= 0.5 && 0.0 <= p <= 1.0 && -d <= p - q <= d && -d <= y - z <= d
    ensures -d <= OneLess(y, c, p) - OneLess(z, c, q) <= d
  {
    var u := Times(z, q - p, d);
    var v := Times(p, z - y, d);
    ProductAtMost(c, u + v, 0.5, 2.0 * d);
    assert z * c * q - y * c * p == c * (u + v) by {
      assert u + v == z * q - y * p;
    }
  }

  lemma Times(x: real, y: real, d: real) returns (v: real)
    requires 0.0 <= x <= 1.0 && -d <= y <= d
    ensures v == x * y && -d <= v <= d
  {
    v := x * y;
    ProductAtMost(x, y, 1.0, d);
  }

  /** A small change of the angle changes sine and cosine little. */
  lemma SmallChange(s: real, t: real, n: nat, d: real)
    requires -1.0 <= s <= 1.0 && -1.0 <= t <= 1.0 && -d <= s - t <= d
    ensures -3.0 * d <= Sin(s, n) - Sin(t, n) <= 3.0 * d
    ensures -2.0 * d <= Cos(s, n) - Cos(t, n) <= 2.0 * d
  {
    var y, z := s * s, t * t;
    Square(s);
    Square(t);
    SquaresApart(s, t, d);
    NestedLipschitz(y, z, 0, n, 2.0 * d);
    NestedLipschitz(y, z, 1, n, 2.0 * d);
    NestedRange(y, 1, n);
    var p, q := Nested(y, 1, n), Nested(z, 1, n);
    assert Sin(s, n) == s * p && Sin(t, n) == t * q;
    SinChange(s, t, p, q, d);
  }

  lemma SinChange(s: real, t: real, p: real, q: real, d: real)
    requires -1.0 <= t <= 1.0 && 0.0 <= p <= 1.0 && -d <= s - t <= d && -2.0 * d <= p - q <= 2.0 * d
    ensures -3.0 * d <= s * p - t * q <= 3.0 * d
  {
    ProductAtMost(p, s - t, 1.0, d);
    if t >= 0.0 {
      ProductAtMost(t, p - q, 1.0, 2.0 * d);
    } else {
      ProductAtMost(-t, p - q, 1.0, 2.0 * d);
    }
    assert s * p - t * q == p * (s - t) + t * (p - q);
  }

  lemma Square(t: real)
    requires -1.0 <= t <= 1.0
    ensures 0.0 <= t * t <= 1.0
  {
    if t >= 0.0 {
      ProductAtMost(t, t, 1.0, 1.0);
    } else {
      ProductAtMost(-t, t, 1.0, 1.0);
    }
  }

  lemma SquaresApart(s: real, t: real, d: real)
    requires -1.0 <= s <= 1.0 && -1.0 <= t <= 1.0 && -d <= s - t <= d
    ensures -2.0 * d <= s * s - t * t <= 2.0 * d
  {
    var a, b := s + t, s - t;
    assert s * s - t * t == a * b;
    if a >= 0.0 {
      ProductAtMost(a, b, 2.0, d);
    } else {
      ProductAtMost(-a, b, 2.0, d);
    }
  }
}
