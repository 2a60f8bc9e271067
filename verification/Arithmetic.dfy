/** Facts about products and quotients that the solver does not find by itself. */
module Arithmetic {

  lemma MulCancel(x: int, y: int, d: int)
    requires d > 0
    ensures x < y <==> x * d < y * d
    ensures x <= y <==> x * d <= y * d
  {
    if x < y {
      assert (y - x) * d > 0;
    } else if y < x {
      assert (x - y) * d > 0;
    }
  }

  lemma MulLe(a: nat, b: nat, c: nat, d: nat)
    requires a <= b && c <= d
    ensures a * c <= b * d
  {
    assert a * c <= b * c;
    assert b * c <= b * d;
  }

  /** The quotient is below `m` exactly when the numerator is below `m * d`. */
  lemma DivBelow(n: int, d: int, m: int)
    requires d > 0
    ensures n / d < m <==> n < m * d
  {
    var q := n / d;
    assert q * d <= n < q * d + d;
    assert (q + 1) * d == q * d + d;
    MulCancel(m, q, d);
    MulCancel(q + 1, m, d);
  }

  lemma DivOrder(x: int, y: int, d: int)
    requires d > 0 && x <= y
    ensures x / d <= y / d
  {
    DivBelow(x, d, y / d + 1);
    DivBelow(y, d, y / d + 1);
  }

  lemma DivBounds(n: int, d: int)
    requires d > 0
    ensures (n / d) * d <= n < (n / d) * d + d
  {
  }

  lemma Distribute(x: int, y: int, d: int)
    ensures (x + y) * d == x * d + y * d
  {
  }

  /** Splitting `u + v` and scaling each part by avg/(u+v) with floors loses at most one. */
  lemma FloorsOfParts(u: nat, v: nat, avg: nat)
    requires u + v > 0
    ensures avg - 1 <= (u * avg) / (u + v) + (v * avg) / (u + v) <= avg
  {
    var d := u + v;
    var p, q := (u * avg) / d, (v * avg) / d;
    DivBounds(u * avg, d);
    DivBounds(v * avg, d);
    Distribute(u, v, avg);
    Distribute(p, q, d);
    Distribute(p + q, 2, d);
    MulCancel(p + q, avg, d);
    MulCancel(avg, p + q + 2, d);
  }

  lemma MultipleDivides(k: nat, d: nat)
    requires d > 0
    ensures (k * d) % d == 0 && (k * d) / d == k
  {
    DivBelow(k * d, d, k + 1);
    DivBelow(k * d, d, k);
    Distribute(k, 1, d);
  }
}
