/** Fixed-point arithmetic of the sensor path (controller/src/utils.c).

    C's integer widths are subset types of `int`; a narrowing cast is written out
    as a two's-complement wrap, and an arithmetic right shift by 15 is the floor
    division by 32768 (Dafny's `/` with a positive divisor). */
module FixedPoint {

  type int16 = x: int | -0x8000 <= x <= 0x7fff
  type uint16 = x: int | 0 <= x <= 0xffff
  type int32 = x: int | -0x8000_0000 <= x <= 0x7fff_ffff
  type uint32 = x: int | 0 <= x <= 0xffff_ffff

  const Q15_ONE := 32768
  const Q15_MAX := 32767

  /** The smoothing factors that `FloatToQ15` can produce. */
  type Alpha = a: int | 1 <= a <= Q15_MAX witness 1

  function WrapI16(v: int): int16 {
    (v + 0x8000) % 0x1_0000 - 0x8000
  }

  function WrapI32(v: int): int32 {
    (v + 0x8000_0000) % 0x1_0000_0000 - 0x8000_0000
  }

  function Min(x: int, y: int): int {
    if x < y then x else y
  }

  function Max(x: int, y: int): int {
    if x < y then y else x
  }

  function Abs(x: int): nat {
    if x < 0 then -x else x
  }

  /** C's division, which truncates toward zero. */
  function TruncDiv(n: int, d: int): int
    requires d != 0
  {
    if d > 0 then
      if n >= 0 then n / d else -(-n / d)
    else
      if n >= 0 then -(n / -d) else -n / -d
  }

  function ClampI32(v: int32, min: int32, max: int32): (r: int32)
    ensures min <= max ==> min <= r <= max
    ensures min <= v <= max ==> r == v
    ensures min <= max ==> (v > max ==> r == max) && (v < min ==> r == min)
  {
    if v > max then max else if v < min then min else v
  }

  function ClampI16(v: int32): (r: int16)
    ensures -0x8000 <= v <= 0x7fff ==> r == v
    ensures (v > 0x7fff ==> r == 0x7fff) && (v < -0x8000 ==> r == -0x8000)
  {
    ClampI32(v, -0x8000, 0x7fff)
  }

  /** The real-valued smoothing factor as a Q15 integer. */
  function FloatToQ15(v: real): (r: Alpha)
    ensures v * 32768.0 < 1.5 ==> r == 1
    ensures v * 32768.0 >= 32766.5 ==> r == Q15_MAX
    ensures 0.5 <= v * 32768.0 < 32767.5 ==> -0.5 <= v * 32768.0 - r as real < 0.5
  {
    if v <= 0.0 then 1
    else if v >= 1.0 then Q15_MAX
    else
      var q := (v * 32768.0 + 0.5).Floor;
      if q < 1 then 1 else if q > Q15_MAX then Q15_MAX else q
  }

  lemma FloatToQ15Monotone(v: real, w: real)
    requires v <= w
    ensures FloatToQ15(v) <= FloatToQ15(w)
  {
    assert (v * 32768.0 + 0.5).Floor <= (w * 32768.0 + 0.5).Floor;
  }

  /** The Q15 blend before the narrowing cast and the clamp. */
  function BlendUnclamped(cur: int16, raw: int16, alpha: uint32): int {
    (raw * alpha + cur * (Q15_ONE - alpha)) / Q15_ONE
  }

  function EmaBlend(cur: int16, raw: int16, alpha: uint32): int16 {
    ClampI16(WrapI32(BlendUnclamped(cur, raw, alpha)))
  }

  /** What one blend does for every alpha up to 1.0: it moves `cur` by the floor of
      alpha/32768 times the distance to `raw`, and the cast and clamp do nothing. */
  lemma BlendMove(cur: int16, raw: int16, alpha: uint32)
    requires alpha <= Q15_ONE
    ensures EmaBlend(cur, raw, alpha) == BlendUnclamped(cur, raw, alpha)
    ensures EmaBlend(cur, raw, alpha) == cur + (alpha * (raw - cur)) / Q15_ONE
    ensures Min(cur, raw) <= EmaBlend(cur, raw, alpha) <= Max(cur, raw)
  {
    var d := raw - cur;
    var move := (alpha * d) / Q15_ONE;
    assert raw * alpha + cur * (Q15_ONE - alpha) == alpha * d + cur * Q15_ONE;
    assert BlendUnclamped(cur, raw, alpha) == cur + move;
    MoveWithin(alpha, d);
  }

  lemma MoveWithin(alpha: uint32, d: int)
    requires alpha <= Q15_ONE
    ensures d >= 0 ==> 0 <= (alpha * d) / Q15_ONE <= d
    ensures d <= 0 ==> d <= (alpha * d) / Q15_ONE <= 0
  {
    if d >= 0 {
      assert 0 <= alpha * d <= Q15_ONE * d;
    } else {
      assert Q15_ONE * d <= alpha * d <= 0;
    }
  }

  /** The clamp is idle on every input exactly for the factors up to 1.0. */
  lemma ClampIdleExactly(alpha: uint32)
    ensures alpha <= Q15_ONE <==>
            forall cur: int16, raw: int16 :: EmaBlend(cur, raw, alpha) == BlendUnclamped(cur, raw, alpha)
  {
    if alpha <= Q15_ONE {
      forall cur: int16, raw: int16
        ensures EmaBlend(cur, raw, alpha) == BlendUnclamped(cur, raw, alpha)
      {
        BlendMove(cur, raw, alpha);
      }
    } else {
      assert BlendUnclamped(-0x8000, 0x7fff, alpha) > 0x7fff;
      assert EmaBlend(-0x8000, 0x7fff, alpha) <= 0x7fff;
    }
  }
}
