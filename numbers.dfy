/** Integer renderings of the source's floating-point arithmetic. */
module Numbers {

  function Min(a: int, b: int): int
  {
    if a <= b then a else b
  }

  function Max(a: int, b: int): int
  {
    if a >= b then a else b
  }

  function Abs(a: int): nat
  {
    if a < 0 then -a else a
  }

  /** `Math.round(a / b)` for `b > 0`: the integer nearest to a/b, halves
      rounded up, that is floor(a/b + 1/2). */
  function RoundDiv(a: int, b: int): (r: int)
    requires b > 0
    ensures 2 * a - b < 2 * b * r <= 2 * a + b
  {
    var q := (2 * a + b) / (2 * b);
    assert 2 * a + b == q * (2 * b) + (2 * a + b) % (2 * b);
    q
  }

  /** Dividing by one rounds nothing. */
  lemma RoundDivOne(a: int)
    ensures RoundDiv(a, 1) == a
  {
    var r := RoundDiv(a, 1);
    assert 2 * a - 1 < 2 * r <= 2 * a + 1;
  }

  /** A share `c` of a total `t`, scaled to `scale`, rounds into 0..scale. */
  lemma RoundDivShareBounds(c: int, t: int, scale: nat)
    requires 0 <= c <= t && t > 0
    ensures 0 <= RoundDiv(scale * c, t) <= scale
  {
    var r := RoundDiv(scale * c, t);
    assert scale * c <= scale * t by { MulLeft(scale, c, t); }
    if r < 0 {
      assert 2 * t * r <= -2 * t by { MulLeft(2 * t, r, -1); }
    }
    if r > scale {
      assert 2 * t * r >= 2 * t * (scale + 1) by { MulLeft(2 * t, scale + 1, r); }
    }
  }

  /** Rounding is monotone in the numerator. */
  lemma RoundDivMonotone(a1: int, a2: int, b: int)
    requires a1 <= a2 && b > 0
    ensures RoundDiv(a1, b) <= RoundDiv(a2, b)
  {
    var r1, r2 := RoundDiv(a1, b), RoundDiv(a2, b);
    if r1 > r2 {
      assert 2 * b * r1 >= 2 * b * (r2 + 1) by { MulLeft(2 * b, r2 + 1, r1); }
    }
  }

  lemma MulLeft(k: nat, x: int, y: int)
    requires x <= y
    ensures k * x <= k * y
  {
    assert k * y - k * x == k * (y - x);
  }
}
