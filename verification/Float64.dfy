/** Rounding of non-negative reals to IEEE 754 binary64 (round to nearest, ties to even), on the
    range where neither underflow nor overflow occurs. */
module Float64 {

  const P52: real := 4503599627370496.0
  const P53: real := 9007199254740992.0

  /** The nearest integer, ties to the even one. */
  function RoundHalfEven(q: real): (n: int)
    ensures -0.5 <= n as real - q <= 0.5
    ensures n as real - q == 0.5 || n as real - q == -0.5 ==> n % 2 == 0
  {
    var f := q.Floor;
    var d := q - f as real;
    if d < 0.5 || (d == 0.5 && f % 2 == 0) then f else f + 1
  }

  lemma {:induction false} RoundHalfEvenMonotone(p: real, q: real)
    requires p <= q
    ensures RoundHalfEven(p) <= RoundHalfEven(q)
  {
  }

  lemma {:induction false} HalveDouble(x: real)
    requires x > 0.0
    ensures P52 / (2.0 * x) == (P52 / x) / 2.0
    ensures x < P52 ==> P52 / x > 1.0
  {
    var z := P52 / x;
    assert z * x == P52;
    assert (z / 2.0) * (2.0 * x) == P52;
    assert (z - 1.0) * x == P52 - x;
  }

  /** How many doublings or halvings bring `x` into [2^52, 2^53), bounded. */
  ghost function Distance(x: real): nat
    requires x >= 0.0
  {
    if x >= P53 then x.Floor
    else if x == 0.0 || x >= P52 then 0
    else HalveDouble(x); (P52 / x).Floor
  }

  lemma {:induction false} DistanceShrinks(x: real)
    requires x > 0.0
    ensures x >= P53 ==> Distance(x / 2.0) < Distance(x)
    ensures x < P52 ==> Distance(2.0 * x) < Distance(x)
  {
    HalveDouble(x);
    if x < P52 {
      var z := P52 / x;
      assert (z / 2.0).Floor < z.Floor;
    }
  }

  /** The binary64 value of `x`: doubles in [2^52, 2^53) are the integers, and doubling or halving
      moves between binades without changing the significand. */
  function Round(x: real): (r: real)
    requires x >= 0.0
    ensures r >= 0.0
    decreases Distance(x)
  {
    if x == 0.0 then 0.0
    else if x >= P53 then DistanceShrinks(x); 2.0 * Round(x / 2.0)
    else if x < P52 then DistanceShrinks(x); Round(2.0 * x) / 2.0
    else RoundHalfEven(x) as real
  }

  ghost function Pow2(j: int): real
    decreases if j < 0 then -j else j
  {
    if j == 0 then 1.0 else if j > 0 then 2.0 * Pow2(j - 1) else Pow2(j + 1) / 2.0
  }

  lemma {:induction false} Pow2Signs(j: int)
    ensures j <= 0 ==> 0.0 < Pow2(j) <= 1.0
    ensures j >= 0 ==> Pow2(j) >= 1.0
    ensures j < 0 ==> Pow2(j) <= 0.5
    ensures Pow2(j + 1) == 2.0 * Pow2(j)
    decreases if j < 0 then -j else j
  {
    if j < 0 { Pow2Signs(j + 1); }
    if j > 0 { Pow2Signs(j - 1); }
  }

  /** The rounding error is at most half a unit in the last place of the binade bound. */
  lemma {:induction false} RoundingError(x: real, j: int)
    requires 0.0 <= x < P53 * Pow2(j)
    ensures -Pow2(j) / 2.0 <= Round(x) - x <= Pow2(j) / 2.0
    decreases Distance(x)
  {
    Pow2Signs(j);
    if x >= P53 {
      assert j >= 1;
      Pow2Signs(j - 1);
      DistanceShrinks(x);
      RoundingError(x / 2.0, j - 1);
    } else if 0.0 < x < P52 {
      DistanceShrinks(x);
      RoundingError(2.0 * x, j + 1);
    } else if x >= P52 {
      assert j >= 0;
    }
  }

  lemma {:induction false} Between(m: real, h: real)
    requires P52 <= m < P53 && h > 0.0
    ensures P52 * h <= m * h < P53 * h
  {
  }

  /** Scaled by `h`, rounding is rounding to a multiple of `h`. */
  ghost predicate RoundsToMultiple(m: real, h: real) {
    m * h >= 0.0 && Round(m * h) == h * RoundHalfEven(m) as real
  }

  lemma {:induction false} NextBinade(m: real, h: real)
    requires P52 <= m < P53 && h >= 1.0 && RoundsToMultiple(m, h)
    ensures RoundsToMultiple(m, 2.0 * h)
  {
    Between(m, h);
    var x, n := m * (2.0 * h), RoundHalfEven(m) as real;
    assert x / 2.0 == m * h;
    assert Round(x) == 2.0 * Round(x / 2.0);
    assert 2.0 * (h * n) == (2.0 * h) * n;
  }

  lemma {:induction false} PreviousBinade(m: real, h: real)
    requires P52 <= m < P53 && 0.0 < h <= 1.0 && RoundsToMultiple(m, h)
    ensures RoundsToMultiple(m, h / 2.0)
  {
    Between(m, h);
    var x, n := m * (h / 2.0), RoundHalfEven(m) as real;
    assert 2.0 * x == m * h;
    assert Round(x) == Round(2.0 * x) / 2.0;
    assert (h * n) / 2.0 == (h / 2.0) * n;
  }

  /** In the binade of 2^(52+j) the doubles are the multiples of 2^j, and rounding picks the nearest. */
  lemma {:induction false} RoundInBinade(m: real, j: int)
    requires P52 <= m < P53
    ensures RoundsToMultiple(m, Pow2(j))
    decreases if j < 0 then -j else j
  {
    if j > 0 {
      RoundInBinade(m, j - 1);
      Pow2Signs(j - 1);
      NextBinade(m, Pow2(j - 1));
    } else if j < 0 {
      RoundInBinade(m, j + 1);
      Pow2Signs(j + 1);
      PreviousBinade(m, Pow2(j + 1));
    } else {
      assert m * 1.0 == m;
    }
  }

  lemma {:induction false} StaysAbove(x: real)
    requires x >= P52
    ensures Round(x) >= P52
    decreases Distance(x)
  {
    if x >= P53 {
      DistanceShrinks(x);
      StaysAbove(x / 2.0);
    } else {
      RoundHalfEvenMonotone(P52, x);
      assert RoundHalfEven(P52) == 4503599627370496;
    }
  }

  lemma {:induction false} StaysBelow(x: real)
    requires 0.0 <= x <= P53
    ensures Round(x) <= P53
    decreases Distance(x)
  {
    if x == P53 {
      DistanceShrinks(x);
      assert Round(P52) == P52 by { assert RoundHalfEven(P52) == 4503599627370496; }
    } else if 0.0 < x < P52 {
      DistanceShrinks(x);
      StaysBelow(2.0 * x);
    } else if x >= P52 {
      RoundHalfEvenMonotone(x, P53);
      assert RoundHalfEven(P53) == 9007199254740992;
    }
  }

  lemma {:induction false} RoundMonotone(x: real, y: real)
    requires 0.0 <= x <= y
    ensures Round(x) <= Round(y)
    decreases Distance(x) + Distance(y)
  {
    if x == 0.0 || x == y {
    } else if x >= P53 {
      DistanceShrinks(x);
      DistanceShrinks(y);
      RoundMonotone(x / 2.0, y / 2.0);
    } else if y < P52 {
      DistanceShrinks(x);
      DistanceShrinks(y);
      RoundMonotone(2.0 * x, 2.0 * y);
    } else if x < P52 {
      DistanceShrinks(x);
      StaysBelow(2.0 * x);
      StaysAbove(y);
    } else if y >= P53 {
      StaysBelow(x);
      DistanceShrinks(y);
      StaysAbove(y / 2.0);
    } else {
      RoundHalfEvenMonotone(x, y);
    }
  }
}
