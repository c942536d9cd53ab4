/** Arithmetic that several codecs and numberings share. */
module Arithmetic {

  function Power(n: nat): (p: nat)
    ensures p > 0
  {
    if n == 0 then 1 else 2 * Power(n - 1)
  }

  lemma {:induction false} PowerSum(a: nat, b: nat)
    ensures Power(a + b) == Power(a) * Power(b)
  {
    if a > 0 {
      PowerSum(a - 1, b);
      assert Power(a + b) == 2 * (Power(a - 1) * Power(b));
    }
  }

  lemma Monotone(a: int, b: int, d: int)
    requires a <= b && d >= 0
    ensures a * d <= b * d
  {
  }

  /** Division and remainder are determined. */
  lemma Divides(x: int, q: int, d: int, r: int)
    requires d > 0 && 0 <= r < d && x == q * d + r
    ensures x / d == q && x % d == r
  {
    var e := x / d - q;
    assert x == (x / d) * d + x % d;
    assert e * d == r - x % d;
    if e > 0 {
      Monotone(1, e, d);
    } else if e < 0 {
      Monotone(e, -1, d);
    }
  }

  lemma Below(q: int, d: int, bound: int, r: int)
    requires 0 <= q < bound && 0 <= r < d
    ensures 0 <= q * d + r < bound * d
  {
    Monotone(q, bound - 1, d);
    Monotone(0, q, d);
  }

  lemma DividedBelow(x: int, d: int, bound: int)
    requires d > 0 && 0 <= x < bound * d
    ensures 0 <= x / d < bound
  {
    var q := x / d;
    assert x == q * d + x % d;
    if q >= bound {
      Monotone(bound, q, d);
    }
    if q < 0 {
      Monotone(q, -1, d);
    }
  }
}
