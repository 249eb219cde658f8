/**
 * Amounts of money and NAVs are exact reals. `parseFloat(x.toFixed(k))` is
 * modelled as rounding the exact value to k decimal places, halves away from
 * zero; binary floating point is not modelled.
 */
module Money {
  import JsText

  /** 10^k as a real. */
  function Scale(k: nat): (s: real)
    ensures s >= 1.0
  {
    JsText.Pow10(k) as real
  }

  /** Rounding to a whole number, halves away from zero. */
  function RoundWhole(x: real): (r: real)
    ensures -0.5 <= r - x <= 0.5
  {
    if x >= 0.0 then (x + 0.5).Floor as real else -((-x + 0.5).Floor as real)
  }

  /**
   * `parseFloat(x.toFixed(k))` on an exact real: x * 10^k rounded to a
   * whole number, over 10^k, written one decimal place at a time.
   */
  function RoundTo(x: real, k: nat): (r: real)
    ensures -0.5 / Scale(k) <= r - x <= 0.5 / Scale(k)
    decreases k
  {
    if k == 0 then RoundWhole(x)
    else
      var r := RoundTo(x * 10.0, k - 1) / 10.0;
      ShiftBound(x, r, Scale(k - 1));
      r
  }

  /** Rounding to cents moves a value by at most half a cent. */
  lemma RoundCents(x: real)
    ensures -0.005 <= RoundTo(x, 2) - x <= 0.005
  {
    assert Scale(2) == 100.0;
  }

  /** The step behind RoundTo's error bound: one decimal place more divides the error by 10. */
  lemma ShiftBound(x: real, r: real, s: real)
    requires s >= 1.0 && -0.5 / s <= r * 10.0 - x * 10.0 <= 0.5 / s
    ensures -0.5 / (10.0 * s) <= r - x <= 0.5 / (10.0 * s)
  {
    var h := 0.5 / s;
    assert r * 10.0 - x * 10.0 == (r - x) * 10.0;
    assert 0.5 / (10.0 * s) == h / 10.0;
  }

  /** Rounding a difference and taking the difference of rounded values differ by at most 1.5 units of the last place. */
  lemma RoundedDifference(a: real, b: real, k: nat)
    ensures -1.5 / Scale(k) <= RoundTo(a - b, k) - (RoundTo(a, k) - RoundTo(b, k)) <= 1.5 / Scale(k)
  {
    Triangle(a, b, RoundTo(a - b, k), RoundTo(a, k), RoundTo(b, k), Scale(k));
  }

  lemma Triangle(a: real, b: real, d: real, ra: real, rb: real, s: real)
    requires s >= 1.0
    requires -0.5 / s <= d - (a - b) <= 0.5 / s
    requires -0.5 / s <= ra - a <= 0.5 / s
    requires -0.5 / s <= rb - b <= 0.5 / s
    ensures -1.5 / s <= d - (ra - rb) <= 1.5 / s
  {
    var h := 0.5 / s;
    assert -0.5 / s == -h;
    assert 1.5 / s == 3.0 * h by {
      assert h * s == 0.5;
      assert (1.5 / s) * s == 1.5;
    }
    assert -1.5 / s == -(3.0 * h);
  }
}
