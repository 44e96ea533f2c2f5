/** Number helpers shared by the scorers. JavaScript numbers are modelled as
    exact reals; `Math.round(x * 100) / 100` and `x.toFixed(2)` both become
    RoundCents (for the non-negative values the scorers produce the two
    agree, apart from IEEE-754 representation effects). */
module Numeric {

  /** A JavaScript number where the scorers can meet `NaN` (from `0 / 0`);
      every other value is an exact real. */
  datatype JsNum = Num(value: real) | NaN
  {
    /** `a + b`: `NaN` absorbs every sum. */
    function Plus(other: JsNum): JsNum
    {
      if this.Num? && other.Num? then Num(this.value + other.value) else NaN
    }
  }

  function MinReal(a: real, b: real): real
  {
    if a <= b then a else b
  }

  /** `Math.round(x * 100) / 100`: `Math.round` rounds halves up, so this is
      floor(100x + 1/2) / 100. The result is the nearest multiple of 0.01,
      with a tie going up. */
  function RoundCents(x: real): (r: real)
    ensures x - 1.0 / 200.0 < r <= x + 1.0 / 200.0
    ensures (r * 100.0).Floor as real == r * 100.0
  {
    var cents := (x * 100.0 + 0.5).Floor;
    assert cents as real / 100.0 * 100.0 == cents as real;
    cents as real / 100.0
  }

  /** Rounding to cents keeps a value inside a range whose ends are whole cents. */
  lemma RoundCentsWithin(x: real, lo: int, hi: int)
    requires lo as real <= x <= hi as real
    ensures lo as real <= RoundCents(x) <= hi as real
  {
    var cents := (x * 100.0 + 0.5).Floor;
    assert cents >= lo * 100;
    assert cents <= hi * 100;
  }

  /** `Math.pow(b, n)` for a natural exponent. */
  function Pow(b: real, n: nat): (r: real)
    ensures 0.0 < b <= 1.0 ==> 0.0 < r <= 1.0
  {
    if n == 0 then 1.0
    else
      var rest := Pow(b, n - 1);
      assert 0.0 < b <= 1.0 ==> b * rest <= 1.0 * rest;
      b * rest
  }

  /** `Math.ceil(n / d)` for naturals: the least q with q * d >= n. */
  function CeilDiv(n: nat, d: nat): (q: nat)
    requires d > 0
    ensures q * d >= n
    ensures q == 0 || (q - 1) * d < n
  {
    (n + d - 1) / d
  }

  /** Dividing by a positive `d` keeps a bound that holds for the multiple: `x <= c * d` gives `x / d <= c`. */
  lemma DivBound(x: real, d: real, c: real)
    requires d > 0.0 && 0.0 <= x <= c * d
    ensures 0.0 <= x / d <= c
  {
    var q := x / d;
    assert q * d == x;
    if q > c {
      assert q * d > c * d;
    }
  }

  /** A product of two fractions in [0, 1], as a percentage, lies within [0, 100]. */
  lemma UnitProductBound(w: real, p: real)
    requires 0.0 <= w <= 1.0 && 0.0 <= p <= 1.0
    ensures 0.0 <= w * p * 100.0 <= 100.0
  {
    MulNonneg(w, p);
    MulLeRight(w, 1.0, p);
    var q := w * p;
    assert 0.0 <= q <= 1.0;
    assert w * p * 100.0 == q * 100.0;
  }

  lemma MulNonneg(a: real, b: real)
    requires a >= 0.0 && b >= 0.0
    ensures a * b >= 0.0
  {
  }

  /** Multiplying by a non-negative factor keeps an inequality. */
  lemma MulLeRight(a: real, b: real, c: real)
    requires a <= b && c >= 0.0
    ensures a * c <= b * c
  {
    MulNonneg(b - a, c);
    assert b * c - a * c == (b - a) * c;
  }

  /** Dividing by a positive number keeps a strict inequality. */
  lemma DivStrictMono(a: real, b: real, d: real)
    requires d > 0.0 && a > b
    ensures a / d > b / d
  {
    var q := a / d - b / d;
    assert q * d == a - b;
    if q <= 0.0 {
      MulLeRight(q, 0.0, d);
    }
  }

  /** A positive number divided by itself is 1. */
  lemma DivSelf(t: real)
    requires t > 0.0
    ensures t / t == 1.0
  {
  }

  /** A ratio of naturals is non-negative, and at most 1 when the numerator does not exceed the denominator. */
  lemma RatioBounds(m: nat, d: nat)
    requires d > 0
    ensures 0.0 <= m as real / d as real
    ensures m <= d ==> m as real / d as real <= 1.0
  {
    DivBound(m as real, d as real, m as real);
    if m <= d {
      DivBound(m as real, d as real, 1.0);
    }
  }
}
