/**
 * `Math.round` applied to a quotient of integers, computed exactly.  JavaScript
 * rounds halves up (towards +infinity); dividing by zero gives `NaN` or an
 * infinity, which `Math.round` passes through.
 */
module JsMath {

  /** `Math.round(p / q)` for `q > 0`: the nearest integer, halves rounded up. */
  function RoundDiv(p: int, q: int): (r: int)
    requires q > 0
    ensures 2 * q * r - q <= 2 * p < 2 * q * r + q
  {
    var r := (2 * p + q) / (2 * q);
    DivBounds(2 * p + q, 2 * q, r);
    r
  }

  lemma DivBounds(a: int, b: int, r: int)
    requires b > 0 && r == a / b
    ensures b * r <= a < b * r + b
  {
  }

  /** Between two different multiples of `2q` lie at least `2q`. */
  lemma MulStep(q: int, a: int, b: int)
    requires q > 0 && a < b
    ensures 2 * q * a + 2 * q <= 2 * q * b
  {
    var d := b - a - 1;
    assert q * d >= 0;
    assert 2 * q * b == 2 * q * a + 2 * q + 2 * q * d;
  }

  /** `Math.round(x)` is the only integer within half a unit below and less than half a unit above `x`. */
  lemma RoundDivUnique(p: int, q: int, k: int)
    requires q > 0
    requires 2 * q * k - q <= 2 * p < 2 * q * k + q
    ensures k == RoundDiv(p, q)
  {
    var r := RoundDiv(p, q);
    if k < r {
      MulStep(q, k, r);
    } else if k > r {
      MulStep(q, r, k);
    }
  }

  /** `Math.round(p / q)` when both are integers and `q` may be zero. */
  datatype Rounded = Finite(value: int) | NaN | Infinity | NegativeInfinity

  /** `Math.round(p / q * 100)`: a percentage, or what JavaScript yields for a zero divisor. */
  function RoundedPercent(p: int, q: int): (r: Rounded)
    ensures q != 0 <==> r.Finite?
    ensures q == 0 ==> r == if p > 0 then Infinity else if p < 0 then NegativeInfinity else NaN
    ensures q > 0 ==> r == Finite(RoundDiv(100 * p, q))
    ensures q < 0 ==> r == Finite(RoundDiv(-100 * p, -q))
  {
    if q > 0 then Finite(RoundDiv(100 * p, q))
    else if q < 0 then Finite(RoundDiv(-100 * p, -q))
    else if p > 0 then Infinity
    else if p < 0 then NegativeInfinity
    else NaN
  }

  /** A part of a whole rounds to a percentage between 0 and 100. */
  lemma PercentInRange(p: int, q: int)
    requires 0 <= p <= q && q > 0
    ensures 0 <= RoundDiv(100 * p, q) <= 100
  {
    var r := RoundDiv(100 * p, q);
    if r < 0 {
      MulStep(q, r, 0);
    } else if r > 100 {
      MulStep(q, 100, r);
    }
  }

  /** Rounding a quotient is monotone in the dividend. */
  lemma RoundDivMonotone(p1: int, p2: int, q: int)
    requires q > 0 && p1 <= p2
    ensures RoundDiv(p1, q) <= RoundDiv(p2, q)
  {
    var r1, r2 := RoundDiv(p1, q), RoundDiv(p2, q);
    if r1 > r2 {
      MulStep(q, r2, r1);
    }
  }
}
