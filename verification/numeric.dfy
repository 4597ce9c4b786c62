/** The numeric conversions of Python that the scripts rely on, on exact reals. */
module Numeric {

  /** `round(x)` on a Python float: the nearest integer, ties to the even one. */
  function RoundHalfEven(x: real): int
  {
    var f := x.Floor;
    var d := x - f as real;
    if d < 0.5 then f
    else if d > 0.5 then f + 1
    else if f % 2 == 0 then f
    else f + 1
  }

  /** Rounding picks an integer at most half away, the even one on a tie. */
  lemma RoundHalfEvenNearest(x: real)
    ensures -0.5 <= RoundHalfEven(x) as real - x <= 0.5
    ensures (RoundHalfEven(x) as real - x == 0.5 || x - RoundHalfEven(x) as real == 0.5) ==> RoundHalfEven(x) % 2 == 0
  {
  }

  /** Rounding never leaves an integer interval that holds its argument. */
  lemma RoundWithin(x: real, lo: int, hi: int)
    requires lo as real <= x <= hi as real
    ensures lo <= RoundHalfEven(x) <= hi
  {
    RoundHalfEvenNearest(x);
  }

  /** `int(x)` on a Python float: truncation toward zero. */
  function Trunc(x: real): (n: int)
    ensures x >= 0.0 ==> 0 <= n && n as real <= x < n as real + 1.0
    ensures x < 0.0 ==> n <= 0 && n as real - 1.0 < x <= n as real
  {
    if x >= 0.0 then x.Floor else -((-x).Floor)
  }

  /** The number of loop iterations of `range(1, n + 1)`. */
  function NonNeg(n: int): nat
  {
    if n < 0 then 0 else n
  }

  function Min(a: real, b: real): real
  {
    if a <= b then a else b
  }

  function Pow(b: real, k: nat): real
  {
    if k == 0 then 1.0 else b * Pow(b, k - 1)
  }

  lemma ProductNonNeg(a: real, b: real)
    requires a >= 0.0 && b >= 0.0
    ensures a * b >= 0.0
  {
  }

  /** A fraction in [0, 1] of a non-negative amount lies between 0 and the amount. */
  lemma FractionWithin(a: real, f: real)
    requires a >= 0.0 && 0.0 <= f <= 1.0
    ensures 0.0 <= a * f <= a
  {
    assert a * f <= a * 1.0;
  }
}
