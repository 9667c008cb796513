/**
 * The TSYS01 temperature polynomial of the TE TSYS01 datasheet, over exact
 * reals: with x = adc24 / 256 and calibration words k0..k4,
 *   T = -2 k4 10^-21 x^4 + 4 k3 10^-16 x^3 - 2 k2 10^-11 x^2 + k1 10^-6 x - 1.5 k0 10^-2
 * in degrees Celsius.
 */
module Conversion {

  /** 10 to the power n. */
  function TenTo(n: nat): (r: real)
    ensures r >= 1.0
  {
    if n == 0 then 1.0 else 10.0 * TenTo(n - 1)
  }

  /** Powers of ten multiply by adding exponents. */
  lemma {:induction false} TenToAdd(a: nat, b: nat)
    ensures TenTo(a + b) == TenTo(a) * TenTo(b)
  {
    if b > 0 {
      TenToAdd(a, b - 1);
      assert TenTo(a + b) == 10.0 * TenTo(a + b - 1);
    }
  }

  /** Python `x**n` for a natural exponent. */
  function Power(x: real, n: nat): real
  {
    if n == 0 then 1.0 else x * Power(x, n - 1)
  }

  // The powers of ten the driver writes as 10**-21, 10**-16, 10**-11, 10**-6 and 10**-2.
  const E21: real := 1_000_000_000_000_000_000_000.0
  const E16: real := 10_000_000_000_000_000.0
  const E11: real := 100_000_000_000.0
  const E6: real := 1_000_000.0
  const E2: real := 100.0

  /**
   * The polynomial as the driver writes it (highest order first). Only the
   * first five calibration words are used; the driver indexes k[0]..k[4].
   */
  function AdcToCelsius(k: seq<int>, adc24: int): real
    requires |k| >= 5
  {
    var x := adc24 as real / 256.0;
    -2.0 * k[4] as real / E21 * Power(x, 4)
    + 4.0 * k[3] as real / E16 * Power(x, 3)
    + -2.0 * k[2] as real / E11 * Power(x, 2)
    + 1.0 * k[1] as real / E6 * x
    + -1.5 * k[0] as real / E2
  }

  /** The factor and the negated power of ten of term i in the datasheet's table. */
  const Factors: seq<real> := [-1.5, 1.0, -2.0, 4.0, -2.0]
  const Exponents: seq<nat> := [2, 6, 11, 16, 21]

  /** Reference form: the sum over i < n of Factors[i] * k[i] * 10^-Exponents[i] * x^i. */
  function TableSum(k: seq<int>, x: real, n: nat): real
    requires n <= 5 && n <= |k|
  {
    if n == 0 then 0.0
    else TableSum(k, x, n - 1)
         + Factors[n - 1] * k[n - 1] as real / TenTo(Exponents[n - 1]) * Power(x, n - 1)
  }

  /** Term i of the table is the driver's term of order i. */
  lemma TableSumLow(k: seq<int>, x: real)
    requires |k| >= 5
    ensures TableSum(k, x, 2) == -1.5 * k[0] as real / E2 + 1.0 * k[1] as real / E6 * x
  {
    assert TenTo(2) == E2 && TenTo(6) == E6;
    assert Power(x, 0) == 1.0 && Power(x, 1) == x;
    assert TableSum(k, x, 1) == -1.5 * k[0] as real / E2;
  }

  lemma TableSumSquare(k: seq<int>, x: real)
    requires |k| >= 5
    ensures TableSum(k, x, 3) == TableSum(k, x, 2) + -2.0 * k[2] as real / E11 * Power(x, 2)
  {
    assert TenTo(11) == E11;
  }

  lemma TableSumCube(k: seq<int>, x: real)
    requires |k| >= 5
    ensures TableSum(k, x, 4) == TableSum(k, x, 3) + 4.0 * k[3] as real / E16 * Power(x, 3)
  {
    TenToAdd(11, 5);
    assert TenTo(11) == E11;
  }

  lemma TableSumQuartic(k: seq<int>, x: real)
    requires |k| >= 5
    ensures TableSum(k, x, 5) == TableSum(k, x, 4) + -2.0 * k[4] as real / E21 * Power(x, 4)
  {
    TenToAdd(11, 10);
    TenToAdd(5, 5);
    assert TenTo(11) == E11;
    assert TenTo(5) == 100_000.0;
  }

  /**
   * Coefficient k_i multiplies exactly the term of order i, with the
   * datasheet's factor and scaling exponent: the driver's written-out
   * polynomial is the table sum evaluated at adc24 / 256.
   */
  lemma {:induction false} AdcToCelsiusIsTableSum(k: seq<int>, adc24: int)
    requires |k| >= 5
    ensures AdcToCelsius(k, adc24) == TableSum(k, adc24 as real / 256.0, 5)
  {
    var x := adc24 as real / 256.0;
    var t0, t1 := -1.5 * k[0] as real / E2, 1.0 * k[1] as real / E6 * x;
    var t2 := -2.0 * k[2] as real / E11 * Power(x, 2);
    var t3 := 4.0 * k[3] as real / E16 * Power(x, 3);
    var t4 := -2.0 * k[4] as real / E21 * Power(x, 4);
    assert AdcToCelsius(k, adc24) == t4 + t3 + t2 + t1 + t0;
    TableSumLow(k, x);
    TableSumSquare(k, x);
    TableSumCube(k, x);
    TableSumQuartic(k, x);
    SumReversed(t0, t1, t2, t3, t4);
  }

  /** Addition of the five terms does not depend on their order. */
  lemma SumReversed(a: real, b: real, c: real, d: real, e: real)
    ensures e + d + c + b + a == a + b + c + d + e
  {
  }

  /** A raw reading of zero leaves only the constant term -1.5 * k0 / 100. */
  lemma AdcToCelsiusAtZero(k: seq<int>)
    requires |k| >= 5
    ensures AdcToCelsius(k, 0) == -3.0 * k[0] as real / 200.0
  {
  }
}
