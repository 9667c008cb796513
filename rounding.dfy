/**
 * Python `round(x, 2)` on exact reals: the nearest multiple of 0.01, ties to
 * the even multiple (banker's rounding, as Python's round does).
 */
module Rounding {

  /** The integer nearest to y, ties to even. */
  function RoundHalfEven(y: real): (n: int)
    ensures y - 0.5 <= n as real <= y + 0.5
    ensures n as real - y == 0.5 || y - n as real == 0.5 ==> n % 2 == 0
  {
    var f := y.Floor;
    var d := y - f as real;
    if d < 0.5 then f
    else if d > 0.5 then f + 1
    else if f % 2 == 0 then f
    else f + 1
  }

  /** `round(x, 2)`. */
  function Round2(x: real): (r: real)
    ensures (r * 100.0).Floor as real == r * 100.0
    ensures x - 0.005 <= r <= x + 0.005
  {
    RoundHalfEven(x * 100.0) as real / 100.0
  }

  /** Rounding an already rounded value changes nothing. */
  lemma Round2Idempotent(x: real)
    ensures Round2(Round2(x)) == Round2(x)
  {
    var n := RoundHalfEven(x * 100.0);
    assert Round2(x) * 100.0 == n as real;
    assert (n as real).Floor == n;
  }

  /** Ties go to the even neighbour: 0.125 rounds down to 0.12 and 0.135 up to 0.14. */
  lemma Round2Ties()
    ensures Round2(0.125) == 0.12
    ensures Round2(0.135) == 0.14
  {
    assert (12.5).Floor == 12;
    assert (13.5).Floor == 13;
  }
}
