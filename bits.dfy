/**
 * Python's bitwise operators on non-negative integers, defined bit by bit on
 * unbounded naturals, and the two facts the driver relies on: masking with
 * 2^k - 1 keeps the low k bits, and OR-ing a value shifted past the bits of
 * another is addition.
 */
module Bits {

  /** 2 to the power n. */
  function Pow2(n: nat): (r: nat)
    ensures r >= 1
  {
    if n == 0 then 1 else 2 * Pow2(n - 1)
  }

  /** Python `a & b`: bitwise AND, least significant bit first. */
  function And(a: nat, b: nat): (r: nat)
    ensures r <= a && r <= b
    decreases a
  {
    if a == 0 || b == 0 then 0
    else 2 * And(a / 2, b / 2) + (if a % 2 == 1 && b % 2 == 1 then 1 else 0)
  }

  /** Python `a | b`: bitwise OR, least significant bit first. */
  function Or(a: nat, b: nat): (r: nat)
    ensures a <= r && b <= r && r <= a + b
    decreases a + b
  {
    if a == 0 then b
    else if b == 0 then a
    else 2 * Or(a / 2, b / 2) + (if a % 2 == 1 || b % 2 == 1 then 1 else 0)
  }

  /** Python `a << n`: the low n bits are zero and shifting back recovers a. */
  function Shl(a: nat, n: nat): (r: nat)
    ensures r % Pow2(n) == 0 && r / Pow2(n) == a
  {
    var p := Pow2(n);
    DivModUnique(a * p, p, a, 0);
    a * p
  }

  /** Python `a >> n`: the quotient of a by 2^n, rounded down. */
  function Shr(a: nat, n: nat): (r: nat)
    ensures r * Pow2(n) <= a < (r + 1) * Pow2(n)
  {
    var p := Pow2(n);
    DivNonneg(a, p);
    a / p
  }

  /** Dividing a natural by a positive number gives a natural. */
  lemma DivNonneg(a: nat, p: nat)
    requires p >= 1
    ensures a / p >= 0
  {
  }

  /** Splitting a remainder modulo 2p into the low bit and the remainder of the rest modulo p. */
  lemma ModDouble(a: nat, p: nat)
    requires p > 0
    ensures a % (2 * p) == 2 * ((a / 2) % p) + a % 2
  {
    var q, t := (a / 2) / p, (a / 2) % p;
    assert a / 2 == p * q + t;
    assert a == (2 * p) * q + (2 * t + a % 2);
    assert 0 <= 2 * t + a % 2 < 2 * p;
    DivModUnique(a, 2 * p, q, 2 * t + a % 2);
  }

  /** Division with remainder has one answer: the Euclidean quotient and remainder. */
  lemma DivModUnique(a: nat, d: nat, q: nat, m: nat)
    requires d > 0 && m < d && a == d * q + m
    ensures a % d == m && a / d == q
  {
    var q', m' := a / d, a % d;
    if q' < q {
      MulAtLeast(d, q - q');
      Distribute(d, q, q');
    } else if q < q' {
      MulAtLeast(d, q' - q);
      Distribute(d, q', q);
    }
  }

  lemma MulAtLeast(d: nat, e: nat)
    requires e >= 1
    ensures d * e >= d
  {
  }

  lemma Distribute(d: int, x: int, y: int)
    ensures d * (x - y) == d * x - d * y
  {
  }

  /** `a & (2^k - 1)` keeps exactly the low k bits of a. */
  lemma {:induction false} AndLowMask(a: nat, k: nat)
    ensures And(a, Pow2(k) - 1) == a % Pow2(k)
  {
    if k == 0 {
      assert Pow2(k) - 1 == 0;
    } else if a == 0 {
      assert a % Pow2(k) == 0;
    } else {
      var m := Pow2(k) - 1;
      assert m % 2 == 1 && m / 2 == Pow2(k - 1) - 1;
      AndLowMask(a / 2, k - 1);
      ModDouble(a, Pow2(k - 1));
    }
  }

  /** OR-ing `a << k` with a value below 2^k adds them: their bits do not overlap. */
  lemma {:induction false} OrDisjoint(a: nat, k: nat, b: nat)
    requires b < Pow2(k)
    ensures Or(Shl(a, k), b) == Shl(a, k) + b
  {
    var A := Shl(a, k);
    if k == 0 || A == 0 || b == 0 {
    } else {
      var half := Shl(a, k - 1);
      assert A == 2 * half;
      assert b / 2 < Pow2(k - 1);
      OrDisjoint(a, k - 1, b / 2);
      calc {
        Or(A, b);
        2 * Or(half, b / 2) + b % 2;
        2 * (half + b / 2) + b % 2;
      }
    }
  }
}
