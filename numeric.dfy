/**
  Integer counterparts of the numeric operations the core performs on
  doubles: `Math.round` of a quotient (JavaScript and Java both round to the
  nearest integer with halves going up, i.e. floor(x + 1/2)) and Java's
  32-bit `int` addition.
*/
module Numeric {

  /** r is p/q rounded to the nearest integer, halves going up:
      r - 1/2 <= p/q < r + 1/2, written without division. */
  predicate IsRounded(r: int, p: int, q: int) {
    2 * q * r - q <= 2 * p < 2 * q * r + q
  }

  /** `Math.round(p / q)` for a positive divisor. */
  function RoundDiv(p: int, q: int): (r: int)
    requires q > 0
    ensures IsRounded(r, p, q)
  {
    var r := (2 * p + q) / (2 * q);
    assert (2 * q) * r <= 2 * p + q < (2 * q) * r + 2 * q;
    r
  }

  /** q * a exceeds q * b by at least q when a exceeds b. */
  lemma MulGap(q: int, a: int, b: int)
    requires q > 0 && a > b
    ensures q * a >= q * b + q
  {
    var d := a - b;
    assert q * a == q * b + q * d;
    assert q * d >= q * 1 by {
      MulNonNegative(q, d - 1);
      assert q * d == q * (d - 1) + q;
    }
  }

  lemma MulNonNegative(x: int, y: int)
    requires x >= 0 && y >= 0
    ensures x * y >= 0
  {
  }

  /** The rounding condition has exactly one solution. */
  lemma RoundDivUnique(p: int, q: int, r: int)
    requires q > 0
    requires IsRounded(r, p, q)
    ensures RoundDiv(p, q) == r
  {
    var r' := RoundDiv(p, q);
    if r' < r {
      MulGap(2 * q, r, r');
    } else if r' > r {
      MulGap(2 * q, r', r);
    }
  }

  /** Rounding a quotient is monotone in the dividend. */
  lemma RoundDivMonotone(p1: int, p2: int, q: int)
    requires q > 0 && p1 <= p2
    ensures RoundDiv(p1, q) <= RoundDiv(p2, q)
  {
    var r1, r2 := RoundDiv(p1, q), RoundDiv(p2, q);
    if r1 > r2 {
      MulGap(2 * q, r1, r2);
    }
  }

  /** Exact quotients round to themselves. */
  lemma RoundDivExact(m: int, q: int)
    requires q > 0
    ensures RoundDiv(m * q, q) == m
  {
    RoundDivUnique(m * q, q, m);
  }

  /** A non-negative quotient rounds to a non-negative integer. */
  lemma RoundDivNonNegative(p: int, q: int)
    requires q > 0 && p >= 0
    ensures RoundDiv(p, q) >= 0
  {
    RoundDivMonotone(0, p, q);
    RoundDivUnique(0, q, 0);
  }

  /** A quotient in [lo, hi] rounds into [lo, hi]. */
  lemma RoundDivBetween(p: int, q: int, lo: int, hi: int)
    requires q > 0 && lo * q <= p <= hi * q
    ensures lo <= RoundDiv(p, q) <= hi
  {
    RoundDivMonotone(lo * q, p, q);
    RoundDivMonotone(p, hi * q, q);
    RoundDivExact(lo, q);
    RoundDivExact(hi, q);
  }

  const Int32Modulus: int := 0x1_0000_0000

  predicate IsInt32(x: int) {
    -0x8000_0000 <= x < 0x8000_0000
  }

  /** The value a Java `int` holds after an arithmetic result `x` wraps around. */
  function WrapInt32(x: int): (r: int)
    ensures IsInt32(r)
    ensures (x - r) % Int32Modulus == 0
    ensures IsInt32(x) ==> r == x
  {
    var m := x % Int32Modulus;
    if m >= 0x8000_0000 then m - Int32Modulus else m
  }
}
