/**
 * Rounding and absolute value used by the configuration-time arithmetic
 * (include/avr/uart/detail/math.hpp).
 *
 * The source rounds a `double`; here every argument is an exact rational
 * p/q with q > 0.  `round` stores the truncated value in a `uint8_t`, so it
 * is only defined while the truncation fits that type; outside that range
 * the conversion is undefined behaviour, which in a constant expression is a
 * compile error.  `Round` returns None there.
 */
module UartMath {

  /** An 8-bit unsigned value, as `uint8_t`. */
  type uint8 = x: int | 0 <= x < 256

  datatype Option<T> = None | Some(value: T)

  /** Truncation toward zero of p/q, as the conversion of a double to an integer does. */
  function Trunc(p: int, q: int): (w: int)
    requires q > 0
    ensures p >= 0 ==> w * q <= p < w * q + q
    ensures -q < p < 0 ==> w == 0
  {
    if p >= 0 then p / q else -((-p) / q)
  }

  /** True when `uint8_t whole = p/q` is defined: the truncation lies in 0..255. */
  predicate InRoundDomain(p: int, q: int)
    requires q > 0
  {
    -q < p < 256 * q
  }

  /**
   * `round(n)`: truncate to `uint8_t`, add one when the fractional part is at
   * least one half, and return the sum as `uint8_t` (so 256 wraps to 0).
   */
  function Round(p: int, q: int): (r: Option<uint8>)
    requires q > 0
    ensures r.Some? <==> InRoundDomain(p, q)
  {
    if !InRoundDomain(p, q) then None
    else
      var whole := Trunc(p, q);
      assert 0 <= whole < 256 by {
        if p >= 0 && whole >= 256 { MulMonotone(q, 256, whole); }
      }
      if 2 * (p - whole * q) >= q then Some((whole + 1) % 256) else Some(whole)
  }

  /** Mathematical round-half-up of a non-negative p/q: floor(p/q + 1/2). */
  function HalfUp(p: int, q: int): (k: int)
    requires q > 0 && p >= 0
    ensures 2 * q * k - q <= 2 * p < 2 * q * k + q
  {
    DivBounds(2 * p + q, 2 * q);
    (2 * p + q) / (2 * q)
  }

  lemma DivBounds(a: int, d: int)
    requires d > 0
    ensures d * (a / d) <= a < d * (a / d) + d
  {
  }

  /** Division by d recovers k from d*k + r when 0 <= r < d. */
  lemma {:induction false} DivUnique(a: int, d: int, k: int, r: int)
    requires d > 0 && 0 <= r < d && a == d * k + r
    ensures a / d == k
  {
    var k' := a / d;
    DivBounds(a, d);
    assert d * (k + 1) == d * k + d;
    assert d * (k' + 1) == d * k' + d;
    MulCancelLess(d, k', k + 1);
    MulCancelLess(d, k, k' + 1);
  }

  lemma MulMonotone(d: int, x: int, y: int)
    requires d >= 0 && x <= y
    ensures d * x <= d * y
  {
  }

  /** Cancelling a positive factor from both sides of a strict inequality. */
  lemma MulCancelLess(d: int, x: int, y: int)
    requires d > 0 && d * x < d * y
    ensures x < y
  {
    if x >= y { MulMonotone(d, y, x); }
  }

  /**
   * On the range where `round` neither fails nor wraps (0 <= p/q < 255.5)
   * it is round-half-up: floor(p/q + 1/2).
   */
  lemma {:induction false} RoundIsHalfUp(p: int, q: int)
    requires q > 0 && 0 <= p && 2 * p < 511 * q
    ensures Round(p, q) == Some(HalfUp(p, q))
  {
    var whole := p / q;
    var rest := p - whole * q;
    DivBounds(p, q);
    assert 0 <= rest < q;
    if 2 * rest >= q {
      DivUnique(2 * p + q, 2 * q, whole + 1, 2 * rest - q);
      assert q * (2 * whole + 1) == 2 * whole * q + q;
      MulCancelLess(q, 2 * whole + 1, 511);
    } else {
      DivUnique(2 * p + q, 2 * q, whole, 2 * rest + q);
    }
  }

  /** Thresholds of round-half-up: HalfUp(p, q) >= m exactly when p/q >= m - 1/2. */
  lemma HalfUpAtLeast(p: int, q: int, m: int)
    requires q > 0 && p >= 0
    ensures HalfUp(p, q) >= m <==> 2 * q * m - q <= 2 * p
  {
    var k := HalfUp(p, q);
    if k >= m {
      MulMonotone(q, m, k);
    }
    if 2 * q * m - q <= 2 * p {
      assert q * m < q * (k + 1);
      MulCancelLess(q, m, k + 1);
    }
  }

  /** Thresholds of round-half-up: HalfUp(p, q) <= m exactly when p/q < m + 1/2. */
  lemma HalfUpAtMost(p: int, q: int, m: int)
    requires q > 0 && p >= 0
    ensures HalfUp(p, q) <= m <==> 2 * p < 2 * q * m + q
  {
    var k := HalfUp(p, q);
    if k <= m {
      MulMonotone(q, k, m);
    }
    if 2 * p < 2 * q * m + q {
      assert q * k < q * (m + 1);
      MulCancelLess(q, k, m + 1);
    }
  }

  /** On [255.5, 256) the increment `whole + 1` is 256, which wraps to 0. */
  lemma {:induction false} RoundWrapsToZero(p: int, q: int)
    requires q > 0 && 511 * q <= 2 * p < 512 * q
    ensures Round(p, q) == Some(0)
  {
    DivUnique(p, q, 255, p - 255 * q);
  }

  /** Negative arguments above -1 truncate to 0 and never round up. */
  lemma RoundOfSmallNegative(p: int, q: int)
    requires q > 0 && -q < p < 0
    ensures Round(p, q) == Some(0)
  {
  }

  /** Every integer 0..255 is its own rounding. */
  lemma {:induction false} RoundOfInteger(k: int, q: int)
    requires q > 0 && 0 <= k < 256
    ensures Round(k * q, q) == Some(k)
  {
    DivUnique(k * q, q, k, 0);
  }

  /** round(2.5) = 3, round(2.4) = 2, round(2.6) = 3. */
  lemma RoundExamples()
    ensures Round(5, 2) == Some(3)
    ensures Round(24, 10) == Some(2)
    ensures Round(26, 10) == Some(3)
  {
    DivUnique(5, 2, 2, 1);
    DivUnique(24, 10, 2, 4);
    DivUnique(26, 10, 2, 6);
  }

  /** |round(n) - n| <= 1/2 for 0 <= n < 255.5, stated without fractions. */
  lemma RoundAccuracy(p: int, q: int)
    requires q > 0 && 0 <= p && 2 * p < 511 * q
    ensures Round(p, q).Some?
    ensures -q <= 2 * q * Round(p, q).value - 2 * p <= q
  {
    RoundIsHalfUp(p, q);
  }

  /** round is monotone on 0 <= n < 255.5: p1/q1 <= p2/q2 implies round(p1/q1) <= round(p2/q2). */
  lemma {:induction false} RoundMonotone(p1: int, q1: int, p2: int, q2: int)
    requires q1 > 0 && q2 > 0
    requires 0 <= p1 && 2 * p1 < 511 * q1
    requires 0 <= p2 && 2 * p2 < 511 * q2
    requires p1 * q2 <= p2 * q1
    ensures Round(p1, q1).value <= Round(p2, q2).value
  {
    RoundIsHalfUp(p1, q1);
    RoundIsHalfUp(p2, q2);
    CrossOrder(p1, q1, HalfUp(p1, q1), p2, q2, HalfUp(p2, q2));
  }

  /** k1 - 1/2 <= p1/q1 <= p2/q2 < k2 + 1/2 forces k1 <= k2. */
  lemma CrossOrder(p1: int, q1: int, k1: int, p2: int, q2: int, k2: int)
    requires q1 > 0 && q2 > 0
    requires 2 * q1 * k1 - q1 <= 2 * p1
    requires 2 * p2 < 2 * q2 * k2 + q2
    requires p1 * q2 <= p2 * q1
    ensures k1 <= k2
  {
    ScaledLower(p1, q1, k1, q2);
    ScaledUpper(p2, q2, k2, q1);
    MulCancelLess(q1 * q2, 2 * k1 - 1, 2 * k2 + 1);
  }

  /** k - 1/2 <= p/q, scaled by q * d. */
  lemma ScaledLower(p: int, q: int, k: int, d: int)
    requires q > 0 && d > 0 && 2 * q * k - q <= 2 * p
    ensures (q * d) * (2 * k - 1) <= 2 * (p * d)
  {
    assert q * (2 * k - 1) == 2 * q * k - q;
    MulMonotone(d, q * (2 * k - 1), 2 * p);
    assert d * (q * (2 * k - 1)) == (q * d) * (2 * k - 1);
  }

  /** p/q < k + 1/2, scaled by q * d. */
  lemma ScaledUpper(p: int, q: int, k: int, d: int)
    requires q > 0 && d > 0 && 2 * p < 2 * q * k + q
    ensures 2 * (p * d) + d <= (d * q) * (2 * k + 1)
  {
    assert q * (2 * k + 1) == 2 * q * k + q;
    MulMonotone(d, 2 * p + 1, q * (2 * k + 1));
    assert d * (q * (2 * k + 1)) == (d * q) * (2 * k + 1);
  }

  /** `abs(n)`: n when n is not negative, n * -1 otherwise. */
  function Abs(n: int): (r: int)
    ensures r >= 0
    ensures r == n || r == -n
  {
    if n < 0 then n * -1 else n
  }

  lemma AbsIsSymmetric(n: int)
    ensures Abs(-n) == Abs(n)
  {
  }
}
