/** The breaker's timeouts as an exponential backoff. */
module Timeouts {
  import opened Arith
  import opened Backoff
  import opened Breaker

  /** After `failures` failed checks the timeout is the client's closed backoff form with base and maximum timeout. */
  lemma TimeoutIsCapped(c: Config, failures: nat)
    requires failures > 0 && c.maxTimeoutSecs * 1000 <= U64_MAX
    ensures CalculateTimeout(c, failures)
         == Capped(c.baseTimeoutSecs * 1000, c.multiplier, c.maxTimeoutSecs * 1000, failures - 1)
  {
    hide PowReal, Truncate, MinReal, CalculateTimeout, Capped;
    var base, max := c.baseTimeoutSecs * 1000, c.maxTimeoutSecs * 1000;
    var x := base as real * PowReal(c.multiplier, failures - 1);
    TimeoutAt(c, failures, x);
    CapInside(x, max);
    CappedAt(base, c.multiplier, max, failures - 1, x);
  }

  lemma TimeoutAt(c: Config, failures: nat, x: real)
    requires failures > 0 && x == (c.baseTimeoutSecs * 1000) as real * PowReal(c.multiplier, failures - 1)
    ensures CalculateTimeout(c, failures) == Min(Truncate(x, U64_MAX), c.maxTimeoutSecs * 1000)
  {
    hide PowReal;
  }

  /** With a natural multiplier: base times multiplier to the number of failures beyond the first, capped. */
  lemma TimeoutNatural(c: Config, m: nat, failures: nat)
    requires failures > 0 && c.maxTimeoutSecs * 1000 <= U64_MAX && c.multiplier == m as real
    ensures CalculateTimeout(c, failures)
         == Min(c.baseTimeoutSecs * 1000 * Pow(m, failures - 1), c.maxTimeoutSecs * 1000)
  {
    hide CalculateTimeout, Capped, Pow;
    TimeoutIsCapped(c, failures);
    CappedNatural(c.baseTimeoutSecs * 1000, m, c.maxTimeoutSecs * 1000, failures - 1);
  }

  lemma TruncateMono(x: real, y: real, max: nat)
    requires x <= y
    ensures Truncate(MinReal(x, max as real), U64_MAX) <= Truncate(MinReal(y, max as real), U64_MAX)
  {
    FloorMono(MinReal(x, max as real), MinReal(y, max as real));
  }

  lemma PowerGrows(m: real, k: nat, base: real)
    requires m >= 1.0 && base >= 0.0
    ensures base * PowReal(m, k) <= base * PowReal(m, k + 1)
  {
    var p := PowReal(m, k);
    PowerNotNegative(m, k);
    assert PowReal(m, k + 1) == m * p;
    MulMono(p, 1.0, m);
    MulMono(base, p, m * p);
  }

  /** With a multiplier of at least one, further failures never shorten the timeout. */
  lemma TimeoutNondecreasing(c: Config, failures: nat)
    requires c.multiplier >= 1.0 && c.maxTimeoutSecs * 1000 <= U64_MAX
    ensures CalculateTimeout(c, failures) <= CalculateTimeout(c, failures + 1)
  {
    hide CalculateTimeout, Truncate, MinReal, PowReal;
    var base, max := c.baseTimeoutSecs * 1000, c.maxTimeoutSecs * 1000;
    if failures == 0 {
      DividedIsLess(c);
    } else {
      TimeoutIsCapped(c, failures);
      TimeoutIsCapped(c, failures + 1);
      var x, y := base as real * PowReal(c.multiplier, failures - 1), base as real * PowReal(c.multiplier, failures);
      PowerGrows(c.multiplier, failures - 1, base as real);
      CappedAt(base, c.multiplier, max, failures - 1, x);
      CappedAt(base, c.multiplier, max, failures, y);
      TruncateMono(x, y, max);
    }
  }

  /** A positive quotient lies below what was divided exactly when the divisor is more than one. */
  lemma QuotientBelow(base: nat, m: real, q: real)
    requires m > 0.0 && q * m == base as real
    ensures q >= 0.0
    ensures q < base as real <==> m > 1.0 && base > 0
    ensures m <= 1.0 ==> q >= base as real
  {
    ProductSign(q, m);
    if m <= 1.0 {
      MulMono(q, m, 1.0);
    } else {
      var d := m - 1.0;
      ProductSign(q, d);
      Expand(q, m, d);
    }
  }

  lemma Expand(q: real, m: real, d: real)
    requires m == 1.0 + d
    ensures q * m == q + q * d
  {
  }

  /** With one failure the timeout is the base, within the cap. */
  lemma FirstTimeout(c: Config)
    requires c.maxTimeoutSecs * 1000 <= U64_MAX
    ensures CalculateTimeout(c, 1) == Min(c.baseTimeoutSecs * 1000, c.maxTimeoutSecs * 1000)
  {
    hide CalculateTimeout, Capped;
    TimeoutIsCapped(c, 1);
    FirstWait(c.baseTimeoutSecs * 1000, c.multiplier, c.maxTimeoutSecs * 1000);
  }

  lemma DividedIsLess(c: Config)
    requires c.multiplier >= 1.0 && c.maxTimeoutSecs * 1000 <= U64_MAX
    ensures CalculateTimeout(c, 0) <= CalculateTimeout(c, 1)
  {
    hide Capped;
    FirstTimeout(c);
    var base := c.baseTimeoutSecs * 1000;
    var q := base as real / c.multiplier;
    assert q * c.multiplier == base as real;
    QuotientBelow(base, c.multiplier, q);
    assert q <= base as real;
    FloorMono(q, base as real);
  }

  /** A healthy answer while Open zeroes the failures. The timeout that then applies is shorter than the documented base
      exactly when the multiplier exceeds one or is negative, or the base exceeds the maximum. */
  lemma ShorterThanBaseIff(c: Config)
    requires c.maxTimeoutSecs * 1000 <= U64_MAX
    ensures CalculateTimeout(c, 0) < c.baseTimeoutSecs * 1000 <==>
            c.baseTimeoutSecs > 0 && (c.multiplier > 1.0 || c.multiplier < 0.0 || c.baseTimeoutSecs > c.maxTimeoutSecs)
  {
    var base, max := c.baseTimeoutSecs * 1000, c.maxTimeoutSecs * 1000;
    if c.multiplier > 0.0 {
      var q := base as real / c.multiplier;
      assert q * c.multiplier == base as real;
      QuotientBelow(base, c.multiplier, q);
      FloorBelow(q, base);
    } else if c.multiplier < 0.0 {
      NegativeQuotient(base, c.multiplier, base as real / c.multiplier);
    }
  }

  lemma FloorBelow(q: real, n: nat)
    requires q >= 0.0
    ensures q.Floor < n <==> q < n as real
  {
  }

  lemma NegativeQuotient(base: nat, m: real, q: real)
    requires m < 0.0 && q == base as real / m
    ensures q <= 0.0
  {
    assert q * m == base as real;
    ProductSign(q, -m);
    assert q * -m == -(q * m);
  }

  lemma ProductSign(q: real, m: real)
    requires m > 0.0
    ensures q < 0.0 ==> q * m < 0.0
    ensures q > 0.0 ==> q * m > 0.0
  {
  }

  /** Without failures, as after a healthy answer while Open, the timeout is the base divided by the multiplier. */
  lemma TimeoutWithoutFailures(c: Config, m: nat)
    requires m > 0 && c.maxTimeoutSecs * 1000 <= U64_MAX && c.multiplier == m as real
    ensures CalculateTimeout(c, 0) == Min(c.baseTimeoutSecs * 1000 / m, c.maxTimeoutSecs * 1000)
  {
    RealQuotient(c.baseTimeoutSecs * 1000, m);
  }

  lemma RealQuotient(n: nat, m: nat)
    requires m > 0
    ensures n as real / m as real >= 0.0 && (n as real / m as real).Floor == n / m
  {
    hide *;
    var q, r := DivMod(n, m);
    var x := n as real / m as real;
    assert x * m as real == n as real;
    CastProduct(m, q);
    FloorOfQuotient(x, m as real, q, r as real, n as real);
  }

  lemma CastProduct(m: nat, q: nat)
    ensures (m * q) as real == m as real * q as real
  {
  }

  lemma FloorOfQuotient(x: real, m: real, q: nat, r: real, n: real)
    requires m > 0.0 && x * m == n && n == m * q as real + r && 0.0 <= r < m
    ensures x >= 0.0 && x.Floor == q
  {
    assert (q as real + 1.0) * m == m * q as real + m;
    ScaledOrder(q as real, x, m);
    ScaledOrder(q as real + 1.0, x, m);
  }

  lemma ScaledOrder(x: real, y: real, m: real)
    requires m > 0.0
    ensures x <= y <==> x * m <= y * m
  {
    ProductSign(x - y, m);
    assert (x - y) * m == x * m - y * m;
  }
}
