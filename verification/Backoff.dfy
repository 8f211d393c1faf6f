/** Exponential backoff in its two forms: iterated by the orchestrator, closed in the client. */
module Backoff {
  import opened Arith

  /** The orchestrator's configuration; times in milliseconds. */
  datatype RetryConfig = RetryConfig(maxRetries: nat, initial: nat, max: nat, multiplier: real)

  function NextBackoff(c: RetryConfig, backoff: nat): nat {
    Min(Truncate(backoff as real * c.multiplier, U64_MAX), c.max)
  }

  /** The `k`-th value of `backoff_ms`. */
  function BackoffAt(c: RetryConfig, k: nat): nat {
    if k == 0 then c.initial else NextBackoff(c, BackoffAt(c, k - 1))
  }

  /** The client's formula, before jitter. */
  function Capped(initial: nat, multiplier: real, max: nat, k: nat): nat {
    Truncate(MinReal(initial as real * PowReal(multiplier, k), max as real), U64_MAX)
  }

  lemma {:induction false} NaturalPower(m: nat, k: nat)
    ensures PowReal(m as real, k) == Pow(m, k) as real
  {
    if k > 0 {
      NaturalPower(m, k - 1);
    }
  }

  lemma CappedNatural(initial: nat, m: nat, max: nat, k: nat)
    requires max <= U64_MAX
    ensures Capped(initial, m as real, max, k) == Min(initial * Pow(m, k), max)
  {
    hide Pow, PowReal;
    NaturalPower(m, k);
    assert initial as real * Pow(m, k) as real == (initial * Pow(m, k)) as real;
  }

  lemma NextNatural(c: RetryConfig, m: nat, b: nat)
    requires c.max <= U64_MAX && c.multiplier == m as real
    ensures NextBackoff(c, b) == Min(b * m, c.max)
  {
    assert b as real * m as real == (b * m) as real;
  }

  /** Capping early changes nothing. */
  lemma CapOnce(x: nat, m: nat, max: nat)
    ensures Min(Min(x, max) * m, max) == Min(x * m, max)
  {
    if m > 0 && x > max {
      TimesMono(m, max, x);
      TimesMono(max, 1, m);
    }
  }

  lemma {:induction false} BackoffNatural(c: RetryConfig, m: nat, k: nat)
    requires c.max <= U64_MAX && c.multiplier == m as real && c.initial <= c.max
    ensures BackoffAt(c, k) == Min(c.initial * Pow(m, k), c.max)
  {
    if k > 0 {
      BackoffNatural(c, m, k - 1);
      var x := c.initial * Pow(m, k - 1);
      NextNatural(c, m, BackoffAt(c, k - 1));
      CapOnce(x, m, c.max);
      Reassociate(c.initial, Pow(m, k - 1), m);
    }
  }

  lemma Reassociate(a: nat, b: nat, m: nat)
    ensures a * b * m == a * (m * b)
  {
  }

  ghost predicate SameBackoff(c: RetryConfig) {
    forall k: nat :: BackoffAt(c, k) == Capped(c.initial, c.multiplier, c.max, k)
  }

  /** With a natural multiplier the two forms agree on every retry, exactly when the first backoff is within the cap. */
  lemma IteratedIsClosedForm(c: RetryConfig, m: nat)
    requires c.max <= U64_MAX && c.multiplier == m as real
    ensures SameBackoff(c) <==> c.initial <= c.max
  {
    hide Pow, PowReal;
    if c.initial <= c.max {
      forall k: nat ensures BackoffAt(c, k) == Capped(c.initial, c.multiplier, c.max, k) {
        BackoffNatural(c, m, k);
        CappedNatural(c.initial, m, c.max, k);
      }
    } else {
      CappedNatural(c.initial, m, c.max, 0);
      assert Pow(m, 0) == 1 by { PowZero(m); }
      assert BackoffAt(c, 0) != Capped(c.initial, c.multiplier, c.max, 0);
    }
  }

  lemma PowZero(m: nat)
    ensures Pow(m, 0) == 1
  {
  }

  /** For other multipliers the iterated form rounds at every step and can only lag behind, except that a first wait
      beyond the cap is not capped. */
  lemma {:induction false} IteratedNeverExceedsClosed(c: RetryConfig, k: nat)
    requires c.max <= U64_MAX && c.multiplier >= 0.0
    ensures BackoffAt(c, k) <= Capped(c.initial, c.multiplier, c.max, k) <==> k > 0 || c.initial <= c.max
  {
    hide Truncate, MinReal;
    if k > 1 {
      IteratedNeverExceedsClosed(c, k - 1);
      LagPower(c, k, BackoffAt(c, k - 1));
    } else if k == 1 {
      SecondWait(c);
    } else {
      FirstWait(c.initial, c.multiplier, c.max);
    }
  }

  lemma FirstWait(initial: nat, multiplier: real, max: nat)
    requires max <= U64_MAX
    ensures Capped(initial, multiplier, max, 0) == Min(initial, max)
  {
    assert initial as real * PowReal(multiplier, 0) == initial as real;
    CappedAt(initial, multiplier, max, 0, initial as real);
  }

  lemma SecondWait(c: RetryConfig)
    requires c.max <= U64_MAX
    ensures BackoffAt(c, 1) == Capped(c.initial, c.multiplier, c.max, 1)
  {
    hide Truncate, MinReal;
    var z := c.initial as real * c.multiplier;
    assert PowReal(c.multiplier, 1) == c.multiplier;
    CappedAt(c.initial, c.multiplier, c.max, 1, z);
    NextAt(c, c.initial, z);
    CapInside(z, c.max);
  }

  lemma LagPower(c: RetryConfig, k: nat, b: nat)
    requires c.max <= U64_MAX && c.multiplier >= 0.0 && k > 0
    requires b <= Capped(c.initial, c.multiplier, c.max, k - 1)
    ensures NextBackoff(c, b) <= Capped(c.initial, c.multiplier, c.max, k)
  {
    hide Truncate, MinReal, Capped, PowReal, Min;
    var i, p := c.initial as real, PowReal(c.multiplier, k - 1);
    var x, y, z := i * p, i * p * c.multiplier, b as real * c.multiplier;
    PowerNotNegative(c.multiplier, k - 1);
    ProductNotNegative(i, p);
    CappedAt(c.initial, c.multiplier, c.max, k - 1, x);
    LagStep(x, y, z, c.multiplier, c.max, b);
    PowerStep(c.multiplier, k);
    Regroup(i, c.multiplier, p);
    CappedAt(c.initial, c.multiplier, c.max, k, y);
    NextAt(c, b, z);
  }

  lemma PowerStep(m: real, k: nat)
    requires k > 0
    ensures PowReal(m, k) == m * PowReal(m, k - 1)
  {
  }

  lemma Regroup(x: real, m: real, p: real)
    ensures x * (m * p) == x * p * m
  {
  }

  lemma CappedAt(initial: nat, m: real, max: nat, k: nat, x: real)
    requires x == initial as real * PowReal(m, k)
    ensures Capped(initial, m, max, k) == Truncate(MinReal(x, max as real), U64_MAX)
  {
    hide PowReal, Truncate;
  }

  lemma LagStep(x: real, y: real, z: real, m: real, max: nat, b: nat)
    requires x >= 0.0 && m >= 0.0 && y == x * m && z == b as real * m
    requires max <= U64_MAX && b <= Truncate(MinReal(x, max as real), U64_MAX)
    ensures Min(Truncate(z, U64_MAX), max) <= Truncate(MinReal(y, max as real), U64_MAX)
  {
    hide Truncate, MinReal, Min;
    BelowTruncation(x, max, b);
    assert z <= y by {
      MulMono(m, b as real, x);
    }
    CappedMono(z, y, max);
  }

  lemma CappedMono(z: real, y: real, max: nat)
    requires z <= y && max <= U64_MAX
    ensures Min(Truncate(z, U64_MAX), max) <= Truncate(MinReal(y, max as real), U64_MAX)
  {
    CapInside(z, max);
    FloorMono(MinReal(z, max as real), MinReal(y, max as real));
  }

  /** It makes no difference whether the cap is applied before or after rounding down. */
  lemma CapInside(x: real, max: nat)
    requires max <= U64_MAX
    ensures Min(Truncate(x, U64_MAX), max) == Truncate(MinReal(x, max as real), U64_MAX)
  {
    if x > 0.0 && x <= max as real {
      FloorMono(x, max as real);
    } else if x > max as real {
      FloorMono(max as real, x);
    }
  }

  lemma BelowTruncation(x: real, max: nat, b: nat)
    requires x >= 0.0 && b <= Truncate(MinReal(x, max as real), U64_MAX)
    ensures b as real <= x
  {
    var y := MinReal(x, max as real);
    assert y <= x && y.Floor as real <= y;
  }

  lemma NextAt(c: RetryConfig, b: nat, z: real)
    requires z == b as real * c.multiplier
    ensures NextBackoff(c, b) == Min(Truncate(z, U64_MAX), c.max)
  {
  }

  lemma {:induction false} PowerNotNegative(m: real, k: nat)
    requires m >= 0.0
    ensures PowReal(m, k) >= 0.0
  {
    if k > 0 {
      PowerNotNegative(m, k - 1);
    }
  }

  lemma ProductNotNegative(x: real, y: real)
    requires x >= 0.0 && y >= 0.0
    ensures x * y >= 0.0
  {
  }

  const Lagging := RetryConfig(3, 1, 100, 1.5)

  lemma {:induction false} StuckAtOne(k: nat)
    ensures BackoffAt(Lagging, k) == 1
  {
    if k > 0 {
      StuckAtOne(k - 1);
    }
  }

  lemma {:induction false} PowerPassesTwo(k: nat)
    requires k >= 2
    ensures PowReal(1.5, k) >= 2.25
  {
    if k == 2 {
      assert PowReal(1.5, 1) == 1.5;
    } else {
      PowerPassesTwo(k - 1);
    }
  }

  /** It does lag, and for ever: 1.5 times 1 ms rounds back to 1 ms, while the powers of 1.5 grow past 2. */
  lemma RoundingLags(k: nat)
    requires k >= 2
    ensures BackoffAt(Lagging, k) == 1 < Capped(Lagging.initial, Lagging.multiplier, Lagging.max, k)
  {
    StuckAtOne(k);
    PowerPassesTwo(k);
    CappedAt(1, 1.5, 100, k, PowReal(1.5, k));
  }

  ghost predicate Nondecreasing(c: RetryConfig) {
    forall k: nat :: BackoffAt(c, k) <= BackoffAt(c, k + 1)
  }

  lemma BackoffCapped(c: RetryConfig, k: nat)
    ensures k > 0 ==> BackoffAt(c, k) <= c.max
  {
  }

  lemma NextNotLess(c: RetryConfig, b: nat)
    requires c.multiplier >= 1.0 && b <= c.max <= U64_MAX
    ensures b <= NextBackoff(c, b)
  {
    MulMono(b as real, 1.0, c.multiplier);
    FloorMono(b as real, b as real * c.multiplier);
  }

  /** With any multiplier of at least 1 the waits never get shorter, exactly when the first is within the cap. */
  lemma NondecreasingIff(c: RetryConfig)
    requires c.multiplier >= 1.0 && c.max <= U64_MAX
    ensures Nondecreasing(c) <==> c.initial <= c.max
  {
    if c.initial <= c.max {
      forall k: nat ensures BackoffAt(c, k) <= BackoffAt(c, k + 1) {
        BackoffCapped(c, k);
        NextNotLess(c, BackoffAt(c, k));
      }
    } else {
      BackoffCapped(c, 1);
      assert !(BackoffAt(c, 0) <= BackoffAt(c, 0 + 1));
    }
  }

  /** The first `n` waits. */
  function Waits(c: RetryConfig, n: nat): (w: seq<nat>)
    ensures |w| == n
  {
    seq(n, k requires 0 <= k < n => BackoffAt(c, k))
  }

  /** All waits together stay below what the cap allows; only the first may exceed it. */
  lemma {:induction false} WaitsBounded(c: RetryConfig, n: nat)
    ensures n > 0 ==> Sum(Waits(c, n)) <= c.initial + (n - 1) * c.max
    ensures c.initial <= c.max ==> Sum(Waits(c, n)) <= n * c.max
  {
    hide BackoffAt;
    if n > 0 {
      WaitsBounded(c, n - 1);
      WaitsStep(c, n);
      FirstBackoff(c);
      BackoffCapped(c, n - 1);
      OneMoreCap(n, c.max);
      if n > 1 {
        OneMoreCap(n - 1, c.max);
      }
    }
  }

  lemma WaitsStep(c: RetryConfig, n: nat)
    requires n > 0
    ensures Sum(Waits(c, n)) == Sum(Waits(c, n - 1)) + BackoffAt(c, n - 1)
  {
    assert Waits(c, n)[..n - 1] == Waits(c, n - 1);
  }

  lemma FirstBackoff(c: RetryConfig)
    ensures BackoffAt(c, 0) == c.initial
  {
  }

  lemma OneMoreCap(n: nat, max: nat)
    requires n > 0
    ensures n * max == (n - 1) * max + max
  {
  }
}
