/** Shared arithmetic: real minimum, powers, and the `as u64` cast of a float. */
module Arith {
  const U32_MAX: int := 0xFFFF_FFFF
  const U64_MAX: int := 0xFFFF_FFFF_FFFF_FFFF

  function MinReal(a: real, b: real): real {
    if a <= b then a else b
  }

  function Min(a: int, b: int): int {
    if a <= b then a else b
  }

  function Max(a: int, b: int): int {
    if a >= b then a else b
  }

  /** A float-to-unsigned cast truncates toward zero and saturates at both ends. */
  function Truncate(x: real, limit: nat): nat {
    if x <= 0.0 then 0 else Min(x.Floor, limit)
  }

  /** Time since an instant: zero when that is later, as for `Instant::duration_since`, or when the system clock has
      been set back. */
  function Elapsed(now: real, since: real): real {
    if since <= now then now - since else 0.0
  }

  function PowReal(m: real, k: nat): real {
    if k == 0 then 1.0 else m * PowReal(m, k - 1)
  }

  function Pow(m: nat, k: nat): (p: nat)
    ensures m > 0 ==> p > 0
  {
    if k == 0 then 1 else m * Pow(m, k - 1)
  }

  lemma TimesMono(a: nat, x: nat, y: nat)
    requires x <= y
    ensures a * x <= a * y
  {
  }

  lemma DivLe(x: nat, y: nat, n: nat)
    requires 0 < n && x <= y
    ensures x / n <= y / n
  {
    hide *;
    var qx, rx, qy, ry := x / n, x % n, y / n, y % n;
    assert x == n * qx + rx && y == n * qy + ry;
    if qx >= qy + 1 {
      TimesMono(n, qy + 1, qx);
      assert false;
    }
  }

  lemma DivModUnique(x: nat, n: nat, q: nat, r: nat)
    requires r < n && x == n * q + r
    ensures x / n == q && x % n == r
  {
    var q', r' := x / n, x % n;
    assert x == n * q' + r';
    if q + 1 <= q' {
      TimesMono(n, q + 1, q');
      assert false;
    } else if q' + 1 <= q {
      TimesMono(n, q' + 1, q);
      assert false;
    }
  }

  lemma SmallMod(x: nat, n: nat)
    requires x < n
    ensures x % n == x
  {
  }

  /** Remainders may be taken early. */
  lemma ModEarly(x: nat, k: nat, n: nat)
    requires n > 0
    ensures (x % n + k) % n == (x + k) % n
  {
    var q, r := DivMod(x, n);
    var q', r' := DivMod(r + k, n);
    assert x + k == n * q + n * q' + r';
    Distribute(n, q, q');
    DivModUnique(x + k, n, q + q', r');
  }

  lemma DivMod(x: nat, n: nat) returns (q: nat, r: nat)
    requires n > 0
    ensures q == x / n && r == x % n < n && x == n * q + r
  {
    q, r := x / n, x % n;
  }

  lemma Distribute(n: nat, q: nat, q': nat)
    ensures n * q + n * q' == n * (q + q')
  {
  }

  lemma ModWrap(x: nat, n: nat)
    requires n > 0
    ensures (x + n) % n == x % n
  {
    assert x + n == n * (x / n + 1) + x % n;
    DivModUnique(x + n, n, x / n + 1, x % n);
  }

  lemma MulMono(r: real, x: real, y: real)
    requires r >= 0.0 && x <= y
    ensures r * x <= r * y && x * r <= y * r
  {
  }

  lemma FloorMono(x: real, y: real)
    requires x <= y
    ensures x.Floor <= y.Floor
  {
  }

  function Sum(s: seq<nat>): nat {
    if s == [] then 0 else Sum(s[..|s| - 1]) + s[|s| - 1]
  }
}
