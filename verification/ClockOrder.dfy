/** What a bucket loses when checks reach it out of time order. */
module ClockOrder {
  import opened Arith
  import opened RateLimit
  import opened RateLimitLaws

  /** No more than burst + rate * d admissions in `[from, to]`. */
  ghost predicate WithinBound(c: Config, ts: seq<Instant>, from: Instant, to: Instant) {
    AdmittedBetween(ts, Replay(c, ts).1, from, to) as real <= c.burst as real + c.rate * (to - from)
  }

  ghost predicate BoundHolds(c: Config, slack: real) {
    forall ts, from, to :: LateBy(ts, slack) && from <= to ==> WithinBound(c, ts, from, to)
  }

  /** Checks that go back and forth between the instants 0 and `s`. */
  function Zigzag(s: real, n: nat): seq<Instant> {
    if n == 0 then [] else Zigzag(s, n - 1) + [0.0] + [s]
  }

  lemma {:induction false} ZigzagIsLate(s: real, n: nat)
    requires s >= 0.0
    ensures forall i :: 0 <= i < |Zigzag(s, n)| ==> 0.0 <= Zigzag(s, n)[i] <= s
    ensures LateBy(Zigzag(s, n), s)
  {
    if n > 0 {
      ZigzagIsLate(s, n - 1);
    }
  }

  function Admitted(c: Config, s: real, ts: seq<Instant>): nat {
    AdmittedBetween(ts, Replay(c, ts).1, 0.0, s)
  }

  lemma AdmittedStep(c: Config, s: real, ts: seq<Instant>, now: Instant)
    requires 0.0 <= now <= s
    ensures var (b, ok) := Consume(c, Replay(c, ts).0, now);
            Admitted(c, s, ts + [now]) == Admitted(c, s, ts) + (if ok then 1 else 0) && Replay(c, ts + [now]).0 == b
  {
    hide Consume;
    ReplayStep(c, ts, now);
    BetweenStep(ts, Replay(c, ts).1, now, Consume(c, Replay(c, ts).0, now).1, 0.0, s);
  }

  /** Weighs an admission as more than a full bucket. */
  function Potential(c: Config, tokens: real, admitted: nat): real {
    (c.burst + 1) as real * admitted as real + tokens
  }

  lemma PotentialStep(c: Config, tokens: real, admitted: nat)
    ensures Potential(c, tokens, admitted + 1) == Potential(c, tokens, admitted) + (c.burst + 1) as real
  {
    assert (c.burst + 1) as real * (admitted + 1) as real
        == (c.burst + 1) as real * admitted as real + (c.burst + 1) as real;
  }

  lemma ConsumeRaises(c: Config, b: Bucket, now: Instant, admitted: nat, gain: real)
    requires c.rate > 0.0 && c.burst >= 1 && 0.0 <= b.tokens <= c.burst as real
    requires Elapsed(now, b.lastUpdate) * c.rate == gain >= 0.0
    ensures var (b', ok) := Consume(c, b, now);
            && Potential(c, b'.tokens, admitted + (if ok then 1 else 0))
               >= Potential(c, b.tokens, admitted) + MinReal(gain, 1.0)
            && 0.0 <= b'.tokens <= c.burst as real && b'.lastUpdate == now
  {
    hide Potential, Elapsed;
    PotentialStep(c, Consume(c, b, now).0.tokens, admitted);
    assert Refilled(c, b, now) == MinReal(b.tokens + gain, c.burst as real);
    PotentialOf(c, b.tokens, Consume(c, b, now).0.tokens, admitted);
  }

  lemma PotentialOf(c: Config, x: real, y: real, admitted: nat)
    ensures Potential(c, y, admitted) - Potential(c, x, admitted) == y - x
  {
  }

  /** Every turn of the zigzag raises the potential by what `s` seconds refill, or by one. */
  lemma {:induction false} ZigzagRaises(c: Config, s: real, gain: real, n: nat)
    requires c.rate > 0.0 && c.burst >= 1 && s > 0.0 && gain == s * c.rate && gain > 0.0
    ensures var ts := Zigzag(s, n);
            Potential(c, Replay(c, ts).0.tokens, Admitted(c, s, ts)) >= n as real * MinReal(gain, 1.0)
    ensures var b := Replay(c, Zigzag(s, n)).0;
            0.0 <= b.tokens <= c.burst as real && b.lastUpdate == (if n == 0 then 0.0 else s)
  {
    hide Potential, Replay, Admitted, Consume;
    if n == 0 {
      ZigzagStarts(c, s);
    } else {
      ZigzagRaises(c, s, gain, n - 1);
      var ts := Zigzag(s, n - 1);
      var b := Replay(c, ts).0;
      AdmittedStep(c, s, ts, 0.0);
      var (b', ok) := Consume(c, b, 0.0);
      ConsumeRaises(c, b, 0.0, Admitted(c, s, ts), 0.0);
      AdmittedStep(c, s, ts + [0.0], s);
      ConsumeRaises(c, b', s, Admitted(c, s, ts + [0.0]), gain);
      OneTurn(n, MinReal(gain, 1.0));
    }
  }

  lemma OneTurn(n: nat, h: real)
    requires n > 0
    ensures n as real * h == (n - 1) as real * h + h
  {
  }

  lemma ZigzagStarts(c: Config, s: real)
    ensures Replay(c, Zigzag(s, 0)).0 == Full(c) && Potential(c, c.burst as real, Admitted(c, s, [])) >= 0.0
  {
  }

  /** Enough turns outdo any bound. */
  lemma EnoughTurns(h: real, limit: real) returns (n: nat)
    requires h > 0.0
    ensures n as real * h > limit
  {
    var q := limit / h;
    assert q * h == limit;
    n := if q < 0.0 then 0 else q.Floor + 1;
    assert n as real > q;
    assert (n as real - q) * h > 0.0;
  }

  /** With any lateness, however small, some run admits more than any given number of checks within that time. */
  lemma LateIsUnbounded(c: Config, slack: real, limit: nat) returns (ts: seq<Instant>)
    requires c.rate > 0.0 && c.burst >= 1 && slack > 0.0
    ensures LateBy(ts, slack) && AdmittedBetween(ts, Replay(c, ts).1, 0.0, slack) > limit
  {
    hide Potential, Replay, Admitted, AdmittedBetween, Zigzag, LateBy;
    var gain := slack * c.rate;
    assert gain > 0.0;
    var weight := (c.burst + 1) as real;
    var n := EnoughTurns(MinReal(gain, 1.0), weight * limit as real + c.burst as real);
    ts := Zigzag(slack, n);
    ZigzagRaises(c, slack, gain, n);
    ZigzagIsLate(slack, n);
    TooMany(c, Replay(c, ts).0.tokens, Admitted(c, slack, ts), weight, limit as real);
    AdmittedIs(c, slack, ts);
  }

  lemma LateBreaksBound(c: Config, slack: real)
    requires c.rate > 0.0 && c.burst >= 1 && slack > 0.0
    ensures !BoundHolds(c, slack)
  {
    hide Replay, AdmittedBetween, LateBy;
    var bound := c.burst as real + c.rate * (slack - 0.0);
    assert c.rate * slack > 0.0;
    var ts := LateIsUnbounded(c, slack, bound.Floor + 1);
    assert !WithinBound(c, ts, 0.0, slack);
  }

  lemma AdmittedIs(c: Config, s: real, ts: seq<Instant>)
    ensures Admitted(c, s, ts) == AdmittedBetween(ts, Replay(c, ts).1, 0.0, s)
  {
  }

  lemma TooMany(c: Config, tokens: real, admitted: nat, weight: real, bound: real)
    requires tokens <= c.burst as real && weight == (c.burst + 1) as real
    requires Potential(c, tokens, admitted) > weight * bound + c.burst as real
    ensures admitted as real > bound
  {
    if admitted as real <= bound {
      MulMono(weight, admitted as real, bound);
    }
  }

  /** The bound by elapsed time holds on all runs late by at most `slack` iff no lateness is allowed. */
  lemma ClockBoundIff(c: Config, slack: real)
    requires c.rate > 0.0 && c.burst >= 1 && slack >= 0.0
    ensures BoundHolds(c, slack) <==> slack == 0.0
  {
    hide Replay, AdmittedBetween;
    if slack == 0.0 {
      forall ts, from, to | LateBy(ts, slack) && from <= to ensures WithinBound(c, ts, from, to) {
        forall i, j | 0 <= i <= j < |ts| ensures ts[i] <= ts[j] {
          assert ts[i] - slack <= ts[j];
        }
        WindowBound(c, ts, from, to);
      }
    } else {
      LateBreaksBound(c, slack);
    }
  }
}
