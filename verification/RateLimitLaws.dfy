/** Laws of the token bucket over whole runs, and of the shared limiter over interleaved traces. */
module RateLimitLaws {
  import opened Arith
  import opened RateLimit

  // ---------- one bucket ----------

  /** The bucket and the admissions after the checks `ts`, starting from a full bucket. */
  function Replay(c: Config, ts: seq<Instant>): (r: (Bucket, seq<bool>))
    ensures |r.1| == |ts|
  {
    if ts == [] then (Full(c), []) else
      var (b, admitted) := Replay(c, ts[..|ts| - 1]);
      var (b', ok) := Consume(c, b, ts[|ts| - 1]);
      (b', admitted + [ok])
  }

  /** What the window from check `j` to the last check may admit in all: the burst plus every refill in between.
      Only forward moves of the clock refill. */
  function Allowance(c: Config, ts: seq<Instant>, j: nat): real {
    if j + 1 >= |ts| then c.burst as real
    else Allowance(c, ts[..|ts| - 1], j) + Elapsed(ts[|ts| - 1], ts[|ts| - 2]) * c.rate
  }

  /** Number of admissions from check `j` on. */
  function Admissions(admitted: seq<bool>, j: nat): nat {
    if j >= |admitted| then 0
    else Admissions(admitted[..|admitted| - 1], j) + (if admitted[|admitted| - 1] then 1 else 0)
  }

  /** What that window may still admit. */
  function Budget(c: Config, ts: seq<Instant>, admitted: seq<bool>, j: nat): real {
    Allowance(c, ts, j) - Admissions(admitted, j) as real
  }

  function Budgets(c: Config, ts: seq<Instant>, admitted: seq<bool>): seq<real> {
    seq(|ts|, j requires 0 <= j < |ts| => Budget(c, ts, admitted, j))
  }

  /** Instants in order, but for lateness of up to `slack`. */
  ghost predicate LateBy(ts: seq<Instant>, slack: real) {
    forall i, j :: 0 <= i <= j < |ts| ==> ts[i] - slack <= ts[j]
  }

  ghost predicate Ordered(ts: seq<Instant>) {
    forall i, j :: 0 <= i <= j < |ts| ==> ts[i] <= ts[j]
  }

  ghost predicate IsMinimum(x: real, s: seq<real>) {
    x in s && forall j :: 0 <= j < |s| ==> x <= s[j]
  }

  /** Adding `e` to every budget and opening a new one at `cap`, then charging `paid` to all of them. */
  lemma MinimumStep(x: real, s: seq<real>, e: real, cap: real, paid: real, s': seq<real>)
    requires s == [] || IsMinimum(x, s)
    requires |s'| == |s| + 1 && s'[|s|] == cap - paid
    requires forall j :: 0 <= j < |s| ==> s'[j] == s[j] + e - paid
    ensures IsMinimum((if s == [] then cap else MinReal(x + e, cap)) - paid, s')
  {
    if s != [] {
      var k :| 0 <= k < |s| && s[k] == x;
      assert s'[k] == x + e - paid;
    }
  }

  lemma BudgetStep(c: Config, ts: seq<Instant>, admitted: seq<bool>, now: Instant, ok: bool, j: nat)
    requires 0 < |ts| == |admitted| && j < |ts|
    ensures Budget(c, ts + [now], admitted + [ok], j)
         == Budget(c, ts, admitted, j) + Elapsed(now, ts[|ts| - 1]) * c.rate - (if ok then 1.0 else 0.0)
  {
    var ts', admitted' := ts + [now], admitted + [ok];
    assert ts'[..|ts'| - 1] == ts && admitted'[..|admitted'| - 1] == admitted;
  }

  lemma NewBudget(c: Config, ts: seq<Instant>, admitted: seq<bool>, ok: bool)
    requires ts != [] && |admitted| == |ts| - 1
    ensures Budget(c, ts, admitted + [ok], |ts| - 1) == c.burst as real - (if ok then 1.0 else 0.0)
  {
    assert (admitted + [ok])[..|admitted|] == admitted;
    assert Admissions(admitted, |admitted|) == 0;
  }

  lemma LastUpdate(c: Config, ts: seq<Instant>)
    requires ts != []
    ensures Replay(c, ts).0.lastUpdate == ts[|ts| - 1]
  {
  }

  lemma TightestStep(c: Config, ts: seq<Instant>, b: Bucket, admitted: seq<bool>, now: Instant)
    requires 0 < |ts| == |admitted| && b.lastUpdate == ts[|ts| - 1]
    requires IsMinimum(b.tokens, Budgets(c, ts, admitted))
    ensures var (b', ok) := Consume(c, b, now);
      IsMinimum(b'.tokens, Budgets(c, ts + [now], admitted + [ok]))
  {
    hide Budget, IsMinimum, Admissions, Allowance, Elapsed;
    var (b', ok) := Consume(c, b, now);
    var paid := if ok then 1.0 else 0.0;
    var e := Elapsed(now, b.lastUpdate) * c.rate;
    var bs, bs' := Budgets(c, ts, admitted), Budgets(c, ts + [now], admitted + [ok]);
    NewBudget(c, ts + [now], admitted, ok);
    forall j | 0 <= j < |ts| ensures bs'[j] == bs[j] + e - paid {
      BudgetStep(c, ts, admitted, now, ok, j);
    }
    MinimumStep(b.tokens, bs, e, c.burst as real, paid, bs');
    assert bs != [];
    assert b'.tokens == MinReal(b.tokens + e, c.burst as real) - paid;
  }

  /** The tokens in the bucket are the tightest of the remaining window budgets. */
  lemma {:induction false} TokensAreTightestBudget(c: Config, ts: seq<Instant>)
    requires c.rate >= 0.0 && ts != []
    ensures var (b, admitted) := Replay(c, ts); IsMinimum(b.tokens, Budgets(c, ts, admitted))
  {
    var before, now := ts[..|ts| - 1], ts[|ts| - 1];
    var (b, admitted) := Replay(c, before);
    assert ts == before + [now];
    if before == [] {
      var ok := Consume(c, b, now).1;
      NewIsFull(c, now);
      NewBudget(c, ts, admitted, ok);
      assert Budgets(c, ts, admitted + [ok])[0] == Consume(c, b, now).0.tokens;
    } else {
      TokensAreTightestBudget(c, before);
      LastUpdate(c, before);
      TightestStep(c, before, b, admitted, now);
    }
  }

  lemma BudgetBefore(c: Config, ts: seq<Instant>, admitted: seq<bool>, ok: bool, j: nat)
    requires j < |ts| == |admitted| + 1
    ensures Budget(c, ts, admitted + [ok], j)
         == Allowance(c, ts, j) - Admissions(admitted, j) as real - (if ok then 1.0 else 0.0)
  {
    assert (admitted + [ok])[..|admitted|] == admitted;
    assert Admissions(admitted, |admitted|) == 0;
  }

  /** Every window ending at the last check fits that check too. */
  ghost predicate Fits(c: Config, ts: seq<Instant>, admitted: seq<bool>) {
    forall j :: 0 <= j < |ts| ==> (Admissions(admitted, j) + 1) as real <= Allowance(c, ts, j)
  }

  /** Exact admission rule, for clocks that may even run backwards: a check is admitted iff
      every window ending at it, itself included, stays within burst plus rate times refill time. */
  lemma AdmittedIffEveryWindowFits(c: Config, ts: seq<Instant>, now: Instant)
    requires c.rate >= 0.0
    ensures var (b, admitted) := Replay(c, ts);
      Consume(c, b, now).1 <==> Fits(c, ts + [now], admitted)
  {
    var (b, admitted) := Replay(c, ts);
    var (b', ok) := Consume(c, b, now);
    var ts' := ts + [now];
    assert ts'[..|ts|] == ts;
    assert Replay(c, ts') == (b', admitted + [ok]);
    TokensAreTightestBudget(c, ts');
    TokensAreNeverNegative(c, ts');
    var budgets := Budgets(c, ts', admitted + [ok]);
    forall j | 0 <= j < |ts'|
      ensures budgets[j] == Allowance(c, ts', j) - Admissions(admitted, j) as real - (if ok then 1.0 else 0.0)
    {
      BudgetBefore(c, ts', admitted, ok, j);
    }
    if !ok {
      var k :| 0 <= k < |ts'| && budgets[k] == b'.tokens;
    }
  }

  /** Every window measured by the clock fits the check at the end of `ts`. */
  ghost predicate FitsByClock(c: Config, ts: seq<Instant>, admitted: seq<bool>) {
    forall j :: 0 <= j < |ts| ==>
      (Admissions(admitted, j) + 1) as real <= c.burst as real + c.rate * (ts[|ts| - 1] - ts[j])
  }

  /** With checks in time order, the allowance of a window is burst plus rate times its length. */
  lemma {:induction false} ClockAllowance(c: Config, ts: seq<Instant>, j: nat)
    requires Ordered(ts) && j < |ts|
    ensures Allowance(c, ts, j) == c.burst as real + c.rate * (ts[|ts| - 1] - ts[j])
  {
    hide Elapsed, Allowance, Ordered;
    AllowanceStep(c, ts, j);
    if j + 1 < |ts| {
      assert Ordered(ts[..|ts| - 1]) by { OrderedBefore(ts); }
      var before, now := ts[..|ts| - 1], ts[|ts| - 1];
      ClockAllowance(c, before, j);
      InOrderElapsed(ts);
      WindowGrows(c.rate, ts[j], ts[|ts| - 2], now);
    } else {
      assert c.rate * (ts[j] - ts[j]) == 0.0;
    }
  }

  lemma OrderedBefore(ts: seq<Instant>)
    requires Ordered(ts) && ts != []
    ensures Ordered(ts[..|ts| - 1])
  {
  }

  lemma AllowanceStep(c: Config, ts: seq<Instant>, j: nat)
    requires j < |ts|
    ensures Allowance(c, ts, j) ==
            if j + 1 == |ts| then c.burst as real
            else Allowance(c, ts[..|ts| - 1], j) + Elapsed(ts[|ts| - 1], ts[|ts| - 2]) * c.rate
  {
    hide Elapsed;
  }

  lemma InOrderElapsed(ts: seq<Instant>)
    requires Ordered(ts) && |ts| > 1
    ensures Elapsed(ts[|ts| - 1], ts[|ts| - 2]) == ts[|ts| - 1] - ts[|ts| - 2]
  {
  }

  lemma WindowGrows(rate: real, from: real, middle: real, to: real)
    ensures rate * (middle - from) + (to - middle) * rate == rate * (to - from)
  {
  }

  /** The same rule when checks reach the bucket in time order: windows are then measured by the clock. */
  lemma AdmittedIffEveryClockWindowFits(c: Config, ts: seq<Instant>, now: Instant)
    requires c.rate >= 0.0 && Ordered(ts + [now])
    ensures var (b, admitted) := Replay(c, ts);
      Consume(c, b, now).1 <==> FitsByClock(c, ts + [now], admitted)
  {
    AdmittedIffEveryWindowFits(c, ts, now);
    FitsAgree(c, ts + [now], Replay(c, ts).1);
  }

  lemma FitsAgree(c: Config, ts: seq<Instant>, admitted: seq<bool>)
    requires Ordered(ts)
    ensures Fits(c, ts, admitted) <==> FitsByClock(c, ts, admitted)
  {
    hide Allowance, Admissions;
    forall j | 0 <= j < |ts|
      ensures (Admissions(admitted, j) + 1) as real <= Allowance(c, ts, j) <==>
              (Admissions(admitted, j) + 1) as real <= c.burst as real + c.rate * (ts[|ts| - 1] - ts[j])
    {
      ClockAllowance(c, ts, j);
    }
  }

  /** Checks admitted at instants in `[from, to]`. */
  function AdmittedBetween(ts: seq<Instant>, admitted: seq<bool>, from: Instant, to: Instant): nat
    requires |ts| == |admitted|
  {
    if ts == [] then 0 else
      var n := |ts| - 1;
      AdmittedBetween(ts[..n], admitted[..n], from, to) + (if admitted[n] && from <= ts[n] <= to then 1 else 0)
  }

  /** When the last check is not after `to`, the checks since `from` are a suffix of the run. */
  lemma {:induction false} BetweenIsSuffix(ts: seq<Instant>, admitted: seq<bool>, from: Instant, to: Instant, j: nat)
    requires |ts| == |admitted| && j <= |ts| && Ordered(ts)
    requires forall i :: 0 <= i < |ts| ==> ts[i] <= to && (from <= ts[i] <==> j <= i)
    ensures AdmittedBetween(ts, admitted, from, to) == Admissions(admitted, j)
  {
    if ts != [] {
      var n := |ts| - 1;
      if j <= n {
        BetweenIsSuffix(ts[..n], admitted[..n], from, to, j);
      } else {
        BetweenIsSuffix(ts[..n], admitted[..n], from, to, n);
        assert Admissions(admitted[..n], n) == 0;
      }
    }
  }

  lemma {:induction false} TokensAreNeverNegative(c: Config, ts: seq<Instant>)
    requires c.rate >= 0.0
    ensures 0.0 <= Replay(c, ts).0.tokens <= c.burst as real
  {
    if ts != [] {
      TokensAreNeverNegative(c, ts[..|ts| - 1]);
    }
  }

  /** The first index at or after the instant `from`. */
  lemma {:induction false} FirstSince(ts: seq<Instant>, from: Instant) returns (j: nat)
    requires Ordered(ts)
    ensures j <= |ts|
    ensures forall i :: 0 <= i < |ts| ==> (from <= ts[i] <==> j <= i)
  {
    if ts == [] || ts[|ts| - 1] < from {
      j := |ts|;
    } else {
      j := FirstSince(ts[..|ts| - 1], from);
    }
  }

  lemma BudgetIsNotNegative(c: Config, ts: seq<Instant>, j: nat)
    requires c.rate >= 0.0 && j < |ts|
    ensures 0.0 <= Budget(c, ts, Replay(c, ts).1, j)
  {
    TokensAreTightestBudget(c, ts);
    TokensAreNeverNegative(c, ts);
    assert Replay(c, ts).0.tokens <= Budgets(c, ts, Replay(c, ts).1)[j];
  }

  lemma SuffixBound(c: Config, ts: seq<Instant>, j: nat, span: real)
    requires c.rate >= 0.0 && Ordered(ts) && j < |ts| && ts[|ts| - 1] - ts[j] <= span
    ensures Admissions(Replay(c, ts).1, j) as real <= c.burst as real + c.rate * span
  {
    hide Allowance, Replay, Admissions;
    BudgetIsNotNegative(c, ts, j);
    ClockAllowance(c, ts, j);
    WidenWindow(Admissions(Replay(c, ts).1, j) as real, c.burst as real, c.rate, ts[|ts| - 1] - ts[j], span);
  }

  lemma WidenWindow(x: real, burst: real, r: real, narrow: real, wide: real)
    requires r >= 0.0 && narrow <= wide && x <= burst + r * narrow
    ensures x <= burst + r * wide
  {
    MulMono(r, narrow, wide);
  }

  lemma LateLastOutside(c: Config, ts: seq<Instant>, from: Instant, to: Instant)
    requires ts != [] && ts[|ts| - 1] > to
    ensures AdmittedBetween(ts, Replay(c, ts).1, from, to)
         == AdmittedBetween(ts[..|ts| - 1], Replay(c, ts[..|ts| - 1]).1, from, to)
  {
    hide Replay;
    var before, now := ts[..|ts| - 1], ts[|ts| - 1];
    ReplayStep(c, before, now);
    BetweenStep(before, Replay(c, before).1, now, Consume(c, Replay(c, before).0, now).1, from, to);
    assert before + [now] == ts;
  }

  /** No interval of length d ever sees more than burst + rate * d admissions. */
  lemma {:induction false} WindowBound(c: Config, ts: seq<Instant>, from: Instant, to: Instant)
    requires c.rate >= 0.0 && Ordered(ts) && from <= to
    ensures AdmittedBetween(ts, Replay(c, ts).1, from, to) as real <= c.burst as real + c.rate * (to - from)
  {
    hide Replay;
    WidenWindow(0.0, c.burst as real, c.rate, 0.0, to - from);
    if ts == [] {
    } else if ts[|ts| - 1] > to {
      LateLastOutside(c, ts, from, to);
      WindowBound(c, ts[..|ts| - 1], from, to);
    } else {
      EndedWindow(c, ts, from, to);
    }
  }

  lemma EndedWindow(c: Config, ts: seq<Instant>, from: Instant, to: Instant)
    requires c.rate >= 0.0 && Ordered(ts) && from <= to && ts != [] && ts[|ts| - 1] <= to
    ensures AdmittedBetween(ts, Replay(c, ts).1, from, to) as real <= c.burst as real + c.rate * (to - from)
  {
    hide Replay, AdmittedBetween;
    WidenWindow(0.0, c.burst as real, c.rate, 0.0, to - from);
    var j := FirstSince(ts, from);
    BetweenIsSuffix(ts, Replay(c, ts).1, from, to, j);
    if j < |ts| {
      SuffixBound(c, ts, j, to - from);
    } else {
      NoneLeft(Replay(c, ts).1);
    }
  }

  lemma NoneLeft(admitted: seq<bool>)
    ensures Admissions(admitted, |admitted|) == 0
  {
  }

  lemma ReplayStep(c: Config, ts: seq<Instant>, now: Instant)
    ensures var (b, admitted) := Replay(c, ts);
      Replay(c, ts + [now]) == (Consume(c, b, now).0, admitted + [Consume(c, b, now).1])
  {
    assert (ts + [now])[..|ts|] == ts;
  }

  lemma BetweenStep(ts: seq<Instant>, admitted: seq<bool>, now: Instant, ok: bool, from: Instant, to: Instant)
    requires |ts| == |admitted|
    ensures AdmittedBetween(ts + [now], admitted + [ok], from, to)
         == AdmittedBetween(ts, admitted, from, to) + (if ok && from <= now <= to then 1 else 0)
  {
    assert (ts + [now])[..|ts|] == ts && (admitted + [ok])[..|ts|] == admitted;
  }

  /** The clock law does need checks in time order: `now` is read before the locks are taken, and a late
      arrival that moves `last_update` back makes the bucket refill the same seconds twice. */
  lemma LateArrivalOveradmits()
    ensures var c := Config(1.0, 1, 60.0, 300.0);
      var ts := [0.0, 10.0, 0.0, 10.0];
      Replay(c, ts).1 == [true, true, false, true]
      && AdmittedBetween(ts, Replay(c, ts).1, 10.0, 10.0) as real > c.burst as real + c.rate * (10.0 - 10.0)
  {
    var c := Config(1.0, 1, 60.0, 300.0);
    assert [] + [0.0] == [0.0] && [0.0] + [10.0] == [0.0, 10.0] && [0.0, 10.0] + [0.0] == [0.0, 10.0, 0.0];
    assert [0.0, 10.0, 0.0] + [10.0] == [0.0, 10.0, 0.0, 10.0];
    assert [] + [true] == [true] && [true] + [true] == [true, true] && [true, true] + [false] == [true, true, false];
    assert [true, true, false] + [true] == [true, true, false, true];
    ReplayStep(c, [], 0.0);
    ReplayStep(c, [0.0], 10.0);
    ReplayStep(c, [0.0, 10.0], 0.0);
    ReplayStep(c, [0.0, 10.0, 0.0], 10.0);
    assert Replay(c, [0.0]) == (Bucket(0.0, 0.0), [true]);
    assert Replay(c, [0.0, 10.0]) == (Bucket(0.0, 10.0), [true, true]);
    assert Replay(c, [0.0, 10.0, 0.0]) == (Bucket(0.0, 0.0), [true, true, false]);
    BetweenStep([], [], 0.0, true, 10.0, 10.0);
    BetweenStep([0.0], [true], 10.0, true, 10.0, 10.0);
    BetweenStep([0.0, 10.0], [true, true], 0.0, false, 10.0, 10.0);
    BetweenStep([0.0, 10.0, 0.0], [true, true, false], 10.0, true, 10.0, 10.0);
  }

  /** `retry_after` is exact: after a refusal, the next check is admitted iff at least that long has passed. */
  lemma RetryAfterIsExact(c: Config, b: Bucket, now: Instant, later: Instant)
    requires c.Valid() && c.burst >= 1 && now <= later
    requires Answer(c, b, now).RateLimited?
    ensures Answer(c, Consume(c, b, now).0, later) == Allowed
       <==> Answer(c, b, now).retryAfter <= later - now
  {
    var wait, need := later - now, 1.0 - Refilled(c, b, now);
    assert Consume(c, b, now).0 == Bucket(1.0 - need, now);
    assert Answer(c, b, now).retryAfter == need / c.rate;
    QuotientIff(need, c.rate, wait);
    LaterAllowed(c, need, now, later, wait * c.rate);
  }

  lemma QuotientIff(need: real, rate: real, wait: real)
    requires rate > 0.0
    ensures need / rate <= wait <==> need <= wait * rate
  {
    var d := need / rate;
    assert d * rate == need;
    ProductIff(d, wait, rate);
  }

  lemma ProductIff(x: real, y: real, rate: real)
    requires rate > 0.0
    ensures x <= y <==> x * rate <= y * rate
  {
    assert x < y ==> (y - x) * rate > 0.0;
    assert y < x ==> (x - y) * rate > 0.0;
  }

  lemma LaterAllowed(c: Config, need: real, now: Instant, later: Instant, gained: real)
    requires c.rate > 0.0 && c.burst >= 1 && now <= later && gained == (later - now) * c.rate
    ensures Answer(c, Bucket(1.0 - need, now), later) == Allowed <==> need <= gained
  {
    assert Elapsed(later, now) * c.rate == gained;
    assert Refilled(c, Bucket(1.0 - need, now), later) == MinReal(1.0 - need + gained, c.burst as real);
  }

  // ---------- the shared limiter ----------

  /** One critical section of some `check_rate_limit` call, from any task. */
  datatype Step = Sweeping(now: Instant) | Taking(ip: IpAddr, now: Instant)

  function Perform(c: Config, m: Buckets, step: Step): Buckets {
    match step
    case Sweeping(now) => Sweep(c, m, now)
    case Taking(ip, now) => Take(c, m, ip, now)
  }

  function After(c: Config, steps: seq<Step>): Buckets {
    if steps == [] then map[] else Perform(c, After(c, steps[..|steps| - 1]), steps[|steps| - 1])
  }

  function At(step: Step, ip: IpAddr): seq<Instant> {
    if step.Taking? && step.ip == ip then [step.now] else []
  }

  /** The instants at which `ip` was checked. */
  function Times(steps: seq<Step>, ip: IpAddr): seq<Instant> {
    if steps == [] then [] else Times(steps[..|steps| - 1], ip) + At(steps[|steps| - 1], ip)
  }

  /** How far out of time order sections may run: `now` is read before the locks are taken, so a caller may be late, by
      up to `slack`. Without lateness (0) the sections are in time order. */
  ghost predicate Within(steps: seq<Step>, slack: real) {
    LateBy(Nows(steps), slack)
  }

  function Nows(steps: seq<Step>): seq<Instant> {
    seq(|steps|, i requires 0 <= i < |steps| => steps[i].now)
  }

  lemma LateByMore(ts: seq<Instant>, now: Instant, slack: real)
    ensures LateBy(ts + [now], slack) <==>
            LateBy(ts, slack) && slack >= 0.0 && forall i :: 0 <= i < |ts| ==> ts[i] - slack <= now
  {
    var all := ts + [now];
    assert all[|ts|] == now && forall i :: 0 <= i < |ts| ==> all[i] == ts[i];
    if LateBy(all, slack) {
      assert all[|ts|] - slack <= all[|ts|];
      forall i | 0 <= i < |ts| ensures ts[i] - slack <= now {
        assert all[i] - slack <= all[|ts|];
      }
      forall i, j | 0 <= i <= j < |ts| ensures ts[i] - slack <= ts[j] {
        assert all[i] - slack <= all[j];
      }
    }
  }

  lemma WithinMore(steps: seq<Step>, step: Step, slack: real)
    ensures Within(steps + [step], slack) <==> Within(steps, slack) && slack >= 0.0 && NotBefore(steps, slack, step.now)
  {
    hide LateBy;
    LateByMore(Nows(steps), step.now, slack);
    assert Nows(steps + [step]) == Nows(steps) + [step.now];
    assert forall i :: 0 <= i < |steps| ==> Nows(steps)[i] == steps[i].now;
  }

  /** No section so far was more than `slack` ahead of `now`. */
  ghost predicate NotBefore(steps: seq<Step>, slack: real, now: Instant) {
    forall i :: 0 <= i < |steps| ==> steps[i].now - slack <= now
  }

  /** An idle bucket is full again before a caller late by up to `slack` can find it dropped. */
  predicate RefillsFirst(c: Config, slack: real) {
    c.burst == 0 || c.rate * (c.entryTtl - slack) >= c.burst as real
  }

  /** A bucket that has been left alone for long enough to be full again at `now`. */
  predicate FullAt(c: Config, b: Bucket, now: Instant) {
    b.tokens + c.rate * Elapsed(now, b.lastUpdate) >= c.burst as real
  }

  /** The shared map `m` agrees with the private bucket of `ip`, checked at the instants `ts`; it may only have
      dropped that bucket when it is full from `floor` on. */
  ghost predicate Tracks(c: Config, m: Buckets, ts: seq<Instant>, ip: IpAddr, floor: Instant) {
    var b := Replay(c, ts).0;
    if ip in m then m[ip] == b && ts != [] else ts == [] || FullAt(c, b, floor)
  }

  lemma FullStaysFull(c: Config, b: Bucket, now: Instant, later: Instant)
    requires c.rate >= 0.0 && FullAt(c, b, now) && now <= later
    ensures FullAt(c, b, later)
  {
    MulMono(c.rate, Elapsed(now, b.lastUpdate), Elapsed(later, b.lastUpdate));
  }

  /** A full bucket is interchangeable with a new one. */
  lemma FullIsNew(c: Config, b: Bucket, now: Instant)
    requires c.rate >= 0.0 && FullAt(c, b, now)
    ensures Consume(c, b, now) == Consume(c, Full(c), now)
  {
    NewIsFull(c, now);
    assert Elapsed(now, b.lastUpdate) * c.rate == c.rate * Elapsed(now, b.lastUpdate);
  }

  lemma NewIsFull(c: Config, now: Instant)
    requires c.rate >= 0.0
    ensures Refilled(c, Full(c), now) == c.burst as real
  {
    MulMono(c.rate, 0.0, Elapsed(now, 0.0));
  }

  lemma TracksLater(c: Config, m: Buckets, ts: seq<Instant>, ip: IpAddr, floor: Instant, later: Instant)
    requires c.rate >= 0.0 && floor <= later && Tracks(c, m, ts, ip, floor)
    ensures Tracks(c, m, ts, ip, later)
  {
    if ip !in m && ts != [] {
      FullStaysFull(c, Replay(c, ts).0, floor, later);
    }
  }

  /** A bucket that a sweep at `now` finds stale is full for every caller who is late by at most `slack`. */
  lemma IdleIsFull(c: Config, b: Bucket, now: Instant, slack: real)
    requires c.rate >= 0.0 && RefillsFirst(c, slack) && slack >= 0.0
    requires b.tokens >= 0.0 && Elapsed(now, b.lastUpdate) >= c.entryTtl
    ensures FullAt(c, b, now - slack)
  {
    MulMono(c.rate, c.entryTtl - slack, Elapsed(now - slack, b.lastUpdate));
    MulMono(c.rate, 0.0, Elapsed(now - slack, b.lastUpdate));
  }

  lemma TracksSweep(c: Config, m: Buckets, ts: seq<Instant>, ip: IpAddr, floor: Instant, now: Instant, slack: real)
    requires c.rate >= 0.0 && RefillsFirst(c, slack) && slack >= 0.0
    requires Tracks(c, m, ts, ip, floor) && now - slack <= floor
    ensures Tracks(c, Sweep(c, m, now), ts, ip, floor)
  {
    hide RefillsFirst, FullAt, Elapsed;
    if ip in m && ip !in Sweep(c, m, now) {
      TokensAreNeverNegative(c, ts);
      IdleIsFull(c, m[ip], now, slack);
      FullStaysFull(c, m[ip], now - slack, floor);
    }
  }

  lemma TracksTake(c: Config, m: Buckets, ts: seq<Instant>, ip: IpAddr, floor: Instant, now: Instant)
    requires c.rate >= 0.0 && Tracks(c, m, ts, ip, floor) && floor <= now
    ensures Consume(c, Lookup(c, m, ip), now) == Consume(c, Replay(c, ts).0, now)
    ensures Tracks(c, Take(c, m, ip, now), ts + [now], ip, floor)
  {
    hide FullAt, Refilled, Elapsed;
    var b := Replay(c, ts).0;
    ReplayStep(c, ts, now);
    if ip !in m && ts != [] {
      FullStaysFull(c, b, floor, now);
      FullIsNew(c, b, now);
    }
    assert Consume(c, Lookup(c, m, ip), now) == Consume(c, b, now);
    assert Replay(c, ts + [now]).0 == Consume(c, b, now).0;
  }

  lemma TracksOther(
      c: Config, m: Buckets, ts: seq<Instant>, ip: IpAddr, floor: Instant, other: IpAddr, now: Instant)
    requires other != ip && Tracks(c, m, ts, ip, floor)
    ensures Tracks(c, Take(c, m, other, now), ts, ip, floor)
  {
  }

  lemma TracksStep(
      c: Config, m: Buckets, ts: seq<Instant>, ip: IpAddr, floor: Instant, step: Step, later: Instant, slack: real)
    requires c.rate >= 0.0 && RefillsFirst(c, slack) && slack >= 0.0
    requires Tracks(c, m, ts, ip, floor) && floor <= step.now && floor <= later && step.now - slack <= later
    ensures Tracks(c, Perform(c, m, step), ts + At(step, ip), ip, later)
  {
    hide Tracks, RefillsFirst;
    assert ts + [] == ts;
    match step
    case Sweeping(t) =>
      TracksLater(c, m, ts, ip, floor, later);
      TracksSweep(c, m, ts, ip, later, t, slack);
    case Taking(other, t) =>
      if other == ip {
        TracksTake(c, m, ts, ip, floor, t);
      } else {
        TracksOther(c, m, ts, ip, floor, other, t);
      }
      TracksLater(c, Perform(c, m, step), ts + At(step, ip), ip, floor, later);
  }

  lemma NothingTracked(c: Config, ip: IpAddr, floor: Instant)
    ensures Tracks(c, After(c, []), Times([], ip), ip, floor)
  {
  }

  /** Over every interleaving of sections that are late by at most `slack`, the map agrees with the private bucket of
      each address, or has dropped it when it was full for all who may still come. */
  lemma {:induction false} TracksAlways(c: Config, steps: seq<Step>, ip: IpAddr, floor: Instant, slack: real)
    requires c.rate >= 0.0 && RefillsFirst(c, slack) && slack >= 0.0
    requires Within(steps, slack) && NotBefore(steps, slack, floor)
    ensures Tracks(c, After(c, steps), Times(steps, ip), ip, floor)
  {
    hide Tracks, RefillsFirst;
    if steps == [] {
      NothingTracked(c, ip, floor);
    } else {
      var before, step := steps[..|steps| - 1], steps[|steps| - 1];
      var earlier := MinReal(floor, step.now);
      assert before + [step] == steps;
      WithinMore(before, step, slack);
      TracksAlways(c, before, ip, earlier, slack);
      TracksStep(c, After(c, before), Times(before, ip), ip, earlier, step, floor, slack);
    }
  }

  /** Eviction and the other addresses are invisible: whatever critical sections of whatever calls came before, a check
      is answered as by a private bucket that saw only this address's own checks and was never dropped, as long as
      callers are late by at most `slack` and buckets refill before one that late can find them dropped. */
  lemma SharedLimiterIsPrivateBuckets(c: Config, steps: seq<Step>, ip: IpAddr, now: Instant, slack: real)
    requires c.Valid() && RefillsFirst(c, slack) && slack >= 0.0
    requires Within(steps, slack) && NotBefore(steps, slack, now)
    ensures Answer(c, Lookup(c, After(c, steps), ip), now) == Answer(c, Replay(c, Times(steps, ip)).0, now)
  {
    TracksAlways(c, steps, ip, now, slack);
    TracksTake(c, After(c, steps), Times(steps, ip), ip, now, now);
  }

  /** Lateness matters: with refill time and TTL equal, a caller who is one second late finds the bucket dropped by a
      newer sweep and is let through, where the private bucket refuses. */
  lemma LateArrivalFindsBucketDropped()
    ensures var c, steps := Config(1.0 / 300.0, 1, 60.0, 300.0), [Taking(0, 0.0), Sweeping(300.0)];
            && RefillsFirst(c, 0.0) && NotBefore(steps, 1.0, 299.0)
            && Answer(c, Lookup(c, After(c, steps), 0), 299.0).Allowed?
            && Answer(c, Replay(c, Times(steps, 0)).0, 299.0).RateLimited?
  {
    hide Replay, After, Times;
    var c, take, sweep := Config(1.0 / 300.0, 1, 60.0, 300.0), Taking(0, 0.0), Sweeping(300.0);
    assert [take, sweep][..1] == [take] && [take][..0] == [];
    assert After(c, []) == map[] && Times([], 0) == [] && Replay(c, []).0 == Full(c) by { AtFirst(c); }
    OneMore(c, [], take, 0);
    OneMore(c, [take], sweep, 0);
    assert [] + [take] == [take] && [take] + [sweep] == [take, sweep] && [] + [0.0] == [0.0] && [0.0] + [] == [0.0];
    ReplayStep(c, [], 0.0);
    NewIsFull(c, 0.0);
    assert Replay(c, [0.0]).0 == Bucket(0.0, 0.0);
    assert 0 !in After(c, [take, sweep]);
    NewIsFull(c, 299.0);
    assert Refilled(c, Bucket(0.0, 0.0), 299.0) == 299.0 / 300.0;
  }

  lemma AtFirst(c: Config)
    ensures After(c, []) == map[] && (forall ip :: Times([], ip) == []) && Replay(c, []).0 == Full(c)
  {
  }

  lemma OneMore(c: Config, steps: seq<Step>, step: Step, ip: IpAddr)
    ensures After(c, steps + [step]) == Perform(c, After(c, steps), step)
    ensures Times(steps + [step], ip) == Times(steps, ip) + At(step, ip)
  {
    assert (steps + [step])[..|steps|] == steps;
  }
}
