/** What each configuration lets through and keeps: the switch-off rate, bursts, the stock settings, the cleanup. */
module Admission {
  import opened Arith
  import opened RateLimit
  import opened RateLimitLaws
  import opened SharedRateLimit

  // ---------- the switch-off rate ----------

  /** From a million per second on, every request of every run is allowed and no address is ever tracked. */
  lemma {:induction false} UnlimitedAllowsAll(c: Config, start: Instant, rs: seq<Request>, ip: IpAddr, now: Instant)
    requires c.Valid() && c.rate >= 1_000_000.0
    ensures LimiterAfter(c, start, rs) == Limiter(map[], start)
    ensures Check(c, LimiterAfter(c, start, rs), ip, now).1 == Allowed
    ensures forall k :: 0 <= k < |Instants(rs, ip)| ==> Verdicts(c, start, rs, ip)[k]
  {
    if rs != [] {
      var before, r := rs[..|rs| - 1], rs[|rs| - 1];
      UnlimitedAllowsAll(c, start, before, ip, r.at);
    }
  }

  /** Below it, every request is recorded in the bucket of its address. */
  lemma LimitedIsRecorded(c: Config, l: Limiter, ip: IpAddr, now: Instant)
    requires c.Valid() && c.rate < 1_000_000.0
    ensures var l' := Check(c, l, ip, now).0; ip in l'.buckets && l'.buckets[ip].lastUpdate == now
  {
  }

  // ---------- bursts ----------

  function AtOnce(ip: IpAddr, at: Instant, n: nat): seq<Request> {
    seq(n, _ => Request(ip, at))
  }

  lemma AtOnceStep(ip: IpAddr, at: Instant, n: nat)
    ensures AtOnce(ip, at, n + 1) == AtOnce(ip, at, n) + [Request(ip, at)]
  {
  }

  /** A bucket that is dropped as soon as it is used never limits anybody. */
  predicate Remembers(c: Config) {
    c.entryTtl > 0.0 || c.cleanupInterval > 0.0
  }

  /** The limiter after `k` requests of one address at one instant. */
  ghost predicate Drained(c: Config, l: Limiter, ip: IpAddr, at: Instant, k: nat) {
    if k == 0 then l.buckets == map[]
    else
      && l.buckets == map[ip := Bucket((if k < c.burst then c.burst - k else 0) as real, at)]
      && Elapsed(at, l.lastCleanup) <= c.cleanupInterval
      && (c.cleanupInterval > 0.0 ==> Elapsed(at, l.lastCleanup) < c.cleanupInterval)
  }

  lemma DrainStep(c: Config, l: Limiter, ip: IpAddr, at: Instant, k: nat)
    requires c.Valid() && c.rate < 1_000_000.0 && Remembers(c) && Drained(c, l, ip, at, k)
    ensures var (l', verdict) := Check(c, l, ip, at);
      && Drained(c, l', ip, at, k + 1)
      && verdict == if k < c.burst then Allowed else RateLimited(1.0 / c.rate)
  {
    var l1 := MaybeSweep(c, l, at);
    NewIsFull(c, at);
    assert Elapsed(at, at) * c.rate == 0.0;
    assert l1.buckets == l.buckets;
  }

  lemma {:induction false} DrainedBy(c: Config, start: Instant, ip: IpAddr, at: Instant, k: nat)
    requires c.Valid() && c.rate < 1_000_000.0 && Remembers(c)
    ensures Drained(c, LimiterAfter(c, start, AtOnce(ip, at, k)), ip, at, k)
  {
    hide Check, Remembers, Drained;
    if k == 0 {
      assert Drained(c, Limiter(map[], start), ip, at, 0) by { NothingDrained(c, start, ip, at); }
    } else {
      DrainedBy(c, start, ip, at, k - 1);
      AtOnceStep(ip, at, k - 1);
      LimiterStep(c, start, AtOnce(ip, at, k - 1), Request(ip, at));
      DrainStep(c, LimiterAfter(c, start, AtOnce(ip, at, k - 1)), ip, at, k - 1);
    }
  }

  lemma NothingDrained(c: Config, start: Instant, ip: IpAddr, at: Instant)
    ensures Drained(c, Limiter(map[], start), ip, at, 0)
  {
  }

  /** Of the requests of one address at one instant exactly the first `burst` are allowed; the others are told to wait
      for the time in which one token arrives. */
  lemma BurstAdmits(c: Config, start: Instant, ip: IpAddr, at: Instant, k: nat)
    requires c.Valid() && c.rate < 1_000_000.0 && Remembers(c)
    ensures Check(c, LimiterAfter(c, start, AtOnce(ip, at, k)), ip, at).1
         == if k < c.burst then Allowed else RateLimited(1.0 / c.rate)
  {
    hide Check, Drained, LimiterAfter;
    DrainedBy(c, start, ip, at, k);
    DrainStep(c, LimiterAfter(c, start, AtOnce(ip, at, k)), ip, at, k);
  }

  /** No request is ever refused. */
  ghost predicate NeverLimits(c: Config, start: Instant)
    requires c.Valid()
  {
    forall rs: seq<Request>, ip, now :: Check(c, LimiterAfter(c, start, rs), ip, now).1 == Allowed
  }

  lemma ForgetfulAllows(c: Config, l: Limiter, ip: IpAddr, now: Instant)
    requires c.Valid() && c.burst > 0 && !Remembers(c)
    ensures Check(c, l, ip, now).1 == Allowed
  {
    NewIsFull(c, now);
    assert ip !in MaybeSweep(c, l, now).buckets;
  }

  /** A limiter never limits iff its rate switches it off, or its cleanup drops every bucket before each request. */
  lemma NeverLimitsIff(c: Config, start: Instant)
    requires c.Valid()
    ensures NeverLimits(c, start) <==>
            c.rate >= 1_000_000.0 || (c.burst > 0 && c.entryTtl == 0.0 && c.cleanupInterval == 0.0)
  {
    hide Check, LimiterAfter;
    if c.rate >= 1_000_000.0 {
      forall rs: seq<Request>, ip, now ensures Check(c, LimiterAfter(c, start, rs), ip, now).1 == Allowed {
        UnlimitedAllowsAll(c, start, rs, ip, now);
      }
    } else if c.burst > 0 && !Remembers(c) {
      forall rs: seq<Request>, ip, now ensures Check(c, LimiterAfter(c, start, rs), ip, now).1 == Allowed {
        ForgetfulAllows(c, LimiterAfter(c, start, rs), ip, now);
      }
    } else if Remembers(c) {
      BurstAdmits(c, start, 0, start, c.burst);
    } else {
      NoBurstLimits(c, LimiterAfter(c, start, []), 0, start);
    }
  }

  lemma NoBurstLimits(c: Config, l: Limiter, ip: IpAddr, now: Instant)
    requires c.Valid() && c.rate < 1_000_000.0 && c.burst == 0 && !Remembers(c)
    ensures Check(c, l, ip, now).1.RateLimited?
  {
    NewIsFull(c, now);
    assert ip !in MaybeSweep(c, l, now).buckets;
  }

  // ---------- the stock settings ----------

  lemma CeilIff(x: real, k: nat)
    requires 0.0 <= x <= U32_MAX as real
    ensures k < CeilU32(x) <==> k as real < x
    ensures x <= CeilU32(x) as real < x + 1.0
  {
    assert x.Floor as real <= x < (x.Floor + 1) as real;
  }

  /** `rps` requests per second: at one instant, an address gets its `k`-th request (from 0) through iff `k` is below
      twice `rps`, and is then told to wait for one `rps`-th of a second. */
  lemma PerSecondAdmits(rps: real, start: Instant, ip: IpAddr, at: Instant, k: nat)
    requires 0.0 < rps < 1_000_000.0
    ensures var c := PerSecond(rps);
      Check(c, LimiterAfter(c, start, AtOnce(ip, at, k)), ip, at).1
      == if k as real < rps * 2.0 then Allowed else RateLimited(1.0 / rps)
  {
    hide Check, LimiterAfter;
    CeilIff(rps * 2.0, k);
    BurstAdmits(PerSecond(rps), start, ip, at, k);
  }

  /** `rpm` requests per minute: the `k`-th gets through iff `k` is below a thirtieth of `rpm`, that is two seconds'
      worth, and the wait is one `rpm`-th of a minute. */
  lemma PerMinuteAdmits(rpm: nat, start: Instant, ip: IpAddr, at: Instant, k: nat)
    requires 0 < rpm < 60_000_000
    ensures var c := PerMinute(rpm);
      Check(c, LimiterAfter(c, start, AtOnce(ip, at, k)), ip, at).1
      == if 30 * k < rpm then Allowed else RateLimited(60.0 / rpm as real)
  {
    hide Check, LimiterAfter;
    var rps := rpm as real / 60.0;
    PerSecondAdmits(rps, start, ip, at, k);
    assert (30 * k) as real == 30.0 * k as real;
    Reciprocal(rpm as real);
  }

  lemma Reciprocal(x: real)
    requires x > 0.0
    ensures 1.0 / (x / 60.0) == 60.0 / x
  {
    var y := x / 60.0;
    assert 1.0 / y == 60.0 / x by {
      assert y * (60.0 / x) == 1.0;
    }
  }

  /** In any interval of `d` seconds, whatever the other clients do, an address gets fewer than (2 + d) * rps + 1
      requests through, from one request per 300 seconds upwards. */
  lemma PerSecondBound(rps: real, start: Instant, rs: seq<Request>, ip: IpAddr, from: Instant, to: Instant)
    requires 1.0 <= rps * 300.0 && rps < 1_000_000.0 && Timely(start, rs, 0.0) && from <= to
    ensures AdmittedBetween(Instants(rs, ip), Verdicts(PerSecond(rps), start, rs, ip), from, to) as real
          < (2.0 + (to - from)) * rps + 1.0
  {
    hide Verdicts, Instants, AdmittedBetween, RefillsFirst, Timely;
    CeilIff(rps * 2.0, 0);
    PerSecondRefillsBeforeEviction(rps);
    SharedWindowBound(PerSecond(rps), start, rs, ip, from, to);
    TwoMore(rps, to - from);
  }

  lemma TwoMore(rps: real, d: real)
    ensures rps * 2.0 + rps * d == (2.0 + d) * rps
  {
  }

  /** Per minute: fewer than rpm + rpm / 30 + 1 in any sixty seconds. */
  lemma PerMinuteBound(rpm: nat, start: Instant, rs: seq<Request>, ip: IpAddr, from: Instant)
    requires 0 < rpm < 60_000_000 && Timely(start, rs, 0.0)
    ensures AdmittedBetween(Instants(rs, ip), Verdicts(PerMinute(rpm), start, rs, ip), from, from + 60.0) as real
          < rpm as real + rpm as real / 30.0 + 1.0
  {
    hide Verdicts, Instants, AdmittedBetween, RefillsFirst, Timely;
    PerSecondBound(rpm as real / 60.0, start, rs, ip, from, from + 60.0);
  }

  // ---------- the cleanup ----------

  /** A check cleans up iff the interval has passed; then exactly the other addresses used less than the TTL ago stay
      tracked, as they were. Otherwise nothing is dropped. */
  lemma CleansUpExactly(c: Config, l: Limiter, ip: IpAddr, now: Instant, other: IpAddr)
    requires c.Valid() && c.rate < 1_000_000.0 && other != ip
    ensures var l' := Check(c, l, ip, now).0;
      var due := now - l.lastCleanup >= c.cleanupInterval || c.cleanupInterval == 0.0;
      && l'.lastCleanup == (if due then now else l.lastCleanup)
      && (other in l'.buckets <==>
          other in l.buckets && (due ==> c.entryTtl > 0.0 && now - l.buckets[other].lastUpdate < c.entryTtl))
      && (other in l'.buckets ==> l'.buckets[other] == l.buckets[other])
  {
  }

  /** The instant at which the last of some requests of `ip` came. */
  function LastUse(rs: seq<Request>, ip: IpAddr): Instant
    requires Instants(rs, ip) != []
  {
    Instants(rs, ip)[|Instants(rs, ip)| - 1]
  }

  /** At `now`, after `rs`, address `ip` is tracked only if its last request is at most interval and TTL old, and
      untracked only if it is at least the TTL old. */
  ghost predicate TrackedIfRecent(c: Config, l: Limiter, rs: seq<Request>, ip: IpAddr, now: Instant) {
    if ip in l.buckets then
      && Instants(rs, ip) != [] && l.buckets[ip].lastUpdate == LastUse(rs, ip) <= now
      && (LastUse(rs, ip) >= l.lastCleanup || l.lastCleanup - LastUse(rs, ip) < c.entryTtl)
    else
      Instants(rs, ip) != [] ==> now - LastUse(rs, ip) >= c.entryTtl
  }

  lemma RecentStep(c: Config, l: Limiter, rs: seq<Request>, r: Request, ip: IpAddr, now: Instant)
    requires c.Valid() && c.rate < 1_000_000.0 && now <= r.at && l.lastCleanup <= now
    requires TrackedIfRecent(c, l, rs, ip, now)
    ensures TrackedIfRecent(c, Check(c, l, r.ip, r.at).0, rs + [r], ip, r.at)
  {
    hide Instants, Consume;
    InstantsStep(rs, r, ip);
    if ip != r.ip {
      assert Instants(rs, ip) + [] == Instants(rs, ip);
      CleansUpExactly(c, l, r.ip, r.at, ip);
    } else {
      LimitedIsRecorded(c, l, ip, r.at);
      SweptNotAfter(c, l, ip, r.at);
    }
  }

  lemma SweptNotAfter(c: Config, l: Limiter, ip: IpAddr, now: Instant)
    requires c.Valid() && c.rate < 1_000_000.0 && l.lastCleanup <= now
    ensures var l' := Check(c, l, ip, now).0;
      l'.lastCleanup <= now && (now - l'.lastCleanup < c.cleanupInterval || l'.lastCleanup == now)
  {
  }

  function LastAt(start: Instant, rs: seq<Request>): Instant {
    if rs == [] then start else rs[|rs| - 1].at
  }

  lemma {:induction false} Recent(c: Config, start: Instant, rs: seq<Request>, ip: IpAddr)
    requires c.Valid() && c.rate < 1_000_000.0 && Timely(start, rs, 0.0)
    ensures var l, now := LimiterAfter(c, start, rs), LastAt(start, rs);
      && TrackedIfRecent(c, l, rs, ip, now) && l.lastCleanup <= now
      && (now - l.lastCleanup < c.cleanupInterval || l.lastCleanup == now)
  {
    hide Check, TrackedIfRecent, Timely;
    if rs == [] {
      assert TrackedIfRecent(c, Limiter(map[], start), [], ip, start) by { NothingTracked(c, start, ip); }
    } else {
      var before, r := rs[..|rs| - 1], rs[|rs| - 1];
      assert before + [r] == rs;
      TimelyMore(start, before, r, 0.0);
      Recent(c, start, before, ip);
      RecentStep(c, LimiterAfter(c, start, before), before, r, ip, LastAt(start, before));
      SweptNotAfter(c, LimiterAfter(c, start, before), r.ip, r.at);
    }
  }

  lemma NothingTracked(c: Config, start: Instant, ip: IpAddr)
    ensures TrackedIfRecent(c, Limiter(map[], start), [], ip, start)
  {
  }

  /** After every run in time order, an address whose last request is less than the TTL old is tracked, and one whose
      last request is more than the TTL and the cleanup interval old is not: memory is bounded by recent clients. */
  lemma TracksRecentAddresses(c: Config, start: Instant, rs: seq<Request>, ip: IpAddr)
    requires c.Valid() && c.rate < 1_000_000.0 && Timely(start, rs, 0.0)
    ensures var tracked := ip in LimiterAfter(c, start, rs).buckets;
      && (Instants(rs, ip) == [] ==> !tracked)
      && (Instants(rs, ip) != [] ==>
          var idle := rs[|rs| - 1].at - LastUse(rs, ip);
          && (idle < c.entryTtl ==> tracked)
          && (idle > c.entryTtl + c.cleanupInterval ==> !tracked))
  {
    hide Check, LimiterAfter, Timely;
    Recent(c, start, rs, ip);
  }

  /** With the stock settings a check cleans up iff the last cleanup is sixty seconds ago, and drops exactly the other
      addresses last used 300 seconds ago or earlier. */
  lemma PerSecondCleansUp(rps: real, l: Limiter, ip: IpAddr, now: Instant, other: IpAddr)
    requires 0.0 < rps < 1_000_000.0 && other != ip && other in l.buckets
    ensures other in Check(PerSecond(rps), l, ip, now).0.buckets <==>
            now - l.lastCleanup < 60.0 || now - l.buckets[other].lastUpdate < 300.0
  {
    hide CeilU32;
    CleansUpExactly(PerSecond(rps), l, ip, now, other);
  }

  /** With the stock settings: tracked for at least 300 seconds after the last request, for at most 360. */
  lemma PerSecondTracks(rps: real, start: Instant, rs: seq<Request>, ip: IpAddr)
    requires 0.0 < rps < 1_000_000.0 && Timely(start, rs, 0.0) && Instants(rs, ip) != []
    ensures var idle := rs[|rs| - 1].at - LastUse(rs, ip);
      var tracked := ip in LimiterAfter(PerSecond(rps), start, rs).buckets;
      (idle < 300.0 ==> tracked) && (idle > 360.0 ==> !tracked)
  {
    hide LimiterAfter, Timely, CeilU32;
    TracksRecentAddresses(PerSecond(rps), start, rs, ip);
  }
}
