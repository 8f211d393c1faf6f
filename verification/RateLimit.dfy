/** The token-bucket rate limiter as values: one bucket, and the map of buckets shared by all addresses. */
module RateLimit {
  import opened Arith

  type IpAddr = nat
  type Instant = real // seconds on the monotonic clock

  datatype Config = Config(rate: real, burst: nat, cleanupInterval: real, entryTtl: real)
  {
    /** `time_until_next_token` divides by the rate and panics on a result that is not a duration. */
    predicate Valid() {
      rate > 0.0 && cleanupInterval >= 0.0 && entryTtl >= 0.0
    }

    /** Rates of a million per second and above switch the limiter off. */
    predicate Enabled() {
      rate < 1_000_000.0
    }
  }

  const DEFAULT_CLEANUP_INTERVAL := 60.0
  const DEFAULT_ENTRY_TTL := 300.0

  /** The smallest integer not below `x`, cast to u32. */
  function CeilU32(x: real): nat {
    Truncate(if x.Floor as real == x then x else (x.Floor + 1) as real, U32_MAX)
  }

  function PerSecond(rps: real): Config {
    Config(rps, CeilU32(rps * 2.0), DEFAULT_CLEANUP_INTERVAL, DEFAULT_ENTRY_TTL)
  }

  function PerMinute(rpm: nat): Config {
    PerSecond(rpm as real / 60.0)
  }

  datatype Bucket = Bucket(tokens: real, lastUpdate: Instant)

  datatype Verdict = Allowed | RateLimited(retryAfter: real)

  /** A new bucket. The instant of creation never matters: it is full. */
  function Full(c: Config): Bucket {
    Bucket(c.burst as real, 0.0)
  }

  function Refilled(c: Config, b: Bucket, now: Instant): real {
    MinReal(b.tokens + Elapsed(now, b.lastUpdate) * c.rate, c.burst as real)
  }

  /** `try_consume`: refill, cap, and take one token when there is one. */
  function Consume(c: Config, b: Bucket, now: Instant): (Bucket, bool) {
    var tokens := Refilled(c, b, now);
    if tokens >= 1.0 then (Bucket(tokens - 1.0, now), true) else (Bucket(tokens, now), false)
  }

  function RetryAfter(c: Config, b: Bucket): real
    requires c.rate > 0.0
  {
    if b.tokens >= 1.0 then 0.0 else (1.0 - b.tokens) / c.rate
  }

  /** What the limiter answers when the bucket it finds is `b`. */
  function Answer(c: Config, b: Bucket, now: Instant): Verdict
    requires c.rate > 0.0
  {
    var (b', ok) := Consume(c, b, now);
    if ok then Allowed else RateLimited(RetryAfter(c, b'))
  }

  // ---------- the shared map ----------

  type Buckets = map<IpAddr, Bucket>

  function Lookup(c: Config, m: Buckets, ip: IpAddr): Bucket {
    if ip in m then m[ip] else Full(c)
  }

  /** `cleanup_stale_entries`: keep what was used less than `entry_ttl` ago. */
  function Sweep(c: Config, m: Buckets, now: Instant): Buckets {
    map ip | ip in m && Elapsed(now, m[ip].lastUpdate) < c.entryTtl :: m[ip]
  }

  function Take(c: Config, m: Buckets, ip: IpAddr, now: Instant): Buckets {
    m[ip := Consume(c, Lookup(c, m, ip), now).0]
  }

  datatype Limiter = Limiter(buckets: Buckets, lastCleanup: Instant)

  /** The first critical section of `check_rate_limit`. */
  function MaybeSweep(c: Config, l: Limiter, now: Instant): Limiter {
    if Elapsed(now, l.lastCleanup) >= c.cleanupInterval then Limiter(Sweep(c, l.buckets, now), now) else l
  }

  /** `check_rate_limit`: the new state and the answer. */
  function Check(c: Config, l: Limiter, ip: IpAddr, now: Instant): (Limiter, Verdict)
    requires c.Valid()
  {
    if !c.Enabled() then
      (l, Allowed)
    else
      var l1 := MaybeSweep(c, l, now);
      (Limiter(Take(c, l1.buckets, ip, now), l1.lastCleanup), Answer(c, Lookup(c, l1.buckets, ip), now))
  }
}
