/** The rate limiter as the program runs it: buckets updated in place inside a shared map. */
module RateLimiters {
  import opened Arith
  import opened RateLimit
  import opened RateLimitLaws

  class TokenBucket {
    var tokens: real
    var lastUpdate: Instant

    ghost function State(): Bucket
      reads this
    {
      Bucket(tokens, lastUpdate)
    }

    /** `TokenBucket::new` reads the clock itself, so `created` may be later than the caller's `now`. */
    constructor (burst: nat, created: Instant)
      ensures State() == Bucket(burst as real, created)
    {
      tokens := burst as real;
      lastUpdate := created;
    }

    method TryConsume(config: Config, now: Instant) returns (ok: bool)
      modifies this
      ensures (State(), ok) == Consume(config, old(State()), now)
    {
      var elapsed := Elapsed(now, lastUpdate);
      var newTokens := elapsed * config.rate;
      tokens := if tokens + newTokens <= config.burst as real then tokens + newTokens else config.burst as real;
      assert tokens == Refilled(config, old(State()), now);
      lastUpdate := now;
      if tokens >= 1.0 {
        tokens := tokens - 1.0;
        ok := true;
      } else {
        ok := false;
      }
    }

    method TimeUntilNextToken(config: Config) returns (wait: real)
      requires config.Valid()
      ensures wait == RetryAfter(config, State())
    {
      if tokens >= 1.0 {
        wait := 0.0;
      } else {
        var tokensNeeded := 1.0 - tokens;
        wait := tokensNeeded / config.rate;
      }
    }
  }

  class RateLimiter {
    const config: Config
    var buckets: map<IpAddr, TokenBucket>
    var lastCleanup: Instant

    /** Each address owns its bucket. */
    ghost predicate Valid()
      reads this
    {
      && config.Valid()
      && (forall ip, ip' :: ip in buckets && ip' in buckets && ip != ip' ==> buckets[ip] != buckets[ip'])
    }

    ghost function View(): Limiter
      reads this, buckets.Values
    {
      Limiter(map ip | ip in buckets :: buckets[ip].State(), lastCleanup)
    }

    constructor (config: Config, created: Instant)
      requires config.Valid()
      ensures Valid() && this.config == config && View() == Limiter(map[], created)
    {
      this.config := config;
      buckets := map[];
      lastCleanup := created;
    }

    method CheckRateLimit(ip: IpAddr, now: Instant, created: Instant) returns (verdict: Verdict)
      requires Valid()
      modifies this, buckets.Values
      ensures Valid() && fresh(buckets.Values - old(buckets.Values))
      ensures (View(), verdict) == Check(config, old(View()), ip, now)
    {
      hide Sweep, Answer, Consume, Elapsed;
      if config.rate >= 1_000_000.0 {
        return Allowed;
      }
      if Elapsed(now, lastCleanup) >= config.cleanupInterval {
        CleanupStaleEntries(now);
        lastCleanup := now;
      }
      assert View() == MaybeSweep(config, old(View()), now);
      verdict := TakeToken(ip, now, created);
    }

    /** The second critical section: find or create the bucket, and consume. */
    method TakeToken(ip: IpAddr, now: Instant, created: Instant) returns (verdict: Verdict)
      requires Valid()
      modifies this`buckets, buckets.Values
      ensures Valid() && fresh(buckets.Values - old(buckets.Values))
      ensures View() == Limiter(Take(config, old(View()).buckets, ip, now), lastCleanup)
      ensures verdict == Answer(config, Lookup(config, old(View()).buckets, ip), now)
    {
      hide Consume, RetryAfter, Sweep, MaybeSweep, Elapsed;
      var bucket := Entry(ip, created);
      AnyNewBucket(config, created, now);
      ghost var m := old(View()).buckets;
      assert Consume(config, bucket.State(), now) == Consume(config, Lookup(config, m, ip), now);
      assert View().buckets == m[ip := bucket.State()];
      var ok := ConsumeFrom(ip, now);
      assert View().buckets == m[ip := bucket.State()] == Take(config, m, ip, now);
      if ok {
        verdict := Allowed;
      } else {
        var retryAfter := bucket.TimeUntilNextToken(config);
        verdict := RateLimited(retryAfter);
      }
    }

    method ConsumeFrom(ip: IpAddr, now: Instant) returns (ok: bool)
      requires Valid() && ip in buckets
      modifies buckets[ip]
      ensures (buckets[ip].State(), ok) == Consume(config, old(buckets[ip].State()), now)
      ensures View() == old(View()).(buckets := old(View()).buckets[ip := buckets[ip].State()])
    {
      hide Consume;
      ok := buckets[ip].TryConsume(config, now);
      OneChanged(old(View()).buckets, View().buckets, ip);
    }

    method Entry(ip: IpAddr, created: Instant) returns (bucket: TokenBucket)
      requires Valid()
      modifies this`buckets
      ensures Valid() && ip in buckets && bucket == buckets[ip]
      ensures bucket in old(buckets.Values) || fresh(bucket)
      ensures buckets.Values <= old(buckets.Values) + {bucket}
      ensures bucket.State() ==
              if ip in old(View()).buckets then old(View()).buckets[ip] else Bucket(config.burst as real, created)
      ensures View().buckets == old(View()).buckets[ip := bucket.State()]
    {
      if ip in buckets {
        bucket := buckets[ip];
      } else {
        bucket := new TokenBucket(config.burst, created);
        buckets := buckets[ip := bucket];
      }
    }

    method CleanupStaleEntries(now: Instant)
      requires Valid()
      modifies this`buckets
      ensures Valid() && buckets.Values <= old(buckets.Values)
      ensures View() == Limiter(Sweep(config, old(View()).buckets, now), lastCleanup)
    {
      buckets := map ip | ip in buckets && Elapsed(now, buckets[ip].lastUpdate) < config.entryTtl :: buckets[ip];
    }
  }

  lemma OneChanged(m: Buckets, m': Buckets, ip: IpAddr)
    requires ip in m && m'.Keys == m.Keys && forall other :: other in m && other != ip ==> m'[other] == m[other]
    ensures m' == m[ip := m'[ip]]
  {
  }

  /** When a bucket is created does not matter: it is full whatever the clock says. */
  lemma AnyNewBucket(c: Config, created: Instant, now: Instant)
    requires c.Valid()
    ensures Consume(c, Bucket(c.burst as real, created), now) == Consume(c, Full(c), now)
  {
    NewIsFull(c, now);
    MulMono(c.rate, 0.0, Elapsed(now, created));
  }
}
