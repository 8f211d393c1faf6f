/** The limiter as its callers see it: whole runs of `check_rate_limit`, from the limiter's creation on. */
module SharedRateLimit {
  import opened Arith
  import opened RateLimit
  import opened RateLimitLaws

  datatype Request = Request(ip: IpAddr, at: Instant)

  function LimiterAfter(c: Config, start: Instant, rs: seq<Request>): Limiter
    requires c.Valid()
  {
    if rs == [] then Limiter(map[], start)
    else Check(c, LimiterAfter(c, start, rs[..|rs| - 1]), rs[|rs| - 1].ip, rs[|rs| - 1].at).0
  }

  /** The instants at which `ip` was checked. */
  function Instants(rs: seq<Request>, ip: IpAddr): seq<Instant> {
    if rs == [] then []
    else Instants(rs[..|rs| - 1], ip) + (if rs[|rs| - 1].ip == ip then [rs[|rs| - 1].at] else [])
  }

  /** Requests after the creation of the limiter, in time order but for lateness of up to `slack`. */
  ghost predicate Timely(start: Instant, rs: seq<Request>, slack: real) {
    && (forall i :: 0 <= i < |rs| ==> start <= rs[i].at)
    && LateBy(Ats(rs), slack)
  }

  function Ats(rs: seq<Request>): seq<Instant> {
    seq(|rs|, i requires 0 <= i < |rs| => rs[i].at)
  }

  lemma InstantsStep(rs: seq<Request>, r: Request, ip: IpAddr)
    ensures Instants(rs + [r], ip) == Instants(rs, ip) + (if r.ip == ip then [r.at] else [])
  {
    assert (rs + [r])[..|rs|] == rs;
  }

  /** `steps` are critical sections that lead to the buckets `m` and serve exactly the requests `rs`. */
  ghost predicate Serves(c: Config, m: Buckets, steps: seq<Step>, rs: seq<Request>, slack: real) {
    && m == After(c, steps)
    && Within(steps, slack)
    && (forall ip :: Times(steps, ip) == Instants(rs, ip))
  }

  lemma ServesSweep(c: Config, m: Buckets, steps: seq<Step>, rs: seq<Request>, now: Instant, slack: real)
    requires Serves(c, m, steps, rs, slack) && NotBefore(steps, slack, now) && slack >= 0.0
    ensures Serves(c, Sweep(c, m, now), steps + [Sweeping(now)], rs, slack)
  {
    hide Sweep;
    forall ip ensures Times(steps + [Sweeping(now)], ip) == Instants(rs, ip) {
      OneMore(c, steps, Sweeping(now), ip);
      assert Times(steps, ip) + [] == Times(steps, ip);
    }
    OneMore(c, steps, Sweeping(now), 0);
    WithinMore(steps, Sweeping(now), slack);
  }

  lemma ServesTake(c: Config, m: Buckets, steps: seq<Step>, rs: seq<Request>, r: Request, slack: real)
    requires Serves(c, m, steps, rs, slack) && NotBefore(steps, slack, r.at) && slack >= 0.0
    ensures Serves(c, Take(c, m, r.ip, r.at), steps + [Taking(r.ip, r.at)], rs + [r], slack)
  {
    hide Take;
    forall ip ensures Times(steps + [Taking(r.ip, r.at)], ip) == Instants(rs + [r], ip) {
      OneMore(c, steps, Taking(r.ip, r.at), ip);
      InstantsStep(rs, r, ip);
    }
    OneMore(c, steps, Taking(r.ip, r.at), 0);
    WithinMore(steps, Taking(r.ip, r.at), slack);
  }

  lemma NoSections(c: Config, slack: real)
    ensures Serves(c, map[], [], [], slack)
  {
  }

  /** The critical sections before the bucket of the next request is looked up. */
  lemma SectionsBefore(c: Config, l: Limiter, steps: seq<Step>, rs: seq<Request>, now: Instant, slack: real)
    returns (steps': seq<Step>)
    requires Serves(c, l.buckets, steps, rs, slack) && NotBefore(steps, slack, now) && slack >= 0.0
    ensures Serves(c, MaybeSweep(c, l, now).buckets, steps', rs, slack) && NotBefore(steps', slack, now)
    ensures steps' == steps || steps' == steps + [Sweeping(now)]
  {
    steps' := steps;
    if Elapsed(now, l.lastCleanup) >= c.cleanupInterval {
      ServesSweep(c, l.buckets, steps, rs, now, slack);
      steps' := steps + [Sweeping(now)];
    }
  }

  lemma CheckTakes(c: Config, l: Limiter, ip: IpAddr, now: Instant)
    requires c.Valid() && c.Enabled()
    ensures Check(c, l, ip, now).0.buckets == Take(c, MaybeSweep(c, l, now).buckets, ip, now)
    ensures Check(c, l, ip, now).1 == Answer(c, Lookup(c, MaybeSweep(c, l, now).buckets, ip), now)
  {
  }

  /** Every section belongs to some request. */
  ghost predicate Belong(steps: seq<Step>, rs: seq<Request>) {
    forall i :: 0 <= i < |steps| ==> SomeAt(rs, steps[i].now)
  }

  ghost predicate SomeAt(rs: seq<Request>, at: Instant) {
    exists j :: 0 <= j < |rs| && rs[j].at == at
  }

  lemma BelongMore(steps: seq<Step>, steps': seq<Step>, rs: seq<Request>, r: Request)
    requires Belong(steps, rs)
    requires steps' == steps || steps' == steps + [Sweeping(r.at)]
    ensures Belong(steps' + [Taking(r.ip, r.at)], rs + [r])
  {
    var all, sections := rs + [r], steps' + [Taking(r.ip, r.at)];
    forall i | 0 <= i < |sections| ensures SomeAt(all, sections[i].now) {
      if i < |steps| {
        assert SomeAt(rs, steps[i].now);
        var j :| 0 <= j < |rs| && rs[j].at == steps[i].now;
        assert all[j].at == sections[i].now;
      } else {
        assert all[|rs|].at == sections[i].now;
      }
    }
  }

  lemma TimelyMore(start: Instant, rs: seq<Request>, r: Request, slack: real)
    requires Timely(start, rs + [r], slack)
    ensures Timely(start, rs, slack) && start <= r.at && forall i :: 0 <= i < |rs| ==> rs[i].at - slack <= r.at
  {
    hide LateBy;
    var all := rs + [r];
    LateByMore(Ats(rs), r.at, slack);
    assert Ats(all) == Ats(rs) + [r.at];
    assert forall i :: 0 <= i < |rs| ==> Ats(rs)[i] == rs[i].at == all[i].at;
    assert all[|rs|] == r;
  }

  lemma SectionsNotBefore(start: Instant, steps: seq<Step>, rs: seq<Request>, r: Request, slack: real)
    requires Belong(steps, rs) && Timely(start, rs + [r], slack)
    ensures NotBefore(steps, slack, r.at)
  {
    hide Timely;
    TimelyMore(start, rs, r, slack);
    forall i | 0 <= i < |steps| ensures steps[i].now - slack <= r.at {
      assert SomeAt(rs, steps[i].now);
    }
  }

  /** Every run of `check_rate_limit` calls is a run of critical sections, late by no more than the calls. */
  lemma {:induction false} LimiterTakesSections(c: Config, start: Instant, rs: seq<Request>, slack: real)
    returns (steps: seq<Step>)
    requires c.Valid() && c.Enabled() && Timely(start, rs, slack) && slack >= 0.0
    ensures Serves(c, LimiterAfter(c, start, rs).buckets, steps, rs, slack) && Belong(steps, rs)
  {
    hide MaybeSweep, Take, Check, Serves, Timely, Belong, NotBefore;
    if rs == [] {
      steps := [];
      NoSections(c, slack);
      assert Belong(steps, rs) by { NoneBelong(); }
    } else {
      var before, r := rs[..|rs| - 1], rs[|rs| - 1];
      assert before + [r] == rs;
      TimelyMore(start, before, r, slack);
      var earlier := LimiterTakesSections(c, start, before, slack);
      SectionsNotBefore(start, earlier, before, r, slack);
      var l := LimiterAfter(c, start, before);
      CheckTakes(c, l, r.ip, r.at);
      var swept := SectionsBefore(c, l, earlier, before, r.at, slack);
      ServesTake(c, MaybeSweep(c, l, r.at).buckets, swept, before, r, slack);
      BelongMore(earlier, swept, before, r);
      steps := swept + [Taking(r.ip, r.at)];
    }
  }

  lemma NoneBelong()
    ensures Belong([], [])
  {
  }

  /** The limiter answers every request, of every run late by at most `slack`, as private buckets that are never
      dropped would. */
  ghost predicate Faithful(c: Config, start: Instant, slack: real)
    requires c.Valid()
  {
    forall rs: seq<Request>, ip, now :: Timely(start, rs + [Request(ip, now)], slack) ==>
      Check(c, LimiterAfter(c, start, rs), ip, now).1 == Answer(c, Replay(c, Instants(rs, ip)).0, now)
  }

  lemma AnswerIsPrivate(c: Config, start: Instant, rs: seq<Request>, ip: IpAddr, now: Instant, slack: real)
    requires c.Valid() && c.Enabled() && RefillsFirst(c, slack) && slack >= 0.0
    requires Timely(start, rs + [Request(ip, now)], slack)
    ensures Check(c, LimiterAfter(c, start, rs), ip, now).1 == Answer(c, Replay(c, Instants(rs, ip)).0, now)
  {
    hide Check, Replay, Answer, RefillsFirst, Timely, Belong, NotBefore, MaybeSweep, LimiterAfter;
    TimelyMore(start, rs, Request(ip, now), slack);
    var l := LimiterAfter(c, start, rs);
    var steps := LimiterTakesSections(c, start, rs, slack);
    SectionsNotBefore(start, steps, rs, Request(ip, now), slack);
    steps := SectionsBefore(c, l, steps, rs, now, slack);
    SharedLimiterIsPrivateBuckets(c, steps, ip, now, slack);
    CheckTakes(c, l, ip, now);
  }

  // ---------- a run on which a limiter with a short TTL is too generous ----------

  function Burst(at: Instant, n: nat): seq<Request> {
    seq(n, _ => Request(0, at))
  }

  lemma BurstStep(at: Instant, n: nat)
    ensures Burst(at, n + 1) == Burst(at, n) + [Request(0, at)]
  {
  }

  /** A time in which an empty bucket does not fill up, though a caller late by `slack` may find it dropped. */
  lemma IdleTime(c: Config, slack: real) returns (idle: real)
    requires c.Valid() && !RefillsFirst(c, slack)
    ensures 0.0 < idle && c.entryTtl - slack <= idle && c.rate * idle < c.burst as real
  {
    if c.entryTtl - slack > 0.0 {
      idle := c.entryTtl - slack;
    } else {
      idle := (c.burst as real / 2.0) / c.rate;
      assert c.rate * idle == c.burst as real / 2.0;
      if idle <= 0.0 {
        MulMono(c.rate, idle, 0.0);
      }
    }
  }

  /** `n <= burst` checks at once empty a private bucket down to `burst - n`. */
  lemma {:induction false} PrivateDrain(c: Config, at: Instant, n: nat)
    requires c.rate >= 0.0 && n <= c.burst
    ensures var ts := Instants(Burst(at, n), 0);
      (n == 0 && ts == []) || (n > 0 && Replay(c, ts).0 == Bucket((c.burst - n) as real, at))
  {
    hide Replay, Instants, Consume;
    if n == 0 {
      assert Burst(at, 0) == [];
      NothingSent(c);
    } else {
      PrivateDrain(c, at, n - 1);
      NothingSent(c);
      BurstStep(at, n - 1);
      var before := Instants(Burst(at, n - 1), 0);
      InstantsStep(Burst(at, n - 1), Request(0, at), 0);
      ReplayStep(c, before, at);
      DrainOne(c, Replay(c, before).0, at, n);
    }
  }

  lemma NothingSent(c: Config)
    ensures Instants([], 0) == [] && Replay(c, []).0 == Full(c)
  {
  }

  lemma DrainOne(c: Config, b: Bucket, at: Instant, n: nat)
    requires c.rate >= 0.0 && 0 < n <= c.burst
    requires if n == 1 then b == Full(c) else b == Bucket((c.burst - (n - 1)) as real, at)
    ensures Consume(c, b, at).0 == Bucket((c.burst - n) as real, at)
  {
    if n == 1 {
      NewIsFull(c, at);
    } else {
      assert Elapsed(at, at) * c.rate == 0.0;
    }
  }

  /** While the first burst lasts, a sweep happens only if the interval is zero. */
  lemma {:induction false} FirstBurst(c: Config, start: Instant, t1: Instant, n: nat)
    requires c.Valid() && c.Enabled() && start <= t1
    ensures var l := LimiterAfter(c, start, Burst(t1, n));
      && l.buckets.Keys <= {0} && (0 in l.buckets ==> l.buckets[0].lastUpdate == t1)
      && (l.lastCleanup == start || (l.lastCleanup == t1 && c.cleanupInterval <= t1 - start))
  {
    if n > 0 {
      FirstBurst(c, start, t1, n - 1);
      BurstStep(t1, n - 1);
      assert Burst(t1, n)[..n - 1] == Burst(t1, n - 1);
    }
  }

  predicate HasTokens(l: Limiter, at: Instant, tokens: real) {
    0 in l.buckets && l.buckets[0].lastUpdate == at && l.buckets[0].tokens >= tokens
  }

  lemma RepeatedCheck(c: Config, l: Limiter, now: Instant, n: nat)
    requires c.Valid() && c.Enabled() && 1 <= n <= c.burst && HasTokens(l, now, n as real)
    ensures Check(c, l, 0, now).1 == Allowed && HasTokens(Check(c, l, 0, now).0, now, n as real - 1.0)
  {
    NewIsFull(c, now);
    var l1 := MaybeSweep(c, l, now);
    if 0 in l1.buckets {
      assert l1.buckets[0] == l.buckets[0];
      assert Elapsed(now, now) * c.rate == 0.0;
    }
    assert Refilled(c, Lookup(c, l1.buckets, 0), now) >= n as real;
  }

  lemma AbsentIsNew(c: Config, l: Limiter, now: Instant)
    requires c.Valid() && c.Enabled() && c.burst >= 1 && 0 !in l.buckets
    ensures Check(c, l, 0, now).1 == Allowed && HasTokens(Check(c, l, 0, now).0, now, c.burst as real - 1.0)
  {
    NewIsFull(c, now);
  }

  lemma OtherSweeps(c: Config, l: Limiter, now: Instant)
    requires c.Valid() && c.Enabled() && Elapsed(now, l.lastCleanup) >= c.cleanupInterval
    requires 0 in l.buckets ==> Elapsed(now, l.buckets[0].lastUpdate) >= c.entryTtl
    ensures 0 !in Check(c, l, 1, now).0.buckets
  {
  }

  /** Two bursts of one address at `t1` and `t2`, and between them a request of another that drops the bucket. */
  predicate Apart(c: Config, start: Instant, t1: Instant, sweep: Instant, t2: Instant, slack: real) {
    && start <= t1 < t2 <= sweep <= t2 + slack
    && sweep - t1 >= c.entryTtl
    && sweep - start >= c.cleanupInterval
    && (t1 - start >= c.cleanupInterval ==> c.cleanupInterval == 0.0)
  }

  function Bursts(t1: Instant, n: nat, sweep: Instant, t2: Instant, k: nat): seq<Request> {
    Burst(t1, n) + [Request(1, sweep)] + Burst(t2, k)
  }

  lemma BurstsTimely(c: Config, start: Instant, t1: Instant, sweep: Instant, t2: Instant, slack: real, k: nat)
    requires slack >= 0.0 && Apart(c, start, t1, sweep, t2, slack)
    ensures Timely(start, Bursts(t1, c.burst, sweep, t2, k), slack)
  {
  }

  lemma BurstsStep(t1: Instant, n: nat, sweep: Instant, t2: Instant, k: nat)
    ensures Bursts(t1, n, sweep, t2, 0) == Burst(t1, n) + [Request(1, sweep)]
    ensures Bursts(t1, n, sweep, t2, k + 1) == Bursts(t1, n, sweep, t2, k) + [Request(0, t2)]
  {
    BurstStep(t2, k);
    assert Burst(t2, 0) == [];
  }

  lemma LimiterStep(c: Config, start: Instant, rs: seq<Request>, r: Request)
    requires c.Valid()
    ensures LimiterAfter(c, start, rs + [r]) == Check(c, LimiterAfter(c, start, rs), r.ip, r.at).0
  {
    assert (rs + [r])[..|rs|] == rs;
  }

  /** The second burst finds a new bucket, and every one of its `burst` checks is allowed. */
  lemma {:induction false} SecondBurst(
      c: Config, start: Instant, t1: Instant, sweep: Instant, t2: Instant, slack: real, k: nat)
    requires c.Valid() && c.Enabled() && k < c.burst && Apart(c, start, t1, sweep, t2, slack)
    ensures var l := LimiterAfter(c, start, Bursts(t1, c.burst, sweep, t2, k));
      Check(c, l, 0, t2).1 == Allowed && HasTokens(Check(c, l, 0, t2).0, t2, (c.burst - k) as real - 1.0)
  {
    hide Check, LimiterAfter, Burst, Bursts, HasTokens;
    if k == 0 {
      BurstsStep(t1, c.burst, sweep, t2, 0);
      FirstBurst(c, start, t1, c.burst);
      LimiterStep(c, start, Burst(t1, c.burst), Request(1, sweep));
      OtherSweeps(c, LimiterAfter(c, start, Burst(t1, c.burst)), sweep);
      AbsentIsNew(c, LimiterAfter(c, start, Bursts(t1, c.burst, sweep, t2, 0)), t2);
    } else {
      SecondBurst(c, start, t1, sweep, t2, slack, k - 1);
      BurstsStep(t1, c.burst, sweep, t2, k - 1);
      LimiterStep(c, start, Bursts(t1, c.burst, sweep, t2, k - 1), Request(0, t2));
      RepeatedCheck(c, LimiterAfter(c, start, Bursts(t1, c.burst, sweep, t2, k)), t2, c.burst - k);
    }
  }

  /** If the limiter is faithful, the private bucket must allow the second burst too, and so goes into debt. */
  lemma {:induction false} PrivateDebt(
      c: Config, start: Instant, t1: Instant, sweep: Instant, t2: Instant, slack: real, refill: real, k: nat)
    requires c.Valid() && c.Enabled() && 0 < c.burst && k <= c.burst && slack >= 0.0
    requires Apart(c, start, t1, sweep, t2, slack) && refill == c.rate * (t2 - t1) && refill < c.burst as real
    ensures var b := Replay(c, Instants(Bursts(t1, c.burst, sweep, t2, k), 0)).0;
      if k == 0 then b == Bucket(0.0, t1) else Faithful(c, start, slack) ==> b == Bucket(refill - k as real, t2)
  {
    hide Check, Replay, Instants, Answer, Consume, Faithful, Timely, LimiterAfter, Burst, Bursts, Elapsed;
    if k == 0 {
      BurstsStep(t1, c.burst, sweep, t2, 0);
      PrivateDrain(c, t1, c.burst);
      InstantsStep(Burst(t1, c.burst), Request(1, sweep), 0);
      assert Instants(Burst(t1, c.burst), 0) + [] == Instants(Burst(t1, c.burst), 0);
    } else if Faithful(c, start, slack) {
      PrivateDebt(c, start, t1, sweep, t2, slack, refill, k - 1);
      SecondBurst(c, start, t1, sweep, t2, slack, k - 1);
      BurstsStep(t1, c.burst, sweep, t2, k - 1);
      var before := Bursts(t1, c.burst, sweep, t2, k - 1);
      BurstsTimely(c, start, t1, sweep, t2, slack, k);
      InstantsStep(before, Request(0, t2), 0);
      var b := Replay(c, Instants(before, 0)).0;
      ReplayStep(c, Instants(before, 0), t2);
      FaithfulAnswer(c, start, before, 0, t2, slack);
      AllowedTakesOne(c, b, t2, t2 - t1, refill);
    }
  }

  lemma FaithfulAnswer(c: Config, start: Instant, rs: seq<Request>, ip: IpAddr, now: Instant, slack: real)
    requires c.Valid() && c.Enabled() && Faithful(c, start, slack) && Timely(start, rs + [Request(ip, now)], slack)
    ensures Check(c, LimiterAfter(c, start, rs), ip, now).1 == Answer(c, Replay(c, Instants(rs, ip)).0, now)
  {
  }

  lemma AllowedTakesOne(c: Config, b: Bucket, now: Instant, gap: real, refill: real)
    requires c.rate > 0.0 && Answer(c, b, now) == Allowed && gap > 0.0
    requires refill == c.rate * gap && refill < c.burst as real
    requires b.lastUpdate == now || (b.tokens == 0.0 && now - b.lastUpdate == gap)
    requires b.tokens <= c.burst as real
    ensures Consume(c, b, now).0 == Bucket((if b.lastUpdate == now then b.tokens else refill) - 1.0, now)
  {
    assert Elapsed(now, now) * c.rate == 0.0;
  }

  lemma ShortTtlIsUnfaithful(c: Config, start: Instant, slack: real)
    requires c.Valid() && c.Enabled() && !RefillsFirst(c, slack) && slack >= 0.0
    ensures !Faithful(c, start, slack)
  {
    hide Faithful, Replay, Instants, Bursts;
    if Faithful(c, start, slack) {
      var idle := IdleTime(c, slack);
      var span := if idle >= c.entryTtl then idle else c.entryTtl;
      var sweep := start + (if c.cleanupInterval >= span then c.cleanupInterval else span);
      var t1 := sweep - span;
      var t2 := t1 + idle;
      assert t2 - t1 == idle;
      PrivateDebt(c, start, t1, sweep, t2, slack, c.rate * idle, c.burst);
      TokensAreNeverNegative(c, Instants(Bursts(t1, c.burst, sweep, t2, c.burst), 0));
    }
  }

  /** With callers late by up to `slack`, dropping idle buckets can be noticed iff a late caller can find a bucket
      dropped before it would have refilled. */
  lemma EvictionInvisibleIff(c: Config, start: Instant, slack: real)
    requires c.Valid() && c.Enabled() && slack >= 0.0
    ensures Faithful(c, start, slack) <==> RefillsFirst(c, slack)
  {
    hide Check, LimiterAfter, Answer, Replay, Instants, Timely, RefillsFirst;
    if RefillsFirst(c, slack) {
      forall rs: seq<Request>, ip, now | Timely(start, rs + [Request(ip, now)], slack)
        ensures Check(c, LimiterAfter(c, start, rs), ip, now).1 == Answer(c, Replay(c, Instants(rs, ip)).0, now)
      {
        AnswerIsPrivate(c, start, rs, ip, now, slack);
      }
    } else {
      ShortTtlIsUnfaithful(c, start, slack);
    }
  }

  /** The stock configurations meet the condition exactly from one request per 300 seconds upwards. */
  lemma PerSecondRefillsBeforeEviction(rps: real)
    requires rps > 0.0
    ensures RefillsFirst(PerSecond(rps), 0.0) <==> rps * 300.0 >= 1.0
  {
    var x := rps * 2.0;
    assert x.Floor as real <= x < (x.Floor + 1) as real;
    if x <= 1.0 {
      assert x.Floor == 0 || x == 1.0;
      assert CeilU32(x) == 1;
    } else {
      assert CeilU32(x) as real <= x + 1.0;
    }
  }

  /** And from one request per second upwards they still do with callers late by up to 297 seconds. */
  lemma PerSecondToleratesLateness(rps: real, slack: real)
    requires rps >= 1.0 && slack <= 297.0
    ensures RefillsFirst(PerSecond(rps), slack)
  {
    var x := rps * 2.0;
    assert x.Floor as real <= x < (x.Floor + 1) as real;
    assert CeilU32(x) as real <= x + 1.0;
    var gap := 300.0 - slack;
    MulMono(rps, 3.0, gap);
    RefillsWithin(PerSecond(rps), slack, gap, rps * gap);
  }

  lemma RefillsWithin(c: Config, slack: real, gap: real, refill: real)
    requires gap == c.entryTtl - slack && refill == c.rate * gap && refill >= c.burst as real
    ensures RefillsFirst(c, slack)
  {
  }

  /** Every per-minute configuration of at least one request does. */
  lemma PerMinuteRefillsBeforeEviction(rpm: nat)
    requires rpm > 0
    ensures RefillsFirst(PerMinute(rpm), 0.0)
  {
    PerSecondRefillsBeforeEviction(rpm as real / 60.0);
  }

  // ---------- the limit that clients experience ----------

  /** What the shared limiter answered to the requests of `ip`. */
  function Verdicts(c: Config, start: Instant, rs: seq<Request>, ip: IpAddr): (vs: seq<bool>)
    requires c.Valid()
    ensures |vs| == |Instants(rs, ip)|
  {
    if rs == [] then [] else
      var before, r := rs[..|rs| - 1], rs[|rs| - 1];
      Verdicts(c, start, before, ip) +
      (if r.ip == ip then [Check(c, LimiterAfter(c, start, before), ip, r.at).1.Allowed?] else [])
  }

  lemma NoVerdicts(c: Config, start: Instant, ip: IpAddr)
    requires c.Valid()
    ensures Verdicts(c, start, [], ip) == Replay(c, Instants([], ip)).1
  {
  }

  lemma VerdictsStep(c: Config, start: Instant, rs: seq<Request>, r: Request, ip: IpAddr)
    requires c.Valid()
    ensures Verdicts(c, start, rs + [r], ip) ==
            Verdicts(c, start, rs, ip) +
            (if r.ip == ip then [Check(c, LimiterAfter(c, start, rs), ip, r.at).1.Allowed?] else [])
  {
    hide Check;
    assert (rs + [r])[..|rs|] == rs;
  }

  /** One address is answered as by its private bucket, whatever the others do. */
  lemma {:induction false} VerdictsArePrivate(
      c: Config, start: Instant, rs: seq<Request>, ip: IpAddr, slack: real)
    requires c.Valid() && c.Enabled() && RefillsFirst(c, slack) && slack >= 0.0 && Timely(start, rs, slack)
    ensures Verdicts(c, start, rs, ip) == Replay(c, Instants(rs, ip)).1
  {
    hide Check, Answer, Consume, Replay, Instants, LimiterAfter, Verdicts, Timely, RefillsFirst;
    if rs == [] {
      NoVerdicts(c, start, ip);
    } else {
      var before, r := rs[..|rs| - 1], rs[|rs| - 1];
      assert before + [r] == rs;
      TimelyMore(start, before, r, slack);
      VerdictsArePrivate(c, start, before, ip, slack);
      InstantsStep(before, r, ip);
      VerdictsStep(c, start, before, r, ip);
      if r.ip == ip {
        var ts := Instants(before, ip);
        AnswerIsPrivate(c, start, before, ip, r.at, slack);
        AllowedIffConsumed(c, Replay(c, ts).0, r.at);
        ReplayStep(c, ts, r.at);
      } else {
        assert Instants(before, ip) + [] == Instants(before, ip);
        assert Verdicts(c, start, before, ip) + [] == Verdicts(c, start, before, ip);
      }
    }
  }

  lemma AllowedIffConsumed(c: Config, b: Bucket, now: Instant)
    requires c.rate > 0.0
    ensures Answer(c, b, now).Allowed? <==> Consume(c, b, now).1
  {
  }

  /** What the shared limiter promises to callers late by up to `slack`: whatever all clients do, from any of its
      requests on one address gets no more through than the burst and the refill since. */
  lemma SharedRefillBound(c: Config, start: Instant, rs: seq<Request>, ip: IpAddr, slack: real, j: nat)
    requires c.Valid() && c.Enabled() && RefillsFirst(c, slack) && slack >= 0.0 && Timely(start, rs, slack)
    requires j < |Instants(rs, ip)|
    ensures Admissions(Verdicts(c, start, rs, ip), j) as real <= Allowance(c, Instants(rs, ip), j)
  {
    hide Verdicts, Replay, Instants, Admissions, Allowance;
    VerdictsArePrivate(c, start, rs, ip, slack);
    BudgetIsNotNegative(c, Instants(rs, ip), j);
  }

  lemma {:induction false} InstantsOrdered(start: Instant, rs: seq<Request>, ip: IpAddr)
    requires Timely(start, rs, 0.0)
    ensures Ordered(Instants(rs, ip))
    ensures forall i :: 0 <= i < |Instants(rs, ip)| ==> Instants(rs, ip)[i] <= rs[|rs| - 1].at
  {
    hide Timely;
    if rs != [] {
      var before, r := rs[..|rs| - 1], rs[|rs| - 1];
      assert before + [r] == rs;
      TimelyMore(start, before, r, 0.0);
      InstantsOrdered(start, before, ip);
    }
  }

  /** And in time order: at most burst + rate * d requests of one address in any interval of length d. */
  lemma SharedWindowBound(c: Config, start: Instant, rs: seq<Request>, ip: IpAddr, from: Instant, to: Instant)
    requires c.Valid() && c.Enabled() && RefillsFirst(c, 0.0) && Timely(start, rs, 0.0) && from <= to
    ensures AdmittedBetween(Instants(rs, ip), Verdicts(c, start, rs, ip), from, to) as real
         <= c.burst as real + c.rate * (to - from)
  {
    hide Verdicts, Replay, Instants, AdmittedBetween, RefillsFirst, Timely;
    VerdictsArePrivate(c, start, rs, ip, 0.0);
    InstantsOrdered(start, rs, ip);
    WindowBound(c, Instants(rs, ip), from, to);
  }
}
