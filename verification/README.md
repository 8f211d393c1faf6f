# A verified model of MaDRPC's schedulers, limiters and retry loops

MaDRPC is an RPC system in which an orchestrator spreads calls over compute nodes that run JavaScript. This Dafny
project models the six stateful cores on which its behaviour under load and failure depends, and proves what they
promise:

1. **Rate limiter** (`RateLimit`, `RateLimitLaws`, `SharedRateLimit`, `Admission`, `ClockOrder`, `RateLimiter`): a
   token bucket per address in a shared map with periodic eviction. Admission is characterised exactly by windows, and
   eviction is shown to be invisible exactly when a bucket refills before any caller, however late within a given
   slack, can find it dropped.
2. **Metrics** (`Timestamps`, `Histogram`, `Accuracy`, `LatencyHistogram`, `Registry`, `RegistryCounts`,
   `MetricsRegistry`): the compare-and-swap timestamp source under arbitrary interleaving, the logarithmic histogram
   with its percentile estimates, and the LRU-and-TTL cleanup of the tables.
3. **Load balancer and circuit breaker** (`Balancer`, `RequestCounts`, `NodeRecords`, `RoundRobin`, `LoadBalancer`,
   `Timeouts`): the representation over every run, and the fairness of the round-robin loop that skips open circuits.
4. **Health checking** (`HealthProtocol`, `OperatorSteps`, `Recovery`, `Disabling`, `OpeningTimes`, `HealthChecker`):
   the health-check rounds' critical sections interleaved with traffic and operators.
5. **Job executor** (`Jobs`, `JobLaws`, `JobRuns`, `JobOrder`, `SyncJobs`, `JobExecutor`): promise, generic and async
   jobs that spawn jobs.
6. **Retries** (`Backoff`, `ClientRetry`, `Forwarding`, `Orchestrator`): the client's retry loop nested in the
   orchestrator's.

Every core has a value-level specification, with theorems over all its runs, and a class with the program's own fields
and loops whose methods are proved to change their fields exactly as the specification says. `Arith` holds shared
arithmetic. Clocks, health results, HTTP replies, random draws and the readiness of futures are parameters, so the
theorems hold for all of them. Floating-point numbers are exact reals; casts to unsigned integers truncate and saturate.

`dafny verify dfyconfig.toml` checks the whole project.

## Where the code differs from its documentation

The model follows the code.

- Rate limiter: `now` is read before the locks (crates/madrpc-common/src/rate_limit.rs:400), so checks can reach a bucket
  out of time order. The bound by elapsed time holds only without lateness (`ClockBoundIff`, `LateArrivalOveradmits`);
  the bound by refill time holds in any order (`AdmittedIffEveryWindowFits`). A late caller can also find its bucket
  dropped (`LateArrivalFindsBucketDropped`); `EvictionInvisibleIff` says how much lateness is harmless.
- Histogram: the documented accuracy of 5-10% is not met: 10 us can be estimated at 20 us (`FactorsReached`).
  `TenPercentIff` says exactly which values are always within 10%, and `AccurateIff` which are within any percentage.
  Bins 60-99 are not a division of 1-10 s: one bin of each group of ten is used, and each group covers a decade
  (`BinOf`).
- Circuit breaker: a healthy answer while Open zeroes the failures and leaves the circuit Open
  (`HealthyAnswerLeavesOpen`). The timeout that then applies is base / multiplier, capped; `ShorterThanBaseIff` says
  exactly when that is less than the documented base, as it is with the default multiplier.
- Job executor: a drain first runs one generic job, and then the promise jobs queued after that
  (`DrainRunsSnapshot`), so a generic job can run before a pending promise job: exactly when jobs of both kinds are
  queued (`OvertakesIff`, `LaterGenericRunsFirst`). Nor does a drain finish the promise jobs: those that the ones it
  runs enqueue wait, behind the next generic job (`DrainLeavesChained`, `MacrotaskOvertakesMicrotask`). The generic
  queue stays borrowed while a generic job runs, so a generic job that enqueues a generic job panics; that is modelled
  as an outcome, and `EveryRunStops` says exactly when it happens.
- Client: the jitter is documented as plus or minus 10%, and is only ever added (`DelaysAre`); REQUEST_TOO_LARGE is
  documented as not retryable, but its arm stands behind a range that includes it (`RetriedReplies`).
- Orchestrator: connection failures and timeouts are documented as retried on another node; only a node's own error
  codes are (`SendsAgainIff`). Exhausted retries are documented to give AllNodesFailed; they give the last send's error
  (`ForwardingMeans`). Sends that find no node are not retried (`NoNodeAnswersAtOnce`).

## Model

| member | source | states |
|---|---|---|
| `RateLimitLaws.TokensAreTightestBudget` | crates/madrpc-common/src/rate_limit.rs:231-248 | after any sequence of checks, in any clock order, the tokens of a bucket are the smallest remaining budget (burst + refill since j - admissions since j) over all window starts j |
| `RateLimitLaws.AdmittedIffEveryWindowFits` | crates/madrpc-common/src/rate_limit.rs:231-248 | a check is admitted iff, with it, every window ending now stays within burst + rate x refill time; holds also when checks arrive out of time order |
| `RateLimitLaws.AdmittedIffEveryClockWindowFits` | crates/madrpc-common/src/rate_limit.rs:231-248 | for nondecreasing times: admitted iff for every earlier check time s the admissions in [s, now], this one included, are at most burst + rate x (now - s) |
| `RateLimitLaws.ClockAllowance` | crates/madrpc-common/src/rate_limit.rs:231-248 | for nondecreasing times the refill form of a window allowance is the clock form |
| `RateLimitLaws.WindowBound` | crates/madrpc-common/src/rate_limit.rs:231-248 | for nondecreasing times no interval of length d contains more than burst + rate x d admissions |
| `RateLimitLaws.LateArrivalOveradmits` | crates/madrpc-common/src/rate_limit.rs:400-415 | counterexample: a check that reaches the bucket late moves last_update back and the bound by elapsed time fails |
| `RateLimitLaws.RetryAfterIsExact` | crates/madrpc-common/src/rate_limit.rs:259-267 | for a burst of at least one: after a refusal the same bucket admits at a later instant iff at least retry_after has passed |
| `RateLimitLaws.TokensAreNeverNegative` | crates/madrpc-common/src/rate_limit.rs:231-248 | tokens stay between 0 and burst |
| `RateLimitLaws.TracksAlways` | crates/madrpc-common/src/rate_limit.rs:394-436 | if callers are late by at most a given slack and rate x (TTL - slack) >= burst: over every interleaving of sweep and take sections the map agrees with the private bucket of each address, or has dropped it when it was full for all who may still come |
| `RateLimitLaws.SharedLimiterIsPrivateBuckets` | crates/madrpc-common/src/rate_limit.rs:394-436 | under the same two hypotheses (with slack 0: sections in time order), after any interleaving of critical sections a check is answered as by a private bucket that is never dropped |
| `RateLimitLaws.LateArrivalFindsBucketDropped` | crates/madrpc-common/src/rate_limit.rs:394-436 | counterexample with rate x TTL = burst: a caller one second late finds its bucket dropped by a newer sweep and is let through where the private bucket refuses |
| `SharedRateLimit.LimiterTakesSections` | crates/madrpc-common/src/rate_limit.rs:394-424 | every run of check_rate_limit calls, in time order or late by up to any slack, is a run of critical sections that serve the same requests and are no later |
| `SharedRateLimit.AnswerIsPrivate` | crates/madrpc-common/src/rate_limit.rs:394-436 | if calls are late by at most the slack and rate x (TTL - slack) >= burst, every answer of the limiter in every run from its creation equals the private bucket's |
| `SharedRateLimit.ShortTtlIsUnfaithful` | crates/madrpc-common/src/rate_limit.rs:431-436 | if rate x (TTL - slack) < burst, some run late by at most the slack gets an answer that a private bucket would not give |
| `SharedRateLimit.EvictionInvisibleIff` | crates/madrpc-common/src/rate_limit.rs:394-436 | for every slack: eviction is invisible on all runs late by at most it if and only if rate x (TTL - slack) >= burst (or burst is 0); slack 0 is the case of runs in time order |
| `SharedRateLimit.PerSecondRefillsBeforeEviction` | crates/madrpc-common/src/rate_limit.rs:131-134 | the per-second configurations meet that condition for runs in time order iff rps x 300 >= 1 |
| `SharedRateLimit.PerSecondToleratesLateness` | crates/madrpc-common/src/rate_limit.rs:131-134 | from one request per second upwards they meet it for lateness of up to 297 seconds |
| `SharedRateLimit.PerMinuteRefillsBeforeEviction` | crates/madrpc-common/src/rate_limit.rs:154-157 | every per-minute configuration of at least one request meets it for runs in time order |
| `SharedRateLimit.VerdictsArePrivate` | crates/madrpc-common/src/rate_limit.rs:394-424 | if calls are late by at most the slack and rate x (TTL - slack) >= burst, the answers to one address are those of its private bucket, whatever the others do |
| `SharedRateLimit.SharedRefillBound` | crates/madrpc-common/src/rate_limit.rs:394-436 | under the same hypotheses one address gets, from any of its requests on, no more than the burst and the refill since through |
| `SharedRateLimit.SharedWindowBound` | crates/madrpc-common/src/rate_limit.rs:394-436 | for calls in time order and rate x TTL >= burst: whatever all addresses do, one address gets at most burst + rate x d requests through in any interval of length d |
| `Admission.UnlimitedAllowsAll` | crates/madrpc-common/src/rate_limit.rs:394-398 | from a rate of 1,000,000 on, every request of every run is allowed, and the limiter stays as it was created |
| `Admission.LimitedIsRecorded` | crates/madrpc-common/src/rate_limit.rs:394-424 | below that rate no check is short-circuited: the address has a bucket last updated by it |
| `Admission.BurstAdmits` | crates/madrpc-common/src/rate_limit.rs:394-424 | of the requests of one address at one instant to a new limiter exactly the first burst are allowed, and every further one is told to wait 1 / rate |
| `Admission.NeverLimitsIff` | crates/madrpc-common/src/rate_limit.rs:394-436 | no request of any run is refused iff the rate is at least 1,000,000, or the burst is positive and TTL and cleanup interval are zero |
| `Admission.PerSecondAdmits` | crates/madrpc-common/src/rate_limit.rs:131-134 | with rps below 1,000,000, request k (from 0) at one instant is allowed iff k < 2 x rps, and then told to wait 1 / rps |
| `Admission.PerMinuteAdmits` | crates/madrpc-common/src/rate_limit.rs:154-157 | per minute: iff 30 x k < rpm, and then told to wait 60 / rpm |
| `Admission.PerSecondBound` | crates/madrpc-common/src/rate_limit.rs:131-134 | from one request per 300 seconds on and in time order, one address gets fewer than (2 + d) x rps + 1 requests through in any interval of d seconds |
| `Admission.PerMinuteBound` | crates/madrpc-common/src/rate_limit.rs:154-157 | per minute: fewer than rpm + rpm / 30 + 1 in any sixty seconds |
| `Admission.CleansUpExactly` | crates/madrpc-common/src/rate_limit.rs:400-436 | a check cleans up iff the interval has passed since the last cleanup; then exactly the other addresses used less than the TTL ago stay, as they were, and otherwise nothing goes |
| `Admission.TracksRecentAddresses` | crates/madrpc-common/src/rate_limit.rs:394-436 | after every run in time order an address is tracked if its last request is less than the TTL old, and not if that is older than TTL plus cleanup interval |
| `Admission.PerSecondCleansUp` | crates/madrpc-common/src/rate_limit.rs:112-134 | with the stock settings an address goes iff the last cleanup is 60 seconds ago and its last use 300 |
| `Admission.PerSecondTracks` | crates/madrpc-common/src/rate_limit.rs:112-134 | with the stock settings an address is tracked for at least 300 and at most 360 seconds after its last request |
| `ClockOrder.ClockBoundIff` | crates/madrpc-common/src/rate_limit.rs:231-248 | the bound burst + rate x d holds on all runs late by at most a given slack if and only if the slack is 0 |
| `ClockOrder.LateIsUnbounded` | crates/madrpc-common/src/rate_limit.rs:231-248 | with any lateness, for every number some run late by at most it admits more checks than that within that time |
| `RateLimiters.TokenBucket.constructor` | crates/madrpc-common/src/rate_limit.rs:214-219 | a new bucket is full |
| `RateLimiters.TokenBucket.TryConsume` | crates/madrpc-common/src/rate_limit.rs:231-248 | new state and answer of a bucket object are those of the value-level bucket |
| `RateLimiters.TokenBucket.TimeUntilNextToken` | crates/madrpc-common/src/rate_limit.rs:259-267 | the wait equals (1 - tokens) / rate, or zero with a token available |
| `RateLimiters.RateLimiter.CheckRateLimit` | crates/madrpc-common/src/rate_limit.rs:394-424 | new map, new cleanup time and answer are those of the value-level limiter, including the disabled shortcut |
| `RateLimiters.RateLimiter.TakeToken` | crates/madrpc-common/src/rate_limit.rs:409-423 | only the bucket of the address changes; the answer is that bucket's |
| `RateLimiters.RateLimiter.CleanupStaleEntries` | crates/madrpc-common/src/rate_limit.rs:431-436 | exactly the buckets used less than the TTL ago remain |
| `RateLimiters.AnyNewBucket` | crates/madrpc-common/src/rate_limit.rs:409-413 | the instant at which a bucket is created never matters |
| `Clock.MonotonicClock.GetTimestamp` | crates/madrpc-metrics/src/registry.rs:38-60 | whatever other threads do between its loads and swaps: the swap goes through in the first round in which nobody interferes; the timestamp is the clock reading or one more than the last timestamp issued before, whichever is greater, exceeds all that the others took meanwhile, and is stored |
| `Clock.MeanwhileInTurn` | crates/madrpc-metrics/src/registry.rs:38-60 | the timestamps of the others are one for each of their clock readings, each the reading or one more than the timestamp before |
| `Timestamps.TimestampsAreOrdered` | crates/madrpc-metrics/src/registry.rs:38-60 | for any number of threads and any interleaving: results strictly increase in swap order, each is the caller's clock reading or one more than the one before, whichever is greater, so at least the caller's clock reading, and the counter never exceeds the largest reading plus the number of calls |
| `Timestamps.FailureMeansOthersProgress` | crates/madrpc-metrics/src/registry.rs:38-60 | a swap that fails not spuriously means another thread's swap succeeded since the load |
| `Timestamps.RetriesArePaidByOthers` | crates/madrpc-metrics/src/registry.rs:38-60 | a call has failed at most as often as other threads completed since it began |
| `Timestamps.UndisturbedCallReturns` | crates/madrpc-metrics/src/registry.rs:38-60 | a call whose swap follows its load undisturbed returns at once with the next timestamp |
| `Histogram.LatencyToBinMono` | crates/madrpc-metrics/src/registry.rs:194-229 | latency_to_bin is monotone and stays below 100 |
| `Histogram.BinToLatencyMono` | crates/madrpc-metrics/src/registry.rs:297-308 | bin_to_latency is monotone and at least 1 |
| `Histogram.BinOf` | crates/madrpc-metrics/src/registry.rs:194-229 | below one second a bin is a tenth of a decade; from there to 10^10 us all of a decade goes into one bin |
| `Histogram.BinHoldsLatency` | crates/madrpc-metrics/src/registry.rs:194-229 | below one second a sample lies within its bin's edges, which are at most a factor two apart |
| `Histogram.BinNearLatency` | crates/madrpc-metrics/src/registry.rs:194-229 | from one second to 10^10 us the edges of the bin of a sample are within a factor ten of it |
| `Histogram.ScanFindsBin` | crates/madrpc-metrics/src/registry.rs:257-292 | for percentages up to 100 the scan never falls through |
| `Histogram.FindBin` | crates/madrpc-metrics/src/registry.rs:257-292 | the scan stops at the first bin whose cumulated count reaches the target |
| `Histogram.InterpolateInBin` | crates/madrpc-metrics/src/registry.rs:275-286 | an estimate lies within the edges of its bin; interpolation never underflows |
| `Histogram.EstimateInFoundBin` | crates/madrpc-metrics/src/registry.rs:257-292 | the estimate lies within the edges of the bin in which the scan stops |
| `Histogram.EstimateMono` | crates/madrpc-metrics/src/registry.rs:257-292 | estimates never decrease with the percentage, for every history |
| `Histogram.FoundBinHoldsRank` | crates/madrpc-metrics/src/registry.rs:257-292 | the scan stops in the bin of the true order statistic |
| `Histogram.RankExists` | crates/madrpc-metrics/src/registry.rs:257-292 | every rank from 1 to the sample count is the rank of some sample |
| `Histogram.PercentileAccuracy` | crates/madrpc-metrics/src/registry.rs:257-292 | the estimate is at most 2 times the true order statistic below one second and 10 times up to 10^10 us, and at least half of it; beyond, it is between 9 x 10^9 and 10^10 |
| `Histogram.SmallTargetIsOne` | crates/madrpc-metrics/src/registry.rs:257-292 | with total x p < 100 there is no rank to estimate and the answer is 1 |
| `Accuracy.AccurateIff` | crates/madrpc-metrics/src/registry.rs:257-292 | a positive true value is estimated within a given percentage on every history iff both edges of its bin are that close to it |
| `Accuracy.UpperEdgeReached` | crates/madrpc-metrics/src/registry.rs:257-292 | some history with that true value is estimated at the upper edge of its bin |
| `Accuracy.LowerEdgeReached` | crates/madrpc-metrics/src/registry.rs:257-292 | some history with that true value is estimated at the lower edge of its bin |
| `Accuracy.TenPercentIff` | crates/madrpc-metrics/src/registry.rs:257-292 | exact condition below one second for the documented 10%; it never holds below 10 us nor for a leading digit under 5 |
| `Accuracy.FactorsReached` | crates/madrpc-metrics/src/registry.rs:257-292 | the factors 2 and 10 are reached: a sample of 10 us is estimated at 20 us, one of 1 s at 10 s |
| `LatencyHistograms.ILog10` | crates/madrpc-metrics/src/registry.rs:234-245 | the division loop computes floor(log10 n) |
| `LatencyHistograms.BinFor` | crates/madrpc-metrics/src/registry.rs:194-229 | the branches on the latency compute its bin |
| `LatencyHistograms.LinearInterpolation` | crates/madrpc-metrics/src/registry.rs:275-286 | fraction times width, rounded down, is the integer share of the bin |
| `LatencyHistograms.LatencyHistogram.Record` | crates/madrpc-metrics/src/registry.rs:178-189 | bins, sum and count go on agreeing with the recorded samples |
| `LatencyHistograms.LatencyHistogram.EstimatePercentile` | crates/madrpc-metrics/src/registry.rs:257-292 | the array scan returns the estimate of the recorded samples |
| `LatencyHistograms.LatencyHistogram.CalculatePercentiles` | crates/madrpc-metrics/src/registry.rs:321-338 | rounded average, and p50 <= p95 <= p99, for every recorded history; all zero when empty |
| `RegistryLaws.EvictionIsLru` | crates/madrpc-metrics/src/registry.rs:895-931 | for every hash-map order: dropping the oldest beyond the limit leaves exactly the fresh entries that fewer than the limit of fresh entries were used after |
| `RegistryLaws.SurvivorCount` | crates/madrpc-metrics/src/registry.rs:868-932 | cleanup leaves at most the limit, and drops nothing fresh while the fresh ones fit |
| `RegistryLaws.InvAlways` | crates/madrpc-metrics/src/registry.rs:773-856 | in every sequential run: last-use times distinct and not after the clock, calls = successes + failures per entry and in total, and the excess is bounded by the operations since the last cleanup |
| `RegistryLaws.SizeBound` | crates/madrpc-metrics/src/registry.rs:773-856 | in every sequential run both tables together never exceed their limits by more than 1000 |
| `RegistryLaws.TimesAreCallOrder` | crates/madrpc-metrics/src/registry.rs:401-410 | last-use times order the entries as the last operations on them were ordered |
| `RegistryLaws.CleanupKeepsLatestCalled` | crates/madrpc-metrics/src/registry.rs:868-932 | at any point of any run cleanup keeps exactly the fresh methods (nodes) that fewer than the limit of fresh ones were called (requested) after |
| `RegistryLaws.SamplesSinceAbsence` | crates/madrpc-metrics/src/registry.rs:773-807 | over every run an entry's samples are exactly the latencies recorded since its method was last absent from the table (never called, or evicted), all of them, in order |
| `RegistryCounts.TotalsCountCalls` | crates/madrpc-metrics/src/registry.rs:773-780 | over every run the totals are the numbers of successful, failed and all calls recorded, evicted or not |
| `RegistryCounts.CountersSinceAbsence` | crates/madrpc-metrics/src/registry.rs:773-832 | over every run an entry's successes, failures and calls, and a node's requests, are the numbers of such operations recorded under its name since it was last absent |
| `RegistryCounts.LastUseIsTimed` | crates/madrpc-metrics/src/registry.rs:401-410 | an entry's last-use time is the timestamp issued last by the last operation under its name, no earlier than the clock that operation read |
| `RegistryCounts.CleansUpOnSchedule` | crates/madrpc-metrics/src/registry.rs:846-932 | an entry that an operation does not make itself goes only if the number of operations before is a multiple of 1000, and then iff its TTL has passed by the new timestamp or the limit of unexpired entries were used after it |
| `MetricsRegistries.Victims` | crates/madrpc-metrics/src/registry.rs:895-931 | the sorted prefix to remove is exactly the entries that at least the limit of others were used after |
| `MetricsRegistries.CleanTable` | crates/madrpc-metrics/src/registry.rs:868-932 | retaining the fresh entries, sorting and removing leaves exactly the survivors |
| `MetricsRegistries.MetricsRegistry.CleanupStaleEntries` | crates/madrpc-metrics/src/registry.rs:868-932 | the registry's new state is that of the value-level cleanup |
| `MetricsRegistries.MetricsRegistry.MaybeCleanup` | crates/madrpc-metrics/src/registry.rs:846-856 | the counter grows by one, and every 1000th operation, the first included, cleans up |
| `MetricsRegistries.MetricsRegistry.RecordMethodCall` | crates/madrpc-metrics/src/registry.rs:773-807 | the registry's new state is that of the value-level call |
| `MetricsRegistries.MetricsRegistry.RecordNodeRequest` | crates/madrpc-metrics/src/registry.rs:820-832 | the registry's new state is that of the value-level request |
| `Balancing.RepAlways` | crates/madrpc-orchestrator/src/load_balancer.rs:60-252 | over every sequence of operations the enabled list holds exactly the enabled nodes, enabled iff no reason, Open iff opening time set, claim flag iff HalfOpen; no duplicates if the addresses were distinct |
| `Balancing.OpKeepsRep` | crates/madrpc-orchestrator/src/load_balancer.rs:111-461 | every single operation keeps that representation |
| `Balancing.NextIsSelectable` | crates/madrpc-orchestrator/src/load_balancer.rs:111-134 | next_node returns only an enabled node that is not Open, counts one request on it, and changes nothing else but the index |
| `RequestCounts.RequestsAreSelections` | crates/madrpc-orchestrator/src/load_balancer.rs:111-134 | a node's request_count is the number of times it was selected since its creation |
| `RequestCounts.RequestsConserved` | crates/madrpc-orchestrator/src/load_balancer.rs:111-134 | over every run: request counts of the present nodes plus those of nodes at their removal grow by one per successful selection |
| `NodeRecords.RecordsAreLastEvents` | crates/madrpc-orchestrator/src/load_balancer.rs:111-310 | over every run a node records the time and status of its last health update and the time of its last selection, since its creation |
| `RoundRobin.NextServesQueue` | crates/madrpc-orchestrator/src/load_balancer.rs:111-134 | one call serves the head of the queue of selectable nodes and moves it to the back; with none the index returns to its start |
| `RoundRobin.NoneIffAllOpen` | crates/madrpc-orchestrator/src/load_balancer.rs:111-134 | next_node returns None iff no enabled node is other than Open |
| `RoundRobin.CallsCycle` | crates/madrpc-orchestrator/src/load_balancer.rs:111-134 | consecutive calls go round the selectable nodes in a fixed cycle |
| `RoundRobin.FullRoundServesEachOnce` | crates/madrpc-orchestrator/src/load_balancer.rs:111-134 | m consecutive calls return each of the m selectable nodes exactly once and no other |
| `RoundRobin.FairOverAnyStretch` | crates/madrpc-orchestrator/src/load_balancer.rs:111-134 | over any stretch of calls the counts of two selectable nodes differ by at most one |
| `RoundRobin.DistinctPicks` | crates/madrpc-orchestrator/src/load_balancer.rs:111-134 | the first m calls go to pairwise different nodes |
| `LoadBalancers.CircuitNode.constructor` | crates/madrpc-orchestrator/src/node.rs:221-235 | a new node is enabled, Closed and without failures |
| `LoadBalancers.CircuitNode.TransitionCircuitState` | crates/madrpc-orchestrator/src/node.rs:277-294 | state, opening time and claim flag after a transition |
| `LoadBalancers.CircuitNode.TryTransitionToHalfOpen` | crates/madrpc-orchestrator/src/node.rs:312-337 | the claim succeeds once per opening |
| `LoadBalancers.CircuitNode.CheckTimeout` | crates/madrpc-orchestrator/src/load_balancer.rs:325-337 | an Open node whose timeout has passed becomes HalfOpen, and only then |
| `LoadBalancers.CircuitNode.RecordCheck` | crates/madrpc-orchestrator/src/load_balancer.rs:272-310 | effect of one health result on one node |
| `LoadBalancers.LoadBalancer.constructor` | crates/madrpc-orchestrator/src/load_balancer.rs:60-88 | one node object per address, and the list as given, duplicates included |
| `LoadBalancers.LoadBalancer.NextNode` | crates/madrpc-orchestrator/src/load_balancer.rs:111-134 | the loop's answer and new state are those of the value-level balancer |
| `LoadBalancers.LoadBalancer.DisableNode` | crates/madrpc-orchestrator/src/load_balancer.rs:148-159 | new state and answer as for values |
| `LoadBalancers.LoadBalancer.EnableNode` | crates/madrpc-orchestrator/src/load_balancer.rs:172-186 | new state and answer as for values |
| `LoadBalancers.LoadBalancer.AutoDisableNode` | crates/madrpc-orchestrator/src/load_balancer.rs:204-219 | new state and answer as for values; a manual disable is left alone |
| `LoadBalancers.LoadBalancer.AutoEnableNode` | crates/madrpc-orchestrator/src/load_balancer.rs:234-252 | new state and answer as for values; only a health-check disable is undone |
| `LoadBalancers.LoadBalancer.UpdateHealthStatus` | crates/madrpc-orchestrator/src/load_balancer.rs:272-310 | only the node of the address changes, as for values |
| `LoadBalancers.LoadBalancer.CheckCircuitTimeouts` | crates/madrpc-orchestrator/src/load_balancer.rs:325-337 | every node is timed out in any order; true iff some node changed |
| `LoadBalancers.LoadBalancer.AllNodes` | crates/madrpc-orchestrator/src/load_balancer.rs:403-405 | snapshots of all nodes, each once |
| `LoadBalancers.LoadBalancer.AddNode` | crates/madrpc-orchestrator/src/load_balancer.rs:440-447 | a present address is left alone |
| `LoadBalancers.LoadBalancer.RemoveNode` | crates/madrpc-orchestrator/src/load_balancer.rs:456-461 | the node and its list entries go |
| `LoadBalancers.LoadBalancer.PerformAll` | crates/madrpc-orchestrator/src/load_balancer.rs:111-461 | operations of other tasks, one after the other, have the effect of the value-level operations |
| `LoadBalancers.LoadBalancer.RegisterNode` | crates/madrpc-orchestrator/src/orchestrator.rs:606-631 | malformed URLs change nothing; otherwise the node is added if absent, enabled whatever the reason it was disabled for, and reported new iff it was absent |
| `HealthProtocol.RepAlways` | crates/madrpc-orchestrator/src/health_checker.rs:144-313 | the representation holds in every interleaving of checker, operator and traffic steps |
| `HealthProtocol.ManualDisableIsSticky` | crates/madrpc-orchestrator/src/health_checker.rs:282-313 | in every interleaving a manually disabled node stays disabled, unlisted and unselected until enabled, registered or removed by name |
| `HealthProtocol.AppliedToHeldDown` | crates/madrpc-orchestrator/src/load_balancer.rs:204-252 | no decision, however stale, overrides a manual disable |
| `HealthProtocol.NoStuckOpen` | crates/madrpc-orchestrator/src/load_balancer.rs:325-337 | in every reachable state a timeout check makes an Open node HalfOpen iff its timeout has passed, and max_timeout always suffices; the claim never fails from Open |
| `HealthProtocol.TimeoutCapped` | crates/madrpc-orchestrator/src/node.rs:128-134 | no timeout exceeds the maximum |
| `HealthProtocol.FailuresAreStreak` | crates/madrpc-orchestrator/src/load_balancer.rs:272-310 | consecutive_failures is the length of the trailing run of failed checks since the last good one, enabling, registration or creation |
| `HealthProtocol.OpensOnlyAtThreshold` | crates/madrpc-orchestrator/src/load_balancer.rs:272-310 | a circuit opens iff a failed check is applied while HalfOpen, or while Closed with the run reaching the threshold |
| `HealthProtocol.AutoDisableThreshold` | crates/madrpc-orchestrator/src/health_checker.rs:242-313 | a node is auto-disabled below the health threshold iff the threshold is above one and an operator reset it between process and apply |
| `Recovery.HealthyRoundResult` | crates/madrpc-orchestrator/src/health_checker.rs:144-177 | a round in which a node answers that is present and not manually disabled ends with it enabled, zero failures, and Closed unless it was still Open after the timeouts |
| `Recovery.HealthyRoundClosesIff` | crates/madrpc-orchestrator/src/health_checker.rs:144-177 | such a round closes the circuit, and makes the node selectable, iff the circuit was not Open or its timeout had passed at the start of the round; otherwise it stays Open since the same time |
| `Recovery.HealthyAnswerLeavesOpen` | crates/madrpc-orchestrator/src/node.rs:252-294 | a run of two rounds that leaves a node Open with zero failures, for which 15 s then suffice where the base timeout is 30 s |
| `Recovery.BoundedRecovery` | crates/madrpc-orchestrator/src/health_checker.rs:144-177 | a node that is present, not manually disabled and answers in two successive rounds is enabled, listed and without failures after them, whatever its history and the interference; and Closed and selectable iff its timeout had passed in the first round, or the zero-failure timeout since its opening in the second |
| `Disabling.FailingRoundResult` | crates/madrpc-orchestrator/src/health_checker.rs:242-313 | a round in which a node fails, under any interference with others, adds one failure; if the node was enabled and the count reaches the threshold it ends disabled for HealthCheck, unlisted and unselected, and otherwise enabled or disabled as before |
| `Disabling.FailingRoundsDisable` | crates/madrpc-orchestrator/src/health_checker.rs:242-313 | an enabled node that fails in successive rounds is enabled and listed iff its failures in a row are below the threshold |
| `OpeningTimes.OpenSinceStep` | crates/madrpc-orchestrator/src/node.rs:277-294 | over every run, an Open circuit was opened by a step that applied a failed check of the node, has been Open since, and its opening time is the time of that step |
| `OpeningTimes.LeavesOpenOnlyByTimeout` | crates/madrpc-orchestrator/src/load_balancer.rs:325-337 | a circuit leaves Open, on a node that stays, only through a timeout check, and to HalfOpen |
| `OpeningTimes.HalfOpensAfterTimeout` | crates/madrpc-orchestrator/src/node.rs:252-264 | over every run a timeout check makes an Open circuit HalfOpen iff the timeout for the node's current run of failures has passed since the step that opened it |
| `OperatorSteps.NewIsAddedIff` | crates/madrpc-orchestrator/src/load_balancer.rs:81-96 | a new balancer is an empty one to which the addresses are added one by one iff they are distinct |
| `OperatorSteps.DisableHoldsDown` | crates/madrpc-orchestrator/src/load_balancer.rs:148-159 | a manual disable takes a known node out of the rotation for the reason Manual and changes nothing else; the order of the others stays |
| `OperatorSteps.DisabledUntilReset` | crates/madrpc-orchestrator/src/load_balancer.rs:148-159 | disabled at any moment of any run, a node stays disabled, unlisted and unselected until reset by name |
| `OperatorSteps.EnablePutsBack` | crates/madrpc-orchestrator/src/load_balancer.rs:172-186 | enabling a known node ends with it enabled, listed (at the end if it was not), without reason and failures, its circuit unchanged, and changes nothing else |
| `OperatorSteps.AutoEnableUndoesHealthOnly` | crates/madrpc-orchestrator/src/load_balancer.rs:234-252 | automatic enabling acts, and answers true, iff the node was disabled for HealthCheck |
| `OperatorSteps.AutoDisableSparesManual` | crates/madrpc-orchestrator/src/load_balancer.rs:204-219 | automatic disabling acts, and answers true, iff the node is known and not manually disabled |
| `OperatorSteps.AddStartsFresh` | crates/madrpc-orchestrator/src/load_balancer.rs:440-447 | adding an unknown address puts an enabled, Closed, unused node at the end of the list; a known one is left alone |
| `OperatorSteps.RemoveForgets` | crates/madrpc-orchestrator/src/load_balancer.rs:456-461 | removing leaves the address unknown and unlisted and the others as they were |
| `OperatorSteps.RegisterPutsIn` | crates/madrpc-orchestrator/src/orchestrator.rs:606-631 | registering an http or https URL leaves it known, enabled, listed and without failures, its circuit kept if known, and reports newness; anything else changes nothing |
| `Timeouts.TimeoutIsCapped` | crates/madrpc-orchestrator/src/node.rs:128-134 | with at least one failure the timeout is the capped exponential backoff of the failures beyond the first |
| `Timeouts.TimeoutNatural` | crates/madrpc-orchestrator/src/node.rs:128-134 | for a natural multiplier m it is min(base x m^(failures - 1), max) |
| `Timeouts.TimeoutNondecreasing` | crates/madrpc-orchestrator/src/node.rs:128-134 | for any multiplier >= 1 further failures, from none on, never shorten the timeout |
| `Timeouts.ShorterThanBaseIff` | crates/madrpc-orchestrator/src/node.rs:128-134 | with zero failures, as a healthy answer while Open leaves them, the timeout is shorter than the base iff the base is positive and the multiplier exceeds 1 or is negative, or the base exceeds the maximum |
| `Timeouts.TimeoutWithoutFailures` | crates/madrpc-orchestrator/src/node.rs:128-134 | for zero failures and a natural multiplier m > 0 it is min(base / m, max) |
| `HealthCheckers.HealthChecker.ProcessHealthResult` | crates/madrpc-orchestrator/src/health_checker.rs:242-269 | the decision is that of the protocol step |
| `HealthCheckers.HealthChecker.ApplyHealthUpdate` | crates/madrpc-orchestrator/src/health_checker.rs:282-313 | the balancer changes as in the protocol step |
| `HealthCheckers.HealthChecker.StartRound` | crates/madrpc-orchestrator/src/health_checker.rs:144-160 | timeouts, what others do then, and snapshot are the first protocol steps of a round |
| `HealthCheckers.HealthChecker.CheckAllNodes` | crates/madrpc-orchestrator/src/health_checker.rs:144-177 | a round over the balancer object, with anything that traffic and operators do whenever no lock is held, is a run of the protocol that visits every node of the snapshot once |
| `JobLaws.EnqueueAllGrows` | crates/madrpc-server/src/runtime/job_executor.rs:147-157 | enqueueing adds exactly the given jobs, each at the back of its own queue |
| `JobLaws.EnqueueHeldGrows` | crates/madrpc-server/src/runtime/job_executor.rs:105-111 | under the held borrow the same happens unless a generic job is among them: then, and only then, it panics |
| `JobRuns.PollOnceConserves` | crates/madrpc-server/src/runtime/job_executor.rs:270-273 | polling loses and invents no job |
| `JobRuns.DrainRunsSnapshot` | crates/madrpc-server/src/runtime/job_executor.rs:105-122 | a drain runs the oldest generic job and then exactly the promise jobs enqueued by then, those of the generic job included, in order; it panics iff that generic job enqueues a generic job |
| `JobRuns.DrainLeavesChained` | crates/madrpc-server/src/runtime/job_executor.rs:113-119 | what a drain leaves queued is exactly the promise jobs enqueued by the promise jobs it ran |
| `JobRuns.OvertakesIff` | crates/madrpc-server/src/runtime/job_executor.rs:105-119 | in every turn of every run a generic job runs before a promise job that was enqueued before the drain iff after the poll a job of each kind is queued |
| `JobRuns.LaterGenericRunsFirst` | crates/madrpc-server/src/runtime/job_executor.rs:105-119 | a promise job and a generic job, enqueued in this order, run the other way round |
| `JobRuns.MacrotaskOvertakesMicrotask` | crates/madrpc-server/src/runtime/job_executor.rs:105-119 | a promise job enqueues a promise job and then a generic job; the generic job runs first |
| `JobRuns.TurnConserves` | crates/madrpc-server/src/runtime/job_executor.rs:257-279 | a turn runs at most one generic job and loses no job; it lowers the measure unless nothing was ready and nothing queued |
| `JobRuns.EachJobAtMostOnceInOrder` | crates/madrpc-server/src/runtime/job_executor.rs:248-280 | at every moment of every run, panicked or not, no job has run more often than the forest has it, and promise and generic jobs ran in enqueue order; until a panic executed and pending jobs make up the forest |
| `JobRuns.ReturnsOnlyWhenDone` | crates/madrpc-server/src/runtime/job_executor.rs:248-280 | the loop returns only with all queues and the group empty, every job executed exactly once and both orders complete |
| `JobRuns.EveryRunStops` | crates/madrpc-server/src/runtime/job_executor.rs:248-280 | every run stops within as many turns as the forest has jobs and polls, not counting turns in which the group only waits; it panics iff some generic job of the forest enqueues a generic job |
| `JobRuns.FairRunsComplete` | crates/madrpc-server/src/runtime/job_executor.rs:248-280 | if the group never waits for ever the loop stops, with every job executed exactly once unless such a generic job exists |
| `JobOrder.EnqueueAllQueues` | crates/madrpc-server/src/runtime/job_executor.rs:147-157 | each queue receives the jobs of its kind at its back, in order, and nothing else changes |
| `JobOrder.RunsInOrderEnqueued` | crates/madrpc-server/src/runtime/job_executor.rs:248-280 | at every moment of every run, panicked or not, the promise jobs that have run are the first of the promise jobs among all that was enqueued, in that order, likewise the generic jobs; on return they are all |
| `JobOrder.PromisesRunBreadthFirst` | crates/madrpc-server/src/runtime/job_executor.rs:248-280 | a forest of promise jobs runs level by level, one level a turn, whatever the runtime does |
| `JobOrder.OneCompletionPerTurn` | crates/madrpc-server/src/runtime/job_executor.rs:270-273 | a turn completes at most one async job of those under way, and may complete any whose next poll is its last |
| `SyncJobs.SyncRunsStop` | crates/madrpc-server/src/runtime/job_executor.rs:248-280 | a forest without async jobs stops within as many turns as it has jobs, whatever the runtime does |
| `JobExecutors.TokioJobExecutor.HasPendingJobs` | crates/madrpc-server/src/runtime/job_executor.rs:84-90 | true iff a run would not return at once |
| `JobExecutors.TokioJobExecutor.EnqueueJob` | crates/madrpc-server/src/runtime/job_executor.rs:147-157 | the job joins the queue of its kind; other kinds are dropped |
| `JobExecutors.TokioJobExecutor.DrainJobs` | crates/madrpc-server/src/runtime/job_executor.rs:105-122 | the queues change as in the value-level drain |
| `JobExecutors.TokioJobExecutor.CallHeld` | crates/madrpc-server/src/runtime/job_executor.rs:107-111 | a generic job's enqueueing stops with a panic at the first generic job |
| `JobExecutors.TokioJobExecutor.RunAll` | crates/madrpc-server/src/runtime/job_executor.rs:113-119 | the promise jobs taken run in order, each enqueueing into the emptied queues |
| `JobExecutors.TokioJobExecutor.GatherJobs` | crates/madrpc-server/src/runtime/job_executor.rs:257-261 | all queued async jobs join the group, in order |
| `JobExecutors.TokioJobExecutor.PollGroup` | crates/madrpc-server/src/runtime/job_executor.rs:270-273 | the group and queues change as in the value-level poll |
| `JobExecutors.TokioJobExecutor.RunJobsAsync` | crates/madrpc-server/src/runtime/job_executor.rs:248-280 | given a schedule as long as the jobs and polls to come and the turns of mere waiting, the loop ends; it panics iff a nested generic job is pending, and otherwise ends with everything empty and executed exactly once, in order |
| `Backoff.IteratedIsClosedForm` | crates/madrpc-orchestrator/src/orchestrator.rs:480-484 | for a natural multiplier the iterated backoff equals min(initial x m^k, max) on every retry iff initial <= max |
| `Backoff.BackoffNatural` | crates/madrpc-orchestrator/src/orchestrator.rs:480-484 | for a natural multiplier m and initial <= max the k-th wait is min(initial x m^k, max) |
| `Backoff.CappedNatural` | crates/madrpc-client/src/client.rs:269-270 | for a natural multiplier the client's formula before jitter is min(initial x m^k, max) |
| `Backoff.IteratedNeverExceedsClosed` | crates/madrpc-orchestrator/src/orchestrator.rs:480-484 | for any multiplier >= 0 the k-th wait is at most the closed form iff k > 0 or initial <= max |
| `Backoff.RoundingLags` | crates/madrpc-orchestrator/src/orchestrator.rs:480-484 | witness: with multiplier 1.5 from 1 ms it stays at 1 ms and below the closed form on every retry from the second on |
| `Backoff.NondecreasingIff` | crates/madrpc-orchestrator/src/orchestrator.rs:480-484 | for any multiplier >= 1 the waits never shrink iff the first is within the cap |
| `Backoff.WaitsBounded` | crates/madrpc-orchestrator/src/orchestrator.rs:442-484 | n waits total at most initial + (n - 1) x max, and at most n x max when initial <= max |
| `ClientRetry.RetriedReplies` | crates/madrpc-client/src/client.rs:639-736 | exactly which replies the client tries again after; a too-large request (-32001) is among them |
| `ClientRetry.NewPolicyIff` | crates/madrpc-client/src/client.rs:190-224 | new accepts exactly the valid settings, unchanged; for those the first delay before jitter is the base |
| `ClientRetry.DelaysAre` | crates/madrpc-client/src/client.rs:268-281 | the possible delays are exactly [d, d + max(1, d/10)) for the capped backoff d: jitter is only added |
| `ClientRetry.DelaysNatural` | crates/madrpc-client/src/client.rs:268-281 | for a natural multiplier m the possible delays are [d, d + max(1, d/10)) for d = min(base x m^(attempt - 1), max) |
| `ClientRetry.DelayIsBackoff` | crates/madrpc-client/src/client.rs:268-281 | before jitter the client's delay equals the orchestrator's backoff for the same settings and a natural multiplier |
| `ClientRetry.CallEndsAtFirstSettled` | crates/madrpc-client/src/client.rs:552-627 | a call ends with the first reply not to be retried or with the last attempt, returns that reply's result, and waits once before each further attempt |
| `ClientRetry.SucceedsIffSomeAttemptDoes` | crates/madrpc-client/src/client.rs:552-627 | a call succeeds iff some attempt does that only retryable failures precede |
| `ClientRetry.CallAnswers` | crates/madrpc-client/src/client.rs:552-736 | a call returns v iff its settling reply, the first not transient or the last, is a success status with result v; every other reply gives its own kind of error, with the message of an error response passed on under its prefix |
| `ClientRetry.NoAttempts` | crates/madrpc-client/src/client.rs:623-626 | a policy without attempts sends nothing and gives the exhausted error |
| `Forwarding.SendsAgainIff` | crates/madrpc-orchestrator/src/orchestrator.rs:296-298 | a failed send goes to another node iff retries are left, the client used up its attempts on retryable failures, and the last reply carried -32603 or a code in [-32099, -32001] |
| `Forwarding.ForwardingMeans` | crates/madrpc-orchestrator/src/orchestrator.rs:442-492 | every forwarding, under any interference: sends, waits and result; the result is the last send's own, or that there was no node, and AllNodesFailed only for no node at the very last attempt |
| `Forwarding.ForwardingAnswers` | crates/madrpc-orchestrator/src/orchestrator.rs:442-531 | a forwarding returns v iff its last send reached a node whose settling reply is a success status with result v; an unreachable node gives a transport error, and an error response its own kind and message |
| `Forwarding.SendsToNextNodes` | crates/madrpc-orchestrator/src/orchestrator.rs:442-460 | every send goes to what next_node returns at that moment, whatever others did before; it ends for want of a node iff next_node returns None; the balancer is left as after the last selection |
| `Forwarding.TotalsBounded` | crates/madrpc-orchestrator/src/orchestrator.rs:442-492 | at most (retries + 1) x attempts HTTP requests; and waiting in both loops together for at most retries x the larger of first backoff and cap, plus for every send (attempts - 1) x 1.1 times the client's cap |
| `Forwarding.ForwardKeepsRep` | crates/madrpc-orchestrator/src/orchestrator.rs:442-492 | forwarding keeps the balancer's representation under any interference |
| `Forwarding.PicksAreCalls` | crates/madrpc-orchestrator/src/orchestrator.rs:449-459 | undisturbed, the nodes sent to are the answers of consecutive next_node calls |
| `Forwarding.FailsOverToOthers` | crates/madrpc-orchestrator/src/orchestrator.rs:442-492 | undisturbed, the sends go to pairwise different nodes until every selectable node has been tried |
| `Forwarding.NoNodeAnswersAtOnce` | crates/madrpc-orchestrator/src/orchestrator.rs:449-459 | with no selectable node the answer comes at once, although it is of the retryable kind |
| `Orchestrators.MadrpcClient.CallMethod` | crates/madrpc-client/src/client.rs:552-627 | the loop with last_error computes the value-level call |
| `Orchestrators.Orchestrator.SendRequest` | crates/madrpc-orchestrator/src/orchestrator.rs:508-531 | a send is a call of a new client, or a transport error if none can be built |
| `Orchestrators.Orchestrator.ForwardRequest` | crates/madrpc-orchestrator/src/orchestrator.rs:442-492 | the loop over the balancer object, with anything that others do to it whenever no lock is held, computes the value-level forwarding, balancer included |

## Left out

- MetricsRegistry: the entries of the two tables are values in a map that the methods reassign; the program shares them as atomically updated objects, and that aliasing is not modelled.
- RegistryLaws: sequential runs only. Under concurrent recording, counters of one snapshot need not add up, and relaxed memory ordering lets them be seen out of step.
- InvAlways: the excess is bounded by operations since the last cleanup in sequential runs; threads between the counter and their insertion could add to it.
- TimestampsAreOrdered: interleavings are sequentially consistent; the fallback counter that stands in for a failing system clock is an arbitrary clock reading here.
- Integer overflow: u32 and u64 counters, the usize wrap of the counters, and sums of latencies are unbounded here; the wrap of a u32 attempt number into an i32 exponent is not modelled.
- Floating point: rounding, NaN and infinities; Duration conversion and its rounding to nanoseconds. Rates of zero or below, for which converting the wait to a Duration would panic, are outside a valid limiter configuration.
- CheckTimeout: one clock reading serves all nodes of a timeout check, where the program reads the clock for each.
- FullRoundServesEachOnce: membership and circuits do not change meanwhile. Across membership changes, at which the index is not adjusted, nothing is claimed.
- BoundedRecovery: assumes that the health checker runs a second round; the timer that starts rounds and the HTTP check itself are not part of this model.
- RunJobsAsync: takes the readiness of futures as a finite schedule that is long enough, since a loop over futures that never become ready does not end; `FairRunsComplete` treats infinite schedules.
- PollOnce: a future's polls and spawns are given with the job, and making a future from an async job enqueues nothing. A job's JavaScript result and its errors, which are only logged, are not modelled.
- ForwardRequest: the built-in _metrics and _info methods and the recording of metrics around a send are left out.
- RetriedReplies: the messages of error responses are kept as the program passes them on; details that it formats into other messages (transport causes, statuses, attempt counts) are left out, and so is the JSON-RPC encoding.
- The active-connection count, which nothing updates in production, and snapshots of metrics.
- `run_jobs`, which only picks a runtime for `run_jobs_async`.
- Test-only access to node state and direct transitions to HalfOpen, which would break the claim flag's invariant.
- HTTP servers and routers, authentication, resource limits, the command line and terminal interface, and the Boa bindings: input, output and library wrappers.
