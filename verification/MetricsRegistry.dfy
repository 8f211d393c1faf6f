/** The metrics registry as the program runs it: counters and tables updated in place, one operation at a time. */
module MetricsRegistries {
  import opened Clock
  import opened Registry
  import opened RegistryLaws

  /** Sorting a table's entries by last use. */
  method OldestFirst(times: map<string, nat>) returns (names: seq<string>)
    ensures IsListing(names, times, times.Keys) && |names| == |times|
  {
    names := [];
    var rest := times.Keys;
    while rest != {}
      invariant rest <= times.Keys
      invariant forall k :: k in times <==> k in rest || k in names
      invariant forall k :: k in names ==> k !in rest
      invariant forall i, j :: 0 <= i < j < |names| ==> names[i] != names[j]
      invariant forall i, j :: 0 <= i < j < |names| && names[i] in times && names[j] in times ==>
                  times[names[i]] <= times[names[j]]
      invariant forall k, i :: k in rest && 0 <= i < |names| && names[i] in times ==> times[k] <= times[names[i]]
      decreases |rest|
    {
      ghost var newest := Newest(times, rest);
      var k :| k in rest && forall j :: j in rest ==> times[j] <= times[k];
      names := [k] + names;
      rest := rest - {k};
    }
    DistinctCount(names);
    assert Elements(names) == times.Keys;
    assert |times| == |times.Keys|;
  }

  /** The entries that the size limit evicts, oldest first. */
  method Victims(times: map<string, nat>, max: nat) returns (names: seq<string>)
    requires Distinct(times)
    ensures forall k :: k in names <==> k in times && |UsedAfter(times, times.Keys, k)| >= max
  {
    names := [];
    var entries := OldestFirst(times);
    forall k | k in times
      ensures exists i ::
                0 <= i < |entries| && entries[i] == k && |UsedAfter(times, times.Keys, k)| == |entries| - 1 - i
    {
      var i :| 0 <= i < |entries| && entries[i] == k;
      UsedAfterIsTail(entries, times, times.Keys, i);
    }
    if |times| > max {
      var toRemove := |entries| - max;
      names := entries[..toRemove];
      forall k | k in names ensures |UsedAfter(times, times.Keys, k)| >= max {
        var i :| 0 <= i < toRemove && entries[i] == k;
        UsedAfterIsTail(entries, times, times.Keys, i);
      }
    }
  }

  method RemoveAll<V>(table: map<string, V>, names: seq<string>) returns (rest: map<string, V>)
    ensures rest == map k | k in table && k !in names :: table[k]
  {
    rest := table;
    for i := 0 to |names|
      invariant rest == map k | k in table && k !in names[..i] :: table[k]
    {
      rest := rest - {names[i]};
    }
    assert names[..|names|] == names;
  }

  /** Survivors of the whole table are the survivors of its fresh part. */
  lemma SurvivorsOfRetained(times: Times, retained: Times, now: nat, ttlMs: nat, max: nat)
    requires retained == map k | k in times && SaturatingSub(now, times[k]) < ttlMs :: times[k]
    ensures forall k ::
              k in Survivors(times, now, ttlMs, max) <==>
              k in retained && |UsedAfter(retained, retained.Keys, k)| < max
  {
    var live := FreshKeys(times, now, ttlMs);
    assert retained.Keys == live;
    forall k | k in live ensures UsedAfter(times, live, k) == UsedAfter(retained, retained.Keys, k) {
    }
  }

  /** Both halves of cleanup, for a table whose entries were last used at `times`: retain, then evict. */
  method CleanTable<V>(table: map<string, V>, times: map<string, nat>, now: nat, ttlMs: nat, max: nat)
    returns (rest: map<string, V>)
    requires times.Keys == table.Keys && Distinct(times)
    ensures rest == map k | k in table && k in Survivors(times, now, ttlMs, max) :: table[k]
  {
    hide Survivors;
    rest := map k | k in table && SaturatingSub(now, times[k]) < ttlMs :: table[k];
    var lastUse := map k | k in rest :: times[k];
    SurvivorsOfRetained(times, lastUse, now, ttlMs, max);
    var victims := Victims(lastUse, max);
    rest := RemoveAll(rest, victims);
  }

  class MetricsRegistry {
    var totalRequests: nat
    var successfulRequests: nat
    var failedRequests: nat
    var methods: map<string, MethodEntry>
    var nodes: map<string, NodeEntry>
    const config: Config
    var cleanupCounter: nat
    const clock: MonotonicClock

    ghost function View(): State
      reads this, clock
    {
      State(totalRequests, successfulRequests, failedRequests, methods, nodes, cleanupCounter, clock.last)
    }

    ghost predicate Valid()
      reads this, clock
    {
      Inv(config, View())
    }

    constructor (config: Config)
      ensures Valid() && fresh(clock) && this.config == config && View() == Empty
    {
      totalRequests, successfulRequests, failedRequests := 0, 0, 0;
      methods := map[];
      nodes := map[];
      this.config := config;
      cleanupCounter := 0;
      clock := new MonotonicClock();
      new;
      InvAlways(config, []);
    }

    method CleanupStaleEntries(systemTime: nat)
      requires DistinctTimes(View())
      modifies this`methods, this`nodes, clock
      ensures View() == Cleanup(config, old(View()), systemTime)
    {
      hide Survivors, Next;
      var now := clock.GetAlone(systemTime);
      var methodTimes := map k | k in methods :: methods[k].last;
      methods := CleanTable(methods, methodTimes, now, config.methodTtlSecs * 1000, config.maxMethods);
      var nodeTimes := map k | k in nodes :: nodes[k].last;
      nodes := CleanTable(nodes, nodeTimes, now, config.nodeTtlSecs * 1000, config.maxNodes);
    }

    method MaybeCleanup(systemTime: nat)
      requires DistinctTimes(View())
      modifies this`methods, this`nodes, this`cleanupCounter, clock
      ensures View() == Registry.MaybeCleanup(config, old(View()), systemTime)
    {
      hide DistinctTimes, Cleanup;
      var count := cleanupCounter;
      cleanupCounter := cleanupCounter + 1;
      FewerEntries(old(View()), View());
      if count % CLEANUP_INTERVAL == 0 {
        CleanupStaleEntries(systemTime);
      }
    }

    /** Update an entry and stamp it with the current time, as every update of an entry does. */
    method Touch(name: string, e: MethodEntry, systemTime: nat)
      modifies this`methods, clock
      ensures clock.last == Next(systemTime, old(clock.last))
      ensures methods == old(methods)[name := e.(last := clock.last)]
    {
      var now := clock.GetAlone(systemTime);
      methods := methods[name := e.(last := now)];
    }

    method RecordMethodCall(name: string, us: nat, success: bool, r: Readings)
      requires Valid()
      modifies this, clock
      ensures Valid() && View() == RecordCall(config, old(View()), name, us, success, r)
    {
      hide Inv, DistinctTimes, Registry.MaybeCleanup, Next;
      CountedKeeps(config, View(), success);
      InvHasDistinctTimes(config, Counted(View(), success));
      totalRequests := totalRequests + 1;
      if success {
        successfulRequests := successfulRequests + 1;
      } else {
        failedRequests := failedRequests + 1;
      }
      assert View() == Counted(old(View()), success);
      MaybeCleanup(r.cleanup);
      EnterCall(name, us, success, r);
      CallKeepsInv(config, old(View()), name, us, success, r);
    }

    method CreateEntry(name: string, systemTime: nat)
      modifies this`methods, clock
      ensures name in old(methods) ==> methods == old(methods) && clock.last == old(clock.last)
      ensures name !in old(methods) ==>
                && clock.last == Next(systemTime, old(clock.last))
                && methods == old(methods)[name := MethodEntry(0, 0, 0, [], clock.last)]
    {
      if name !in methods {
        Touch(name, MethodEntry(0, 0, 0, [], 0), systemTime);
      }
    }

    /** The call, latency and outcome of an entry are counted one after the other. */
    method UpdateEntry(name: string, us: nat, success: bool, r: Readings)
      requires name in methods
      modifies this`methods, clock
      ensures clock.last == Next(r.outcome, Next(r.latency, Next(r.call, old(clock.last))))
      ensures var e := old(methods)[name];
        methods == old(methods)[name := MethodEntry(
          e.calls + 1, e.successes + (if success then 1 else 0), e.failures + (if success then 0 else 1),
          e.samples + [us], clock.last)]
    {
      hide Next;
      ghost var m := methods;
      var e := methods[name];
      Touch(name, e.(calls := e.calls + 1), r.call);
      e := methods[name];
      Touch(name, e.(samples := e.samples + [us]), r.latency);
      assert methods == m[name := methods[name]];
      e := methods[name];
      Touch(name, if success then e.(successes := e.successes + 1) else e.(failures := e.failures + 1), r.outcome);
      assert methods == m[name := methods[name]];
    }

    /** What `record_method_call` does after the cleanup check: find or create the entry, then update it. */
    method EnterCall(name: string, us: nat, success: bool, r: Readings)
      modifies this`methods, clock
      ensures View() == Enter(old(View()), name, us, success, r)
    {
      hide Next;
      ghost var m := methods;
      CreateEntry(name, r.create);
      UpdateEntry(name, us, success, r);
      assert methods == m[name := methods[name]];
    }

    method RecordNodeRequest(name: string, r: Readings)
      requires Valid()
      modifies this, clock
      ensures Valid() && View() == RecordRequest(config, old(View()), name, r)
    {
      hide Inv, DistinctTimes, Registry.MaybeCleanup, Next;
      InvHasDistinctTimes(config, View());
      MaybeCleanup(r.cleanup);
      EnterRequest(name, r);
      RequestKeepsInv(config, old(View()), name, r);
      assert nodes == RecordRequest(config, old(View()), name, r).nodes;
    }

    /** What `record_node_request` does after the cleanup check. */
    method EnterRequest(name: string, r: Readings)
      modifies this`nodes, clock
      ensures View() == EnterNode(old(View()), name, r)
    {
      hide Next;
      ghost var m := nodes;
      if name !in nodes {
        nodes := nodes[name := NodeEntry(0, 0)];
      }
      nodes := nodes[name := nodes[name].(requests := nodes[name].requests + 1)];
      var now := clock.GetAlone(r.call);
      nodes := nodes[name := nodes[name].(last := now)];
      assert nodes == m[name := nodes[name]];
    }
  }

  lemma InvHasDistinctTimes(c: Config, s: State)
    requires Inv(c, s)
    ensures DistinctTimes(s)
  {
  }
}
