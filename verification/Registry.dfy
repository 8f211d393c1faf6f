/** The metrics registry as values: what recording and cleaning up do to its tables. */
module Registry {
  import opened Clock

  const CLEANUP_INTERVAL := 1000

  datatype Config = Config(maxMethods: nat, maxNodes: nat, methodTtlSecs: nat, nodeTtlSecs: nat)

  datatype MethodEntry = MethodEntry(calls: nat, successes: nat, failures: nat, samples: seq<nat>, last: nat)

  datatype NodeEntry = NodeEntry(requests: nat, last: nat)

  datatype State = State(
    total: nat, successful: nat, failed: nat,
    methods: map<string, MethodEntry>, nodes: map<string, NodeEntry>,
    counter: nat, // operations so far
    clock: nat    // last timestamp issued
  )

  const Empty := State(0, 0, 0, map[], map[], 0, 0)

  /** Last-use time of every entry of a table. */
  type Times = map<string, nat>

  function MethodTimes(methods: map<string, MethodEntry>): Times {
    map k | k in methods :: methods[k].last
  }

  function NodeTimes(nodes: map<string, NodeEntry>): Times {
    map k | k in nodes :: nodes[k].last
  }

  function SaturatingSub(a: nat, b: nat): nat {
    if a >= b then a - b else 0
  }

  /** Entries used less than the TTL ago. */
  function FreshKeys(times: Times, now: nat, ttlMs: nat): set<string> {
    set k | k in times && SaturatingSub(now, times[k]) < ttlMs
  }

  function UsedAfter(times: Times, keys: set<string>, k: string): set<string>
    requires keys <= times.Keys && k in times
  {
    set j | j in keys && times[j] > times[k]
  }

  /** What cleanup must keep: the fresh entries that fewer than `max` fresh entries were used after. */
  function Survivors(times: Times, now: nat, ttlMs: nat, max: nat): set<string> {
    var live := FreshKeys(times, now, ttlMs);
    set k | k in live && |UsedAfter(times, live, k)| < max
  }

  /** `cleanup_stale_entries`, given the system clock reading. */
  function Cleanup(c: Config, s: State, systemTime: nat): State {
    var now := Next(systemTime, s.clock);
    var methods := Survivors(MethodTimes(s.methods), now, c.methodTtlSecs * 1000, c.maxMethods);
    var nodes := Survivors(NodeTimes(s.nodes), now, c.nodeTtlSecs * 1000, c.maxNodes);
    s.(methods := map k | k in s.methods && k in methods :: s.methods[k],
       nodes := map k | k in s.nodes && k in nodes :: s.nodes[k],
       clock := now)
  }

  function MaybeCleanup(c: Config, s: State, systemTime: nat): State {
    var s' := s.(counter := s.counter + 1);
    if s.counter % CLEANUP_INTERVAL == 0 then Cleanup(c, s', systemTime) else s'
  }

  /** System clock readings made by one operation, each used only if the operation gets there. */
  datatype Readings = Readings(cleanup: nat, create: nat, call: nat, latency: nat, outcome: nat)

  function Counted(s: State, ok: bool): State {
    s.(total := s.total + 1,
       successful := s.successful + (if ok then 1 else 0),
       failed := s.failed + (if ok then 0 else 1))
  }

  /** Create the method's entry if needed, then count the call, its latency and its outcome, touching the entry each
      time. */
  function Enter(s: State, name: string, us: nat, ok: bool, r: Readings): State {
    var isNew := name !in s.methods;
    var e := if isNew then MethodEntry(0, 0, 0, [], 0) else s.methods[name];
    var t0 := if isNew then Next(r.create, s.clock) else s.clock;
    var t := Next(r.outcome, Next(r.latency, Next(r.call, t0)));
    var e' := MethodEntry(
      e.calls + 1, e.successes + (if ok then 1 else 0), e.failures + (if ok then 0 else 1), e.samples + [us], t);
    s.(methods := s.methods[name := e'], clock := t)
  }

  /** `record_method_call`. */
  function RecordCall(c: Config, s: State, name: string, us: nat, ok: bool, r: Readings): State {
    Enter(MaybeCleanup(c, Counted(s, ok), r.cleanup), name, us, ok, r)
  }

  function EnterNode(s: State, name: string, r: Readings): State {
    var e := if name in s.nodes then s.nodes[name] else NodeEntry(0, 0);
    var t := Next(r.call, s.clock);
    s.(nodes := s.nodes[name := NodeEntry(e.requests + 1, t)], clock := t)
  }

  /** `record_node_request`. */
  function RecordRequest(c: Config, s: State, name: string, r: Readings): State {
    EnterNode(MaybeCleanup(c, s, r.cleanup), name, r)
  }
}

/** Laws of the registry over whole sequential runs. */
module RegistryLaws {
  import opened Clock
  import opened Registry

  // ---------- cleanup is exact least-recently-used eviction ----------

  /** A table's entries, oldest first: any order the hash map and the sort may produce. */
  ghost predicate IsListing(names: seq<string>, times: Times, keys: set<string>)
    requires keys <= times.Keys
  {
    && (forall i, j :: 0 <= i < j < |names| ==> names[i] != names[j])
    && (forall k :: k in keys <==> k in names)
    && (forall i, j :: 0 <= i < j < |names| && names[i] in times && names[j] in times ==>
          times[names[i]] <= times[names[j]])
  }

  ghost predicate Distinct(times: Times) {
    forall j, k :: j in times && k in times && j != k ==> times[j] != times[k]
  }

  function Elements(names: seq<string>): set<string> {
    set k | k in names
  }

  lemma {:induction false} DistinctCount(names: seq<string>)
    requires forall i, j :: 0 <= i < j < |names| ==> names[i] != names[j]
    ensures |Elements(names)| == |names|
  {
    if names != [] {
      var last := |names| - 1;
      DistinctCount(names[..last]);
      assert Elements(names) == Elements(names[..last]) + {names[last]};
    }
  }

  /** The entries used after the i-th oldest are the ones listed after it. */
  lemma UsedAfterIsTail(names: seq<string>, times: Times, keys: set<string>, i: nat)
    requires keys <= times.Keys && IsListing(names, times, keys) && Distinct(times) && i < |names|
    ensures names[i] in times && |UsedAfter(times, keys, names[i])| == |names| - 1 - i
  {
    assert names[i] in keys;
    var tail := names[i + 1..];
    assert Elements(tail) == UsedAfter(times, keys, names[i]) by {
      forall k ensures k in Elements(tail) <==> k in UsedAfter(times, keys, names[i]) {
        if k in tail {
          var j :| 0 <= j < |tail| && tail[j] == k;
          assert names[i + 1 + j] == k && k in keys;
        }
        if k in UsedAfter(times, keys, names[i]) {
          var j :| 0 <= j < |names| && names[j] == k;
          assert j > i;
          assert tail[j - i - 1] == k;
        }
      }
    }
    DistinctCount(tail);
  }

  /** Whatever order the hash map iterates in, dropping the oldest entries beyond `max` keeps exactly the survivors. */
  lemma EvictionIsLru(names: seq<string>, times: Times, now: nat, ttlMs: nat, max: nat)
    requires Distinct(times) && IsListing(names, times, FreshKeys(times, now, ttlMs))
    ensures Survivors(times, now, ttlMs, max) == Elements(if |names| > max then names[|names| - max..] else names)
  {
    var live := FreshKeys(times, now, ttlMs);
    var kept := if |names| > max then names[|names| - max..] else names;
    forall k ensures k in Survivors(times, now, ttlMs, max) <==> k in kept {
      if k in live {
        var i :| 0 <= i < |names| && names[i] == k;
        UsedAfterIsTail(names, times, live, i);
        if i >= |names| - max {
          assert |names| > max ==> kept[i - (|names| - max)] == k;
        }
      } else if k in kept {
        assert k in names;
      }
    }
  }

  /** Cleanup leaves at most `max` entries, and drops nothing fresh while the fresh ones fit. */
  lemma SurvivorCount(times: Times, now: nat, ttlMs: nat, max: nat)
    requires Distinct(times)
    ensures |Survivors(times, now, ttlMs, max)| <= max
    ensures |FreshKeys(times, now, ttlMs)| <= max ==> Survivors(times, now, ttlMs, max) == FreshKeys(times, now, ttlMs)
  {
    var live := FreshKeys(times, now, ttlMs);
    var names := ListingExists(times, live);
    EvictionIsLru(names, times, now, ttlMs, max);
    var kept := if |names| > max then names[|names| - max..] else names;
    DistinctCount(kept);
    DistinctCount(names);
    assert Elements(names) == live;
  }

  /** Sorting by last use yields a listing. */
  lemma {:induction false} ListingExists(times: Times, keys: set<string>) returns (names: seq<string>)
    requires keys <= times.Keys
    ensures IsListing(names, times, keys)
    decreases |keys|
  {
    if keys == {} {
      names := [];
    } else {
      var k := Newest(times, keys);
      var older := ListingExists(times, keys - {k});
      names := older + [k];
    }
  }

  lemma {:induction false} Newest(times: Times, keys: set<string>) returns (k: string)
    requires keys <= times.Keys && keys != {}
    ensures k in keys && forall j :: j in keys ==> times[j] <= times[k]
    decreases |keys|
  {
    k :| k in keys;
    if keys != {k} {
      var j := Newest(times, keys - {k});
      if times[j] > times[k] {
        k := j;
      }
    }
  }

  // ---------- runs ----------

  datatype Op =
    | Call(name: string, us: nat, ok: bool, readings: Readings)
    | Request(name: string, readings: Readings)

  function Perform(c: Config, s: State, op: Op): State {
    match op
    case Call(name, us, ok, r) => RecordCall(c, s, name, us, ok, r)
    case Request(name, r) => RecordRequest(c, s, name, r)
  }

  function After(c: Config, ops: seq<Op>): State {
    if ops == [] then Empty else Perform(c, After(c, ops[..|ops| - 1]), ops[|ops| - 1])
  }

  ghost predicate Balanced(e: MethodEntry) {
    e.calls == e.successes + e.failures == |e.samples|
  }

  /** No two entries, of either table, were last used at the same time; none later than the clock. */
  ghost predicate DistinctTimes(s: State) {
    && Distinct(MethodTimes(s.methods)) && Distinct(NodeTimes(s.nodes))
    && (forall k :: k in s.methods ==> s.methods[k].last <= s.clock)
    && (forall k :: k in s.nodes ==> s.nodes[k].last <= s.clock)
    && (forall j, k :: j in s.methods && k in s.nodes ==> s.methods[j].last != s.nodes[k].last)
  }

  function Excess(n: nat, max: nat): nat {
    if n > max then n - max else 0
  }

  /** Operations since the last cleanup, the one that triggered it included. */
  function SinceCleanup(s: State): nat {
    if s.counter == 0 then 0 else (s.counter - 1) % CLEANUP_INTERVAL + 1
  }

  ghost predicate Bounded(c: Config, s: State) {
    Excess(|s.methods|, c.maxMethods) + Excess(|s.nodes|, c.maxNodes) <= SinceCleanup(s)
  }

  ghost predicate Inv(c: Config, s: State) {
    && s.total == s.successful + s.failed
    && (forall k :: k in s.methods ==> Balanced(s.methods[k]))
    && DistinctTimes(s)
    && Bounded(c, s)
  }

  /** Dropping entries and advancing the clock keeps the times distinct. */
  lemma FewerEntries(s: State, s': State)
    requires DistinctTimes(s) && s.clock <= s'.clock
    requires forall k :: k in s'.methods ==> k in s.methods && s'.methods[k] == s.methods[k]
    requires forall k :: k in s'.nodes ==> k in s.nodes && s'.nodes[k] == s.nodes[k]
    ensures DistinctTimes(s')
  {
    forall j, k | j in s'.methods && k in s'.methods && j != k ensures s'.methods[j].last != s'.methods[k].last {
      assert MethodTimes(s.methods)[j] != MethodTimes(s.methods)[k];
    }
    forall j, k | j in s'.nodes && k in s'.nodes && j != k ensures s'.nodes[j].last != s'.nodes[k].last {
      assert NodeTimes(s.nodes)[j] != NodeTimes(s.nodes)[k];
    }
  }

  lemma CleanupFits(c: Config, s: State, systemTime: nat)
    requires DistinctTimes(s)
    ensures var s' := Cleanup(c, s, systemTime);
      DistinctTimes(s') && |s'.methods| <= c.maxMethods && |s'.nodes| <= c.maxNodes
  {
    hide Survivors;
    var s' := Cleanup(c, s, systemTime);
    var now := Next(systemTime, s.clock);
    SurvivorCount(MethodTimes(s.methods), now, c.methodTtlSecs * 1000, c.maxMethods);
    SurvivorCount(NodeTimes(s.nodes), now, c.nodeTtlSecs * 1000, c.maxNodes);
    Restricted(s'.methods, Survivors(MethodTimes(s.methods), now, c.methodTtlSecs * 1000, c.maxMethods));
    Restricted(s'.nodes, Survivors(NodeTimes(s.nodes), now, c.nodeTtlSecs * 1000, c.maxNodes));
    FewerEntries(s, s');
  }

  lemma Restricted<V>(m: map<string, V>, keys: set<string>)
    requires m.Keys <= keys
    ensures |m| <= |keys|
  {
    assert |m| == |m.Keys|;
    SubsetCount(m.Keys, keys);
  }

  lemma {:induction false} SubsetCount(a: set<string>, b: set<string>)
    requires a <= b
    ensures |a| <= |b|
  {
    if a != {} {
      var x :| x in a;
      SubsetCount(a - {x}, b - {x});
    }
  }

  lemma MaybeCleanupKeeps(c: Config, s: State, systemTime: nat)
    requires Inv(c, s)
    ensures var s' := MaybeCleanup(c, s, systemTime);
      && DistinctTimes(s') && (forall k :: k in s'.methods ==> Balanced(s'.methods[k]))
      && s'.total == s.total && s'.successful == s.successful && s'.failed == s.failed && s'.counter == s.counter + 1
      && Excess(|s'.methods|, c.maxMethods) + Excess(|s'.nodes|, c.maxNodes) + 1 <= SinceCleanup(s')
  {
    hide Survivors, Cleanup, DistinctTimes, Balanced;
    var s1 := s.(counter := s.counter + 1);
    assert DistinctTimes(s1) by { SameTimes(s, s1); }
    if s.counter % CLEANUP_INTERVAL == 0 {
      CleanupFits(c, s1, systemTime);
      CleanupKeepsEntries(c, s1, systemTime);
    }
  }

  lemma SameTimes(s: State, s': State)
    requires DistinctTimes(s) && s'.methods == s.methods && s'.nodes == s.nodes && s'.clock == s.clock
    ensures DistinctTimes(s')
  {
  }

  lemma CleanupKeepsEntries(c: Config, s: State, systemTime: nat)
    ensures var s' := Cleanup(c, s, systemTime);
      && (forall k :: k in s'.methods ==> k in s.methods && s'.methods[k] == s.methods[k])
      && s'.total == s.total && s'.successful == s.successful && s'.failed == s.failed && s'.counter == s.counter
  {
    hide Survivors;
  }

  lemma GrowsByOne<V>(m: map<string, V>, k: string, v: V)
    ensures |m[k := v]| <= |m| + 1
  {
    assert m[k := v].Keys == m.Keys + {k};
    assert |m[k := v]| == |m[k := v].Keys| && |m| == |m.Keys|;
  }

  lemma EnterKeepsTimes(s: State, name: string, us: nat, ok: bool, r: Readings)
    requires DistinctTimes(s)
    ensures var s' := Enter(s, name, us, ok, r);
      DistinctTimes(s') && s'.methods[name].last == s'.clock > s.clock
  {
    var s' := Enter(s, name, us, ok, r);
    forall j, k | j in s'.methods && k in s'.methods && j != k ensures s'.methods[j].last != s'.methods[k].last {
      if j != name && k != name {
        assert MethodTimes(s.methods)[j] != MethodTimes(s.methods)[k];
      }
    }
  }

  lemma EnterNodeKeepsTimes(s: State, name: string, r: Readings)
    requires DistinctTimes(s)
    ensures var s' := EnterNode(s, name, r);
      DistinctTimes(s') && s'.nodes[name].last == s'.clock > s.clock
  {
    var s' := EnterNode(s, name, r);
    forall j, k | j in s'.nodes && k in s'.nodes && j != k ensures s'.nodes[j].last != s'.nodes[k].last {
      if j != name && k != name {
        assert NodeTimes(s.nodes)[j] != NodeTimes(s.nodes)[k];
      }
    }
  }

  lemma CountedKeeps(c: Config, s: State, ok: bool)
    requires Inv(c, s)
    ensures Inv(c, Counted(s, ok))
  {
  }

  lemma CallKeepsInv(c: Config, s: State, name: string, us: nat, ok: bool, r: Readings)
    requires Inv(c, s)
    ensures Inv(c, RecordCall(c, s, name, us, ok, r))
  {
    hide MaybeCleanup, DistinctTimes, SinceCleanup;
    CountedKeeps(c, s, ok);
    MaybeCleanupKeeps(c, Counted(s, ok), r.cleanup);
    var s2 := MaybeCleanup(c, Counted(s, ok), r.cleanup);
    var s3 := Enter(s2, name, us, ok, r);
    EnterKeepsTimes(s2, name, us, ok, r);
    GrowsByOne(s2.methods, name, s3.methods[name]);
    assert SinceCleanup(s3) == SinceCleanup(s2) by { SameCounter(s2, s3); }
  }

  lemma RequestKeepsInv(c: Config, s: State, name: string, r: Readings)
    requires Inv(c, s)
    ensures Inv(c, RecordRequest(c, s, name, r))
  {
    hide MaybeCleanup, DistinctTimes, SinceCleanup;
    MaybeCleanupKeeps(c, s, r.cleanup);
    var s2 := MaybeCleanup(c, s, r.cleanup);
    var s3 := EnterNode(s2, name, r);
    EnterNodeKeepsTimes(s2, name, r);
    GrowsByOne(s2.nodes, name, s3.nodes[name]);
    assert SinceCleanup(s3) == SinceCleanup(s2) by { SameCounter(s2, s3); }
  }

  lemma SameCounter(s: State, s': State)
    requires s.counter == s'.counter
    ensures SinceCleanup(s) == SinceCleanup(s')
  {
  }

  lemma StepKeepsInv(c: Config, s: State, op: Op)
    requires Inv(c, s)
    ensures Inv(c, Perform(c, s, op))
  {
    hide Inv;
    match op {
      case Call(name, us, ok, r) => CallKeepsInv(c, s, name, us, ok, r);
      case Request(name, r) => RequestKeepsInv(c, s, name, r);
    }
  }

  lemma {:induction false} InvAlways(c: Config, ops: seq<Op>)
    ensures Inv(c, After(c, ops))
  {
    if ops != [] {
      InvAlways(c, ops[..|ops| - 1]);
      StepKeepsInv(c, After(c, ops[..|ops| - 1]), ops[|ops| - 1]);
    }
  }

  /** Both tables share one cleanup counter, so together they never exceed their limits by more than 1000 entries. */
  lemma SizeBound(c: Config, ops: seq<Op>)
    ensures var s := After(c, ops);
      Excess(|s.methods|, c.maxMethods) + Excess(|s.nodes|, c.maxNodes) <= CLEANUP_INTERVAL
  {
    InvAlways(c, ops);
  }

  // ---------- what the entries remember ----------

  /** Index just after the last operation on a method (or, with `node`, on a node); 0 if there is none. */
  function LastUse(ops: seq<Op>, name: string, node: bool): nat {
    if ops == [] then 0
    else if ops[|ops| - 1].name == name && ops[|ops| - 1].Request? == node then |ops|
    else LastUse(ops[..|ops| - 1], name, node)
  }

  /** Recorded latencies of a method, in order. */
  function Latencies(ops: seq<Op>, name: string): seq<nat> {
    if ops == [] then [] else
      var op := ops[|ops| - 1];
      Latencies(ops[..|ops| - 1], name) + (if op.Call? && op.name == name then [op.us] else [])
  }

  /** Times order a table's entries as the operations on them were ordered. */
  ghost predicate OrderedByUse(times: Times, ops: seq<Op>, node: bool) {
    && (forall k :: k in times ==> 0 < LastUse(ops, k, node))
    && (forall j, k :: j in times && k in times ==>
         (times[j] < times[k] <==> LastUse(ops, j, node) < LastUse(ops, k, node)))
  }

  lemma {:induction false} LastUseBound(ops: seq<Op>, name: string, node: bool)
    ensures LastUse(ops, name, node) <= |ops|
  {
    if ops != [] {
      LastUseBound(ops[..|ops| - 1], name, node);
    }
  }

  lemma LastUseStep(ops: seq<Op>, op: Op, node: bool)
    ensures forall k ::
      LastUse(ops + [op], k, node) == (if op.name == k && op.Request? == node then |ops| + 1 else LastUse(ops, k, node))
    ensures forall k :: LastUse(ops, k, node) <= |ops|
  {
    assert (ops + [op])[..|ops|] == ops;
    forall k ensures LastUse(ops, k, node) <= |ops| {
      LastUseBound(ops, k, node);
    }
  }

  ghost predicate Subtable(times': Times, times: Times) {
    forall k :: k in times' ==> k in times && times'[k] == times[k]
  }

  lemma UntouchedOrder(times: Times, times': Times, ops: seq<Op>, op: Op, node: bool)
    requires OrderedByUse(times, ops, node) && Subtable(times', times) && op.Request? != node
    ensures OrderedByUse(times', ops + [op], node)
  {
    LastUseStep(ops, op, node);
  }

  lemma TouchedOrder(times: Times, times': Times, t: nat, ops: seq<Op>, op: Op, node: bool)
    requires OrderedByUse(times, ops, node) && Subtable(times', times) && op.Request? == node
    requires forall k :: k in times' ==> times'[k] < t
    ensures OrderedByUse(times'[op.name := t], ops + [op], node)
  {
    LastUseStep(ops, op, node);
  }

  /** The tables shrink to some of their entries. */
  ghost predicate Shrinks(s: State, s': State) {
    && (forall k :: k in s'.methods ==> k in s.methods && s'.methods[k] == s.methods[k])
    && (forall k :: k in s'.nodes ==> k in s.nodes && s'.nodes[k] == s.nodes[k])
    && s.clock <= s'.clock
  }

  lemma MaybeCleanupShrinks(c: Config, s: State, systemTime: nat)
    ensures Shrinks(s, MaybeCleanup(c, s, systemTime))
  {
    hide Survivors;
  }

  lemma ShrinksTimes(s: State, s': State)
    requires Shrinks(s, s')
    ensures Subtable(MethodTimes(s'.methods), MethodTimes(s.methods))
    ensures Subtable(NodeTimes(s'.nodes), NodeTimes(s.nodes))
  {
  }

  lemma EnterOrder(methods: Times, nodes: Times, s: State, ops: seq<Op>, op: Op)
    requires OrderedByUse(methods, ops, false) && OrderedByUse(nodes, ops, true)
    requires Subtable(MethodTimes(s.methods), methods) && Subtable(NodeTimes(s.nodes), nodes) && DistinctTimes(s)
    ensures var s' :=
              if op.Call? then Enter(s, op.name, op.us, op.ok, op.readings) else EnterNode(s, op.name, op.readings);
      OrderedByUse(MethodTimes(s'.methods), ops + [op], false) && OrderedByUse(NodeTimes(s'.nodes), ops + [op], true)
  {
    hide OrderedByUse, Subtable;
    if op.Call? {
      var s' := Enter(s, op.name, op.us, op.ok, op.readings);
      TouchedOrder(methods, MethodTimes(s.methods), s'.clock, ops, op, false);
      UntouchedOrder(nodes, NodeTimes(s.nodes), ops, op, true);
      assert MethodTimes(s'.methods) == MethodTimes(s.methods)[op.name := s'.clock];
    } else {
      var s' := EnterNode(s, op.name, op.readings);
      TouchedOrder(nodes, NodeTimes(s.nodes), s'.clock, ops, op, true);
      UntouchedOrder(methods, MethodTimes(s.methods), ops, op, false);
      assert NodeTimes(s'.nodes) == NodeTimes(s.nodes)[op.name := s'.clock];
    }
  }

  /** The state in which the operation's own entry is then made. */
  function Cleaned(c: Config, s: State, op: Op): State {
    MaybeCleanup(c, if op.Call? then Counted(s, op.ok) else s, op.readings.cleanup)
  }

  lemma CleanedKeeps(c: Config, s: State, op: Op)
    requires Inv(c, s)
    ensures DistinctTimes(Cleaned(c, s, op)) && Shrinks(s, Cleaned(c, s, op))
  {
    hide MaybeCleanup, DistinctTimes;
    var s1 := if op.Call? then Counted(s, op.ok) else s;
    if op.Call? {
      CountedKeeps(c, s, op.ok);
    }
    MaybeCleanupKeeps(c, s1, op.readings.cleanup);
    MaybeCleanupShrinks(c, s1, op.readings.cleanup);
  }

  /** Last-use times order the entries as the operations themselves did: evicting by time is evicting by last call. */
  lemma {:induction false} TimesAreCallOrder(c: Config, ops: seq<Op>)
    ensures OrderedByUse(MethodTimes(After(c, ops).methods), ops, false)
    ensures OrderedByUse(NodeTimes(After(c, ops).nodes), ops, true)
  {
    if ops != [] {
      hide MaybeCleanup, Enter, EnterNode, OrderedByUse, Inv, DistinctTimes, Shrinks;
      var before, op := ops[..|ops| - 1], ops[|ops| - 1];
      assert before + [op] == ops;
      TimesAreCallOrder(c, before);
      InvAlways(c, before);
      var s := After(c, before);
      CleanedKeeps(c, s, op);
      ShrinksTimes(s, Cleaned(c, s, op));
      EnterOrder(MethodTimes(s.methods), NodeTimes(s.nodes), Cleaned(c, s, op), before, op);
    }
  }

  /** Fresh entries operated on after `k` was. */
  function OperatedAfter(ops: seq<Op>, keys: set<string>, k: string, node: bool): set<string> {
    set j | j in keys && LastUse(ops, j, node) > LastUse(ops, k, node)
  }

  /** Cleanup, at any point of any run, keeps exactly the fresh entries that fewer than the limit of fresh entries
      were called (or requested) after. */
  lemma CleanupKeepsLatestCalled(c: Config, ops: seq<Op>, systemTime: nat)
    ensures var s, s' := After(c, ops), Cleanup(c, After(c, ops), systemTime);
      var methods := FreshKeys(MethodTimes(s.methods), s'.clock, c.methodTtlSecs * 1000);
      var nodes := FreshKeys(NodeTimes(s.nodes), s'.clock, c.nodeTtlSecs * 1000);
      && (forall k :: k in s'.methods <==> k in methods && |OperatedAfter(ops, methods, k, false)| < c.maxMethods)
      && (forall k :: k in s'.nodes <==> k in nodes && |OperatedAfter(ops, nodes, k, true)| < c.maxNodes)
  {
    var s, s' := After(c, ops), Cleanup(c, After(c, ops), systemTime);
    TimesAreCallOrder(c, ops);
    SurvivorsByUse(MethodTimes(s.methods), s'.clock, c.methodTtlSecs * 1000, c.maxMethods, ops, false);
    SurvivorsByUse(NodeTimes(s.nodes), s'.clock, c.nodeTtlSecs * 1000, c.maxNodes, ops, true);
  }

  lemma SurvivorsByUse(times: Times, now: nat, ttlMs: nat, max: nat, ops: seq<Op>, node: bool)
    requires OrderedByUse(times, ops, node)
    ensures var live := FreshKeys(times, now, ttlMs);
      forall k :: k in Survivors(times, now, ttlMs, max) <==> k in live && |OperatedAfter(ops, live, k, node)| < max
  {
    var live := FreshKeys(times, now, ttlMs);
    forall k | k in live ensures UsedAfter(times, live, k) == OperatedAfter(ops, live, k, node) {
    }
  }

  /** The latest operation that, after its cleanup check, found the method without an entry; the number of operations
      before it. Anything the method has done since is still remembered. */
  function LastAbsence(c: Config, ops: seq<Op>, name: string): (n: nat)
    ensures n <= |ops|
  {
    if ops == [] then 0 else
      var before, op := ops[..|ops| - 1], ops[|ops| - 1];
      if name !in Cleaned(c, After(c, before), op).methods then |before| else LastAbsence(c, before, name)
  }

  lemma LastAbsenceStep(c: Config, ops: seq<Op>, op: Op, name: string)
    ensures LastAbsence(c, ops + [op], name) ==
            if name !in Cleaned(c, After(c, ops), op).methods then |ops| else LastAbsence(c, ops, name)
  {
    hide Cleaned;
    assert (ops + [op])[..|ops|] == ops;
  }

  lemma LatenciesStep(ops: seq<Op>, op: Op, name: string)
    ensures Latencies(ops + [op], name) == Latencies(ops, name) + (if op.Call? && op.name == name then [op.us] else [])
  {
    assert (ops + [op])[..|ops|] == ops;
  }

  lemma EnteredSamples(s: State, op: Op, k: string)
    ensures var s' :=
              if op.Call? then Enter(s, op.name, op.us, op.ok, op.readings) else EnterNode(s, op.name, op.readings);
            var more := if op.Call? && op.name == k then [op.us] else [];
            k in s'.methods ==>
              s'.methods[k].samples == (if k in s.methods then s.methods[k].samples else []) + more &&
              (k !in s.methods ==> more != [])
  {
    hide Next;
  }

  /** Every entry holds exactly the latencies recorded since its method was last absent. */
  ghost predicate Remembers(c: Config, s: State, ops: seq<Op>) {
    forall k :: k in s.methods ==> s.methods[k].samples == Latencies(ops[LastAbsence(c, ops, k)..], k)
  }

  lemma RemembersStep(c: Config, ops: seq<Op>, op: Op, k: string)
    requires Remembers(c, After(c, ops), ops) && Shrinks(After(c, ops), Cleaned(c, After(c, ops), op))
    requires k in After(c, ops + [op]).methods
    ensures After(c, ops + [op]).methods[k].samples
         == Latencies((ops + [op])[LastAbsence(c, ops + [op], k)..], k)
  {
    hide Cleaned, Enter, EnterNode, Latencies, LastAbsence;
    var s2 := Cleaned(c, After(c, ops), op);
    AfterStep(c, ops, op);
    EnteredSamples(s2, op, k);
    LastAbsenceStep(c, ops, op, k);
    var n := LastAbsence(c, ops + [op], k);
    if k in s2.methods {
      assert (ops + [op])[n..] == ops[n..] + [op];
      LatenciesStep(ops[n..], op, k);
    } else {
      assert (ops + [op])[n..] == [op] == [] + [op];
      LatenciesStep([], op, k);
      assert Latencies([], k) == [] by { NoLatencies(k); }
    }
  }

  lemma AfterStep(c: Config, ops: seq<Op>, op: Op)
    ensures var s2 := Cleaned(c, After(c, ops), op);
            After(c, ops + [op]) ==
            if op.Call? then Enter(s2, op.name, op.us, op.ok, op.readings) else EnterNode(s2, op.name, op.readings)
  {
    hide Enter, EnterNode, MaybeCleanup;
    assert (ops + [op])[..|ops|] == ops;
  }

  lemma NoLatencies(name: string)
    ensures Latencies([], name) == []
  {
  }

  /** Over every run: an entry remembers its method's calls from its last absence on, all of them, in order. Eviction
      forgets a method's past as a whole. */
  lemma {:induction false} SamplesSinceAbsence(c: Config, ops: seq<Op>)
    ensures Remembers(c, After(c, ops), ops)
  {
    hide Cleaned, Latencies, LastAbsence, Inv, DistinctTimes, Shrinks, Perform;
    if ops != [] {
      var before, op := ops[..|ops| - 1], ops[|ops| - 1];
      assert before + [op] == ops;
      SamplesSinceAbsence(c, before);
      InvAlways(c, before);
      CleanedKeeps(c, After(c, before), op);
      forall k | k in After(c, ops).methods
        ensures After(c, ops).methods[k].samples == Latencies(ops[LastAbsence(c, ops, k)..], k)
      {
        RemembersStep(c, before, op, k);
      }
    }
  }
}
