/** What the registry's numbers count, when entries go, and what their times are. */
module RegistryCounts {
  import opened Clock
  import opened Registry
  import opened RegistryLaws

  // ---------- counters ----------

  /** Recorded calls of a method with the given outcome. */
  function Calls(ops: seq<Op>, name: string, ok: bool): nat {
    if ops == [] then 0 else
      var op := ops[|ops| - 1];
      Calls(ops[..|ops| - 1], name, ok) + (if op.Call? && op.name == name && op.ok == ok then 1 else 0)
  }

  function Requests(ops: seq<Op>, name: string): nat {
    if ops == [] then 0 else
      var op := ops[|ops| - 1];
      Requests(ops[..|ops| - 1], name) + (if op.Request? && op.name == name then 1 else 0)
  }

  function AllCalls(ops: seq<Op>, ok: bool): nat {
    if ops == [] then 0 else
      var op := ops[|ops| - 1];
      AllCalls(ops[..|ops| - 1], ok) + (if op.Call? && op.ok == ok then 1 else 0)
  }

  lemma CountsStep(ops: seq<Op>, op: Op, k: string)
    ensures forall ok :: Calls(ops + [op], k, ok) ==
                         Calls(ops, k, ok) + (if op.Call? && op.name == k && op.ok == ok then 1 else 0)
    ensures Requests(ops + [op], k) == Requests(ops, k) + (if op.Request? && op.name == k then 1 else 0)
  {
    assert (ops + [op])[..|ops|] == ops;
  }

  lemma NoCounts(k: string)
    ensures Calls([], k, true) == 0 && Calls([], k, false) == 0 && Requests([], k) == 0
  {
  }

  /** The totals count all recorded calls, by outcome, whatever has been evicted. */
  lemma {:induction false} TotalsCountCalls(c: Config, ops: seq<Op>)
    ensures var s := After(c, ops);
      && s.successful == AllCalls(ops, true) && s.failed == AllCalls(ops, false)
      && s.total == AllCalls(ops, true) + AllCalls(ops, false)
      && s.counter == |ops|
  {
    hide Survivors, Next;
    if ops != [] {
      TotalsCountCalls(c, ops[..|ops| - 1]);
    }
  }

  /** The number of operations before the latest that, after its cleanup check, found the node without an entry. */
  function LastNodeAbsence(c: Config, ops: seq<Op>, name: string): (n: nat)
    ensures n <= |ops|
  {
    if ops == [] then 0 else
      var before, op := ops[..|ops| - 1], ops[|ops| - 1];
      if name !in Cleaned(c, After(c, before), op).nodes then |before| else LastNodeAbsence(c, before, name)
  }

  /** The counters of an entry, if there is one, and zeros otherwise. */
  datatype Counters = Counters(successes: nat, failures: nat, requests: nat)

  function CountersOf(s: State, k: string): Counters {
    Counters(
      if k in s.methods then s.methods[k].successes else 0,
      if k in s.methods then s.methods[k].failures else 0,
      if k in s.nodes then s.nodes[k].requests else 0)
  }

  lemma EnteredCounts(s: State, op: Op, k: string)
    ensures var s' :=
              if op.Call? then Enter(s, op.name, op.us, op.ok, op.readings) else EnterNode(s, op.name, op.readings);
            var was, now := CountersOf(s, k), CountersOf(s', k);
            && now.successes == was.successes + (if op.Call? && op.name == k && op.ok then 1 else 0)
            && now.failures == was.failures + (if op.Call? && op.name == k && !op.ok then 1 else 0)
            && now.requests == was.requests + (if op.Request? && op.name == k then 1 else 0)
            && (k in s'.methods <==> k in s.methods || (op.Call? && op.name == k))
            && (k in s'.nodes <==> k in s.nodes || (op.Request? && op.name == k))
  {
    hide Next;
  }

  lemma SuffixGrows(ops: seq<Op>, op: Op, n: nat)
    requires n <= |ops|
    ensures (ops + [op])[n..] == ops[n..] + [op] && (ops + [op])[|ops|..] == [] + [op]
  {
  }

  lemma AbsencesStep(c: Config, ops: seq<Op>, op: Op, k: string)
    ensures LastNodeAbsence(c, ops + [op], k) ==
            if k !in Cleaned(c, After(c, ops), op).nodes then |ops| else LastNodeAbsence(c, ops, k)
  {
    hide Cleaned;
    assert (ops + [op])[..|ops|] == ops;
  }

  lemma {:induction false} CountersCount(c: Config, ops: seq<Op>, k: string)
    ensures var s := After(c, ops);
      && (k in s.methods ==>
            && s.methods[k].successes == Calls(ops[LastAbsence(c, ops, k)..], k, true)
            && s.methods[k].failures == Calls(ops[LastAbsence(c, ops, k)..], k, false))
      && (k in s.nodes ==> s.nodes[k].requests == Requests(ops[LastNodeAbsence(c, ops, k)..], k))
  {
    hide Cleaned, Calls, Requests, LastAbsence, LastNodeAbsence, Inv, DistinctTimes, After, Enter, EnterNode;
    if ops == [] {
      assert After(c, ops) == Empty by { NoOps(c); }
    } else {
      var before, op := ops[..|ops| - 1], ops[|ops| - 1];
      assert before + [op] == ops;
      CountersCount(c, before, k);
      InvAlways(c, before);
      CleanedKeeps(c, After(c, before), op);
      AfterStep(c, before, op);
      LastAbsenceStep(c, before, op, k);
      AbsencesStep(c, before, op, k);
      EnteredCounts(Cleaned(c, After(c, before), op), op, k);
      SuffixGrows(before, op, LastAbsence(c, before, k));
      SuffixGrows(before, op, LastNodeAbsence(c, before, k));
      CountsStep(before[LastAbsence(c, before, k)..], op, k);
      CountsStep(before[LastNodeAbsence(c, before, k)..], op, k);
      CountsStep([], op, k);
      NoCounts(k);
    }
  }

  lemma NoOps(c: Config)
    ensures After(c, []) == Empty
  {
  }

  /** Over every run: an entry's counters are the numbers of successful calls, of failed calls and of node requests
      recorded under its name since it was last absent, and its calls are both outcomes together. */
  lemma CountersSinceAbsence(c: Config, ops: seq<Op>, k: string)
    ensures var s := After(c, ops);
      && (k in s.methods ==>
            var since := ops[LastAbsence(c, ops, k)..];
            && s.methods[k].successes == Calls(since, k, true)
            && s.methods[k].failures == Calls(since, k, false)
            && s.methods[k].calls == Calls(since, k, true) + Calls(since, k, false))
      && (k in s.nodes ==> s.nodes[k].requests == Requests(ops[LastNodeAbsence(c, ops, k)..], k))
  {
    hide After, LastAbsence, LastNodeAbsence, Calls, Requests, DistinctTimes, Bounded;
    CountersCount(c, ops, k);
    InvAlways(c, ops);
  }

  // ---------- times ----------

  /** The last-use time of an entry is the clock at the end of the last operation under its name, which is no earlier
      than the system clock that operation read last. */
  ghost predicate TimedByLastUse(c: Config, ops: seq<Op>, k: string) {
    var s := After(c, ops);
    && (k in s.methods ==>
          var n := LastUse(ops, k, false);
          0 < n <= |ops| && s.methods[k].last == After(c, ops[..n]).clock >= ops[n - 1].readings.outcome)
    && (k in s.nodes ==>
          var n := LastUse(ops, k, true);
          0 < n <= |ops| && s.nodes[k].last == After(c, ops[..n]).clock >= ops[n - 1].readings.call)
  }

  lemma EnteredTimes(s: State, op: Op, k: string)
    ensures var s' :=
              if op.Call? then Enter(s, op.name, op.us, op.ok, op.readings) else EnterNode(s, op.name, op.readings);
            && s'.clock >= (if op.Call? then op.readings.outcome else op.readings.call)
            && (k in s'.methods ==>
                  if op.Call? && op.name == k then s'.methods[k].last == s'.clock
                  else k in s.methods && s'.methods[k] == s.methods[k])
            && (k in s'.nodes ==>
                  if op.Request? && op.name == k then s'.nodes[k].last == s'.clock
                  else k in s.nodes && s'.nodes[k] == s.nodes[k])
  {
  }

  lemma {:induction false} LastUseIsTimed(c: Config, ops: seq<Op>, k: string)
    ensures TimedByLastUse(c, ops, k)
  {
    hide Cleaned, LastUse, Inv, DistinctTimes, After, Enter, EnterNode;
    if ops == [] {
      NoOps(c);
    } else {
      var before, op := ops[..|ops| - 1], ops[|ops| - 1];
      assert before + [op] == ops && ops[..|ops|] == ops;
      LastUseIsTimed(c, before, k);
      InvAlways(c, before);
      CleanedKeeps(c, After(c, before), op);
      AfterStep(c, before, op);
      EnteredTimes(Cleaned(c, After(c, before), op), op, k);
      LastUseStep(before, op, false);
      LastUseStep(before, op, true);
      var n, m := LastUse(before, k, false), LastUse(before, k, true);
      assert before[..n] == ops[..n] && before[..m] == ops[..m];
    }
  }

  // ---------- the cleanup schedule ----------

  /** What a cleanup at `now` finds used less than the TTL ago. */
  function Live(times: Times, now: nat, ttlMs: nat): set<string> {
    set k | k in times && now - times[k] < ttlMs
  }

  lemma LiveIsFresh(times: Times, now: nat, ttlMs: nat)
    requires forall k :: k in times ==> times[k] <= now
    ensures Live(times, now, ttlMs) == FreshKeys(times, now, ttlMs)
  {
  }

  /** An entry that an operation does not make itself goes only when the number of operations before is a multiple of
      1000, and then exactly if its TTL has run out by the new time, or as many entries as the limit that have not run
      out were used after it. */
  ghost predicate StaysIff(c: Config, ops: seq<Op>, op: Op, k: string) {
    var s, s' := After(c, ops), After(c, ops + [op]);
    var due := |ops| % 1000 == 0;
    var now := if op.readings.cleanup > s.clock then op.readings.cleanup else s.clock + 1;
    var methods := Live(MethodTimes(s.methods), now, c.methodTtlSecs * 1000);
    var nodes := Live(NodeTimes(s.nodes), now, c.nodeTtlSecs * 1000);
    && (op.Request? || k != op.name ==>
          (k in s'.methods <==>
           k in s.methods && (due ==> k in methods && |OperatedAfter(ops, methods, k, false)| < c.maxMethods)))
    && (op.Call? || k != op.name ==>
          (k in s'.nodes <==>
           k in s.nodes && (due ==> k in nodes && |OperatedAfter(ops, nodes, k, true)| < c.maxNodes)))
  }

  lemma CleanedIs(c: Config, ops: seq<Op>, op: Op)
    ensures var s, s' := After(c, ops), Cleaned(c, After(c, ops), op);
      if |ops| % 1000 == 0 then
        && s'.methods.Keys == Cleanup(c, s, op.readings.cleanup).methods.Keys
        && s'.nodes.Keys == Cleanup(c, s, op.readings.cleanup).nodes.Keys
      else s'.methods == s.methods && s'.nodes == s.nodes
  {
    hide Survivors, Next, After;
    TotalsCountCalls(c, ops);
  }

  lemma CleanupTime(c: Config, s: State, systemTime: nat)
    requires DistinctTimes(s)
    ensures Cleanup(c, s, systemTime).clock == if systemTime > s.clock then systemTime else s.clock + 1
    ensures forall k :: k in s.methods ==> s.methods[k].last <= s.clock < Cleanup(c, s, systemTime).clock
    ensures forall k :: k in s.nodes ==> s.nodes[k].last <= s.clock < Cleanup(c, s, systemTime).clock
  {
    hide Survivors;
  }

  lemma LiveNow(c: Config, s: State, systemTime: nat)
    requires DistinctTimes(s)
    ensures var now := Cleanup(c, s, systemTime).clock;
      && now == (if systemTime > s.clock then systemTime else s.clock + 1)
      && Live(MethodTimes(s.methods), now, c.methodTtlSecs * 1000)
         == FreshKeys(MethodTimes(s.methods), now, c.methodTtlSecs * 1000)
      && Live(NodeTimes(s.nodes), now, c.nodeTtlSecs * 1000)
         == FreshKeys(NodeTimes(s.nodes), now, c.nodeTtlSecs * 1000)
  {
    hide Cleanup, Live, FreshKeys, DistinctTimes;
    CleanupTime(c, s, systemTime);
    var now := Cleanup(c, s, systemTime).clock;
    LiveIsFresh(MethodTimes(s.methods), now, c.methodTtlSecs * 1000);
    LiveIsFresh(NodeTimes(s.nodes), now, c.nodeTtlSecs * 1000);
  }

  lemma CleansUpOnSchedule(c: Config, ops: seq<Op>, op: Op, k: string)
    ensures StaysIff(c, ops, op, k)
  {
    hide After, Cleaned, Cleanup, Enter, EnterNode, DistinctTimes, OperatedAfter, Live, FreshKeys, Bounded;
    hide MethodTimes, NodeTimes, CountersOf;
    var s, r := After(c, ops), op.readings.cleanup;
    InvAlways(c, ops);
    LiveNow(c, s, r);
    CleanupKeepsLatestCalled(c, ops, r);
    CleanedIs(c, ops, op);
    AfterStep(c, ops, op);
    EnteredCounts(Cleaned(c, s, op), op, k);
    var cleaned := Cleaned(c, s, op);
    assert k in cleaned.methods <==> k in cleaned.methods.Keys;
    assert k in cleaned.nodes <==> k in cleaned.nodes.Keys;
    if |ops| % 1000 == 0 {
      assert k in Cleanup(c, s, r).methods <==> k in Cleanup(c, s, r).methods.Keys;
      assert k in Cleanup(c, s, r).nodes <==> k in Cleanup(c, s, r).nodes.Keys;
      CleanupSubset(c, s, r, k);
    }
  }

  lemma CleanupSubset(c: Config, s: State, systemTime: nat, k: string)
    ensures k in Cleanup(c, s, systemTime).methods ==> k in s.methods
    ensures k in Cleanup(c, s, systemTime).nodes ==> k in s.nodes
  {
    hide Survivors;
  }
}
