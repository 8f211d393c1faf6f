/** The timestamp source: values and the counter object. */
module Clock {
  import opened Arith

  /** The timestamp issued on a clock reading when the last one issued was `last`. */
  function Next(clock: nat, last: nat): nat {
    Max(clock, last + 1)
  }

  /** The counter after other threads' swaps on the given clock readings. */
  function NextAll(last: nat, readings: seq<nat>): (l: nat)
    ensures readings != [] ==> l > last
    decreases |readings|
  {
    if readings == [] then last else NextAll(Next(readings[0], last), readings[1..])
  }

  /** What happens between a load and the swap that follows: other threads' swaps, or a failure for no reason. */
  datatype Round = Round(others: seq<nat>, spurious: bool)

  predicate Undisturbed(r: Round) {
    r.others == [] && !r.spurious
  }

  /** The round whose swap goes through; after the given rounds nobody interferes. */
  function FirstUndisturbed(rounds: seq<Round>): (k: nat)
    ensures k <= |rounds| && (k < |rounds| ==> Undisturbed(rounds[k]))
    ensures forall j :: 0 <= j < k ==> !Undisturbed(rounds[j])
  {
    if rounds == [] || Undisturbed(rounds[0]) then 0 else 1 + FirstUndisturbed(rounds[1..])
  }

  /** Timestamps that other threads take during the given rounds, in order. */
  function IssuedMeanwhile(last: nat, rounds: seq<Round>): seq<nat>
    decreases |rounds|
  {
    if rounds == [] then [] else
      IssuedOn(last, rounds[0].others) + IssuedMeanwhile(NextAll(last, rounds[0].others), rounds[1..])
  }

  function IssuedOn(last: nat, readings: seq<nat>): seq<nat>
    decreases |readings|
  {
    if readings == [] then [] else
      var value := Next(readings[0], last);
      [value] + IssuedOn(value, readings[1..])
  }

  /** The last timestamp of a list that starts after `last`. */
  function LastOf(last: nat, values: seq<nat>): nat {
    if values == [] then last else values[|values| - 1]
  }

  /** Strictly increasing, and beyond `last`. */
  ghost predicate Beyond(last: nat, values: seq<nat>) {
    forall i :: 0 <= i < |values| ==> Rises(last, values, i)
  }

  predicate Rises(last: nat, values: seq<nat>, i: nat)
    requires i < |values|
  {
    (if i == 0 then last else values[i - 1]) < values[i]
  }

  lemma OneBeyond(last: nat, value: nat)
    requires last < value
    ensures Beyond(last, [value])
  {
  }

  lemma {:induction false} IssuedOnIs(last: nat, readings: seq<nat>)
    ensures NextAll(last, readings) == LastOf(last, IssuedOn(last, readings))
    ensures Beyond(last, IssuedOn(last, readings)) && |IssuedOn(last, readings)| == |readings|
    decreases |readings|
  {
    if readings != [] {
      var value := Next(readings[0], last);
      IssuedOnIs(value, readings[1..]);
      OneBeyond(last, value);
      BeyondConcat(last, [value], IssuedOn(value, readings[1..]));
    }
  }

  lemma BeyondConcat(last: nat, a: seq<nat>, b: seq<nat>)
    requires Beyond(last, a) && Beyond(LastOf(last, a), b)
    ensures Beyond(last, a + b) && LastOf(last, a + b) == LastOf(LastOf(last, a), b)
  {
    var all := a + b;
    forall i | 0 <= i < |all| ensures Rises(last, all, i) {
      if i < |a| {
        assert Rises(last, a, i);
      } else {
        assert Rises(LastOf(last, a), b, i - |a|);
      }
    }
  }

  lemma BeyondFront(last: nat, values: seq<nat>)
    requires Beyond(last, values) && values != []
    ensures Beyond(last, values[..|values| - 1]) && LastOf(last, values[..|values| - 1]) < values[|values| - 1]
  {
    var front := values[..|values| - 1];
    forall i | 0 <= i < |front| ensures Rises(last, front, i) {
      assert Rises(last, values, i);
    }
    assert Rises(last, values, |front|);
  }

  lemma {:induction false} BeyondBounds(last: nat, values: seq<nat>, i: nat)
    requires Beyond(last, values) && i < |values|
    ensures last < values[i] <= LastOf(last, values)
    decreases |values|
  {
    hide Beyond;
    BeyondFront(last, values);
    if |values| > 1 {
      BeyondBounds(last, values[..|values| - 1], if i < |values| - 1 then i else i - 1);
    }
  }

  lemma {:induction false} MeanwhileIs(last: nat, rounds: seq<Round>)
    ensures Beyond(last, IssuedMeanwhile(last, rounds))
    decreases |rounds|
  {
    hide Next, Beyond;
    if rounds == [] {
      NoneBeyond(last);
    } else {
      var others := rounds[0].others;
      IssuedOnIs(last, others);
      MeanwhileIs(NextAll(last, others), rounds[1..]);
      BeyondConcat(last, IssuedOn(last, others), IssuedMeanwhile(NextAll(last, others), rounds[1..]));
    }
  }

  lemma NoneBeyond(last: nat)
    ensures Beyond(last, [])
  {
  }

  lemma {:induction false} MeanwhileMore(last: nat, rounds: seq<Round>, r: Round)
    ensures IssuedMeanwhile(last, rounds + [r]) ==
            IssuedMeanwhile(last, rounds) + IssuedOn(LastOf(last, IssuedMeanwhile(last, rounds)), r.others)
    decreases |rounds|
  {
    hide IssuedOn, NextAll;
    if rounds == [] {
      assert rounds + [r] == [r] && [r][1..] == [];
    } else {
      var others := rounds[0].others;
      MeanwhileMore(NextAll(last, others), rounds[1..], r);
      assert (rounds + [r])[1..] == rounds[1..] + [r];
      IssuedOnIs(last, others);
    }
  }

  /** The clock readings of the other threads during the given rounds, in the order of their swaps. */
  function Readings(rounds: seq<Round>): seq<nat>
    decreases |rounds|
  {
    if rounds == [] then [] else rounds[0].others + Readings(rounds[1..])
  }

  /** Timestamp `i` is its clock reading, or one more than the timestamp before it. */
  predicate InTurn(last: nat, readings: seq<nat>, issued: seq<nat>, i: nat)
    requires i < |issued| == |readings|
  {
    var before := if i == 0 then last else issued[i - 1];
    issued[i] == if readings[i] > before then readings[i] else before + 1
  }

  /** One timestamp for every reading, each in its turn. */
  ghost predicate AllInTurn(last: nat, readings: seq<nat>, issued: seq<nat>) {
    |issued| == |readings| && forall i :: 0 <= i < |issued| ==> InTurn(last, readings, issued, i)
  }

  lemma InTurnConcat(last: nat, a: seq<nat>, x: seq<nat>, b: seq<nat>, y: seq<nat>)
    requires AllInTurn(last, a, x) && AllInTurn(LastOf(last, x), b, y)
    ensures AllInTurn(last, a + b, x + y)
  {
    forall i | 0 <= i < |x + y| ensures InTurn(last, a + b, x + y, i) {
      if i < |x| {
        assert InTurn(last, a, x, i);
      } else {
        assert InTurn(LastOf(last, x), b, y, i - |x|);
      }
    }
  }

  lemma OneInTurn(last: nat, reading: nat)
    ensures AllInTurn(last, [reading], [Next(reading, last)])
  {
  }

  lemma NoneInTurn(last: nat)
    ensures AllInTurn(last, [], [])
  {
  }

  lemma {:induction false} IssuedOnInTurn(last: nat, readings: seq<nat>)
    ensures AllInTurn(last, readings, IssuedOn(last, readings))
    decreases |readings|
  {
    hide Next, AllInTurn;
    if readings == [] {
      NoneInTurn(last);
    } else {
      var value := Next(readings[0], last);
      IssuedOnInTurn(value, readings[1..]);
      OneInTurn(last, readings[0]);
      InTurnConcat(last, [readings[0]], [value], readings[1..], IssuedOn(value, readings[1..]));
      assert [readings[0]] + readings[1..] == readings;
    }
  }

  lemma {:induction false} MeanwhileInTurn(last: nat, rounds: seq<Round>)
    ensures AllInTurn(last, Readings(rounds), IssuedMeanwhile(last, rounds))
    decreases |rounds|
  {
    hide AllInTurn, IssuedOn, NextAll;
    if rounds == [] {
      NoneInTurn(last);
    } else {
      var others := rounds[0].others;
      var later := NextAll(last, others);
      IssuedOnIs(last, others);
      IssuedOnInTurn(last, others);
      MeanwhileInTurn(later, rounds[1..]);
      InTurnConcat(last, others, IssuedOn(last, others), Readings(rounds[1..]), IssuedMeanwhile(later, rounds[1..]));
    }
  }

  /** The shared counter, from the point of view of one of its threads. */
  class MonotonicClock {
    var last: nat

    constructor ()
      ensures last == 0
    {
      last := 0;
    }

    /** The swaps of other threads. */
    method Others(readings: seq<nat>)
      modifies this
      ensures last == NextAll(old(last), readings)
    {
      var i := 0;
      while i < |readings|
        invariant 0 <= i <= |readings|
        invariant NextAll(last, readings[i..]) == NextAll(old(last), readings)
      {
        last := Next(readings[i], last);
        assert readings[i..][1..] == readings[i + 1..];
        i := i + 1;
      }
    }

    /** `get_monotonic_timestamp`, with what the other threads do in each of its rounds. Its swap goes through in the
        first undisturbed round; the timestamp is the clock reading or one more than the last timestamp issued before,
        whichever is greater, so it exceeds every timestamp that others took in the meantime. */
    method GetTimestamp(systemTime: nat, rounds: seq<Round>) returns (timestamp: nat)
      modifies this
      ensures last == timestamp
      ensures var issued := IssuedMeanwhile(old(last), rounds[..FirstUndisturbed(rounds)]);
        var before := LastOf(old(last), issued);
        && timestamp == (if systemTime > before then systemTime else before + 1)
        && (forall i :: 0 <= i < |issued| ==> old(last) < issued[i] < timestamp)
        && AllInTurn(old(last), Readings(rounds[..FirstUndisturbed(rounds)]), issued)
    {
      hide AllInTurn, Readings, Next, FirstUndisturbed, IssuedMeanwhile, IssuedOn, Beyond;
      ghost var k := FirstUndisturbed(rounds);
      var r := 0;
      NothingMeanwhile(last, rounds);
      while true
        invariant 0 <= r <= k
        invariant last == LastOf(old(last), IssuedMeanwhile(old(last), rounds[..r]))
        decreases |rounds| - r
      {
        var seen := last;
        timestamp := if systemTime >= seen + 1 then systemTime else seen + 1;
        var spurious := false;
        if r < |rounds| {
          Others(rounds[r].others);
          spurious := rounds[r].spurious;
        }
        if last == seen && !spurious {
          assert r == k by { NothingHappened(seen, rounds, r); }
          last := timestamp;
          AllBelow(old(last), rounds[..k]);
          MeanwhileInTurn(old(last), rounds[..k]);
          return;
        }
        assert rounds[..r + 1] == rounds[..r] + [rounds[r]];
        MeanwhileMore(old(last), rounds[..r], rounds[r]);
        IssuedOnIs(seen, rounds[r].others);
        LastOfConcat(old(last), IssuedMeanwhile(old(last), rounds[..r]), IssuedOn(seen, rounds[r].others));
        r := r + 1;
      }
    }

    /** A call that no other thread interferes with. */
    method GetAlone(systemTime: nat) returns (timestamp: nat)
      modifies this
      ensures timestamp == Next(systemTime, old(last)) && last == timestamp
    {
      timestamp := GetTimestamp(systemTime, []);
    }
  }

  lemma NothingMeanwhile(last: nat, rounds: seq<Round>)
    ensures LastOf(last, IssuedMeanwhile(last, rounds[..0])) == last
  {
  }

  /** The counter is as it was exactly if no other swap came in between. */
  lemma NothingHappened(seen: nat, rounds: seq<Round>, r: nat)
    requires r <= FirstUndisturbed(rounds)
    requires r < |rounds| ==> NextAll(seen, rounds[r].others) == seen && !rounds[r].spurious
    ensures r == FirstUndisturbed(rounds)
  {
  }

  lemma LastOfConcat(last: nat, a: seq<nat>, b: seq<nat>)
    ensures LastOf(last, a + b) == LastOf(LastOf(last, a), b)
  {
  }

  lemma AllBelow(last: nat, rounds: seq<Round>)
    ensures var issued := IssuedMeanwhile(last, rounds);
      forall i :: 0 <= i < |issued| ==> last < issued[i] <= LastOf(last, issued)
  {
    MeanwhileIs(last, rounds);
    var issued := IssuedMeanwhile(last, rounds);
    forall i | 0 <= i < |issued| ensures last < issued[i] <= LastOf(last, issued) {
      BeyondBounds(last, issued, i);
    }
  }
}

/** The lock-free timestamp source: one shared counter, and any number of threads in the load/compare-and-swap loop. */
module Timestamps {
  import opened Arith
  import opened Clock

  type Thread = nat

  /** Where a thread is inside `get_monotonic_timestamp`.
      Ghosts of the proof ride along: `begun` is the number of timestamps issued when the call read its clock,
      `seen` the number issued when it last loaded the counter, `failures` its failed swaps that were not spurious. */
  datatype Pc =
    | Reading(clock: nat, begun: nat, failures: nat)
    | Loaded(clock: nat, begun: nat, failures: nat, last: nat, seen: nat)

  datatype Issue = Issue(thread: Thread, clock: nat, value: nat)

  /** `issued` lists the successful swaps in the order in which they happened. */
  datatype System = System(last: nat, calls: map<Thread, Pc>, issued: seq<Issue>, begins: nat, maxClock: nat)

  const Start := System(0, map[], [], 0, 0)

  datatype Step =
    | Begin(thread: Thread, clock: nat)          // enter the function with this clock reading
    | Load(thread: Thread)
    | Swap(thread: Thread, spurious: bool)       // a weak swap may fail for no reason

  /** One atomic step. A step that the thread cannot take changes nothing. */
  function Perform(s: System, step: Step): System {
    var t := step.thread;
    match step
    case Begin(_, clock) =>
      if t in s.calls then s else
        s.(calls := s.calls[t := Reading(clock, |s.issued|, 0)],
           begins := s.begins + 1,
           maxClock := Max(s.maxClock, clock))
    case Load(_) =>
      if t !in s.calls || s.calls[t].Loaded? then s else
        var pc := s.calls[t];
        s.(calls := s.calls[t := Loaded(pc.clock, pc.begun, pc.failures, s.last, |s.issued|)])
    case Swap(_, spurious) =>
      if t !in s.calls || s.calls[t].Reading? then s else
        var pc := s.calls[t];
        if s.last == pc.last && !spurious then
          var value := Next(pc.clock, pc.last);
          s.(last := value, calls := s.calls - {t}, issued := s.issued + [Issue(t, pc.clock, value)])
        else
          var counted := if s.last != pc.last then 1 else 0;
          s.(calls := s.calls[t := Reading(pc.clock, pc.begun, pc.failures + counted)])
  }

  function Run(steps: seq<Step>): System {
    if steps == [] then Start else Perform(Run(steps[..|steps| - 1]), steps[|steps| - 1])
  }

  /** Counter value after the first `n` issues. */
  function LastAt(issued: seq<Issue>, n: nat): nat
    requires n <= |issued|
  {
    if n == 0 then 0 else issued[n - 1].value
  }

  /** No issue from the `from`-th on was made by thread `t`. */
  ghost predicate OthersSince(issued: seq<Issue>, from: nat, t: Thread) {
    forall i :: from <= i < |issued| ==> issued[i].thread != t
  }

  ghost predicate CallOk(s: System, t: Thread)
    requires t in s.calls
  {
    var pc := s.calls[t];
    && pc.clock <= s.maxClock
    && pc.begun <= |s.issued| && OthersSince(s.issued, pc.begun, t)
    && match pc
       case Reading(_, begun, failures) => failures <= |s.issued| - begun
       case Loaded(_, begun, failures, last, seen) =>
         begun <= seen <= |s.issued| && failures <= seen - begun && last == LastAt(s.issued, seen)
  }

  ghost predicate Increasing(issued: seq<Issue>) {
    forall i, j :: 0 <= i < j < |issued| ==> issued[i].value < issued[j].value
  }

  /** A timestamp is its caller's clock reading or one more than the timestamp before, whichever is greater. */
  predicate ClockOrNext(issued: seq<Issue>, i: nat)
    requires i < |issued|
  {
    var before := if i == 0 then 0 else issued[i - 1].value;
    issued[i].value == if issued[i].clock > before then issued[i].clock else before + 1
  }

  ghost predicate AllClockOrNext(issued: seq<Issue>) {
    forall i :: 0 <= i < |issued| ==> ClockOrNext(issued, i)
  }

  ghost predicate Inv(s: System) {
    && s.last == LastAt(s.issued, |s.issued|)
    && Increasing(s.issued)
    && AllClockOrNext(s.issued)
    && s.last <= s.maxClock + |s.issued|
    && |s.issued| + |s.calls| == s.begins
    && (forall t :: t in s.calls ==> CallOk(s, t))
  }

  /** A step that only moves thread `t` to `pc`. */
  lemma MoveKeepsInv(s: System, t: Thread, pc: Pc, begins: nat, maxClock: nat)
    requires Inv(s) && maxClock >= s.maxClock
    requires begins == s.begins + (if t in s.calls then 0 else 1)
    requires CallOk(s.(calls := s.calls[t := pc], begins := begins, maxClock := maxClock), t)
    ensures Inv(s.(calls := s.calls[t := pc], begins := begins, maxClock := maxClock))
  {
    var s' := s.(calls := s.calls[t := pc], begins := begins, maxClock := maxClock);
    forall u | u in s'.calls ensures CallOk(s', u) {
      assert u != t ==> CallOk(s, u);
    }
    assert s'.calls.Keys == s.calls.Keys + {t};
    assert |s'.calls| == |s'.calls.Keys| && |s.calls| == |s.calls.Keys|;
  }

  function Issued(s: System, t: Thread): System
    requires t in s.calls
  {
    var value := Next(s.calls[t].clock, s.last);
    s.(last := value, calls := s.calls - {t}, issued := s.issued + [Issue(t, s.calls[t].clock, value)])
  }

  /** Another thread's call, seen after an issue by `t`. */
  lemma OtherStaysOk(s: System, t: Thread, u: Thread)
    requires t in s.calls && u in s.calls && u != t && CallOk(s, u)
    ensures CallOk(Issued(s, t), u)
  {
    hide Next;
    assert Issued(s, t).issued[..|s.issued|] == s.issued;
  }

  lemma IssueIncreases(issued: seq<Issue>, next: Issue)
    requires Increasing(issued) && LastAt(issued, |issued|) < next.value
    ensures Increasing(issued + [next])
  {
    forall i | 0 <= i < |issued| ensures issued[i].value < next.value {
      assert i < |issued| - 1 ==> issued[i].value < issued[|issued| - 1].value;
    }
  }

  lemma IssueIsNext(issued: seq<Issue>, next: Issue)
    requires AllClockOrNext(issued) && next.value == Next(next.clock, LastAt(issued, |issued|))
    ensures AllClockOrNext(issued + [next])
  {
    var all := issued + [next];
    forall i | 0 <= i < |all| ensures ClockOrNext(all, i) {
      assert i < |issued| ==> ClockOrNext(issued, i);
    }
  }

  lemma IssueKeepsInv(s: System, t: Thread)
    requires Inv(s) && t in s.calls
    ensures Inv(Issued(s, t))
  {
    hide CallOk, Increasing, AllClockOrNext;
    CallIsOk(s, t);
    var s' := Issued(s, t);
    assert s.calls[t].clock <= s.maxClock by { CallClock(s, t); }
    assert s'.calls.Keys == s.calls.Keys - {t};
    assert |s'.calls| == |s'.calls.Keys| && |s.calls| == |s.calls.Keys|;
    IssueIncreases(s.issued, Issue(t, s.calls[t].clock, s'.last));
    IssueIsNext(s.issued, Issue(t, s.calls[t].clock, s'.last));
    forall u | u in s'.calls ensures CallOk(s', u) {
      OtherStaysOk(s, t, u);
    }
  }

  lemma CallClock(s: System, t: Thread)
    requires t in s.calls && CallOk(s, t)
    ensures s.calls[t].clock <= s.maxClock
  {
  }

  lemma StepKeepsInv(s: System, step: Step)
    requires Inv(s)
    ensures Inv(Perform(s, step))
  {
    hide Inv;
    var t := step.thread;
    var s' := Perform(s, step);
    if s' != s {
      if t in s.calls {
        CallIsOk(s, t);
      }
      match step {
        case Begin(_, clock) =>
          MoveKeepsInv(s, t, s'.calls[t], s'.begins, s'.maxClock);
        case Load(_) =>
          CounterIsLastIssue(s);
          MoveKeepsInv(s, t, s'.calls[t], s.begins, s.maxClock);
        case Swap(_, spurious) =>
          if s.last == s.calls[t].last && !spurious {
            IssueKeepsInv(s, t);
          } else {
            CounterIsLastIssue(s);
            MoveKeepsInv(s, t, s'.calls[t], s.begins, s.maxClock);
          }
      }
    }
  }

  lemma CallIsOk(s: System, t: Thread)
    requires Inv(s) && t in s.calls
    ensures CallOk(s, t)
  {
  }

  lemma CounterIsLastIssue(s: System)
    requires Inv(s)
    ensures s.last == LastAt(s.issued, |s.issued|)
  {
  }

  lemma {:induction false} InvAlways(steps: seq<Step>)
    ensures Inv(Run(steps))
  {
    if steps != [] {
      InvAlways(steps[..|steps| - 1]);
      StepKeepsInv(Run(steps[..|steps| - 1]), steps[|steps| - 1]);
    }
  }

  /** For any number of threads and any interleaving: timestamps come out strictly increasing in the order of the
      swaps, each the caller's own clock or one more than the one before, whichever is greater; and the counter outruns
      the clocks by at most one per call. */
  lemma TimestampsAreOrdered(steps: seq<Step>)
    ensures var s := Run(steps);
      && (forall i, j :: 0 <= i < j < |s.issued| ==> s.issued[i].value < s.issued[j].value)
      && (forall i :: 0 <= i < |s.issued| ==>
            && ClockOrNext(s.issued, i)
            && s.issued[i].clock <= s.issued[i].value <= s.last)
      && s.last <= s.maxClock + s.begins
  {
    hide CallOk;
    InvAlways(steps);
    var s := Run(steps);
    hide Run;
    forall i | 0 <= i < |s.issued|
      ensures ClockOrNext(s.issued, i)
      ensures s.issued[i].clock <= s.issued[i].value <= s.last
    {
      assert ClockOrNext(s.issued, i);
      if i < |s.issued| - 1 {
        assert s.issued[i].value < s.issued[|s.issued| - 1].value;
      }
    }
  }

  /** A swap that is not spurious fails only because some other thread's swap went through since the load. */
  lemma FailureMeansOthersProgress(steps: seq<Step>, t: Thread)
    requires var s := Run(steps); t in s.calls && s.calls[t].Loaded? && s.last != s.calls[t].last
    ensures var s := Run(steps); var seen := s.calls[t].seen;
      seen < |s.issued| && OthersSince(s.issued, seen, t)
  {
    InvAlways(steps);
    assert CallOk(Run(steps), t);
  }

  /** Lock freedom, counted: while a call is under way, others have completed at least as often as it was turned
      back. */
  lemma RetriesArePaidByOthers(steps: seq<Step>, t: Thread)
    requires t in Run(steps).calls
    ensures var s := Run(steps); var pc := s.calls[t];
      pc.failures <= |s.issued| - pc.begun && OthersSince(s.issued, pc.begun, t)
  {
    InvAlways(steps);
    assert CallOk(Run(steps), t);
  }

  /** A call whose load is followed by its own, not spurious swap returns at once. */
  lemma UndisturbedCallReturns(steps: seq<Step>, t: Thread, clock: nat)
    requires t !in Run(steps).calls
    ensures var s := Run(steps);
      var s' := Run(steps + [Begin(t, clock), Load(t), Swap(t, false)]);
      && s'.issued == s.issued + [Issue(t, clock, s'.last)]
      && s'.last == Next(clock, s.last)
      && s'.calls == s.calls
  {
    hide Run;
    var a := steps + [Begin(t, clock)];
    var b := a + [Load(t)];
    var c := b + [Swap(t, false)];
    RunStep(steps, Begin(t, clock));
    RunStep(a, Load(t));
    RunStep(b, Swap(t, false));
    assert c == steps + [Begin(t, clock), Load(t), Swap(t, false)];
    assert Run(b).calls - {t} == Run(steps).calls;
  }

  lemma RunStep(steps: seq<Step>, step: Step)
    ensures Run(steps + [step]) == Perform(Run(steps), step)
  {
    assert (steps + [step])[..|steps|] == steps;
  }
}
