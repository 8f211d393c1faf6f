/** Bounded recovery: two healthy rounds bring a node back, whatever happened before and whatever interleaves. */
module Recovery {
  import opened Arith
  import opened Breaker
  import opened Balancing
  import opened HealthProtocol

  /** Steps that may interleave freely: traffic, and operators working on other nodes. */
  predicate Interference(s: Step, a: Addr) {
    !IsChecker(s) && !Touches(s, a)
  }

  /** The checker's own steps after its snapshot, with `a` answering, among interference. */
  ghost predicate Answering(p: System, s: Step, a: Addr) {
    && !s.Tick? && !s.Snapshot? && !Touches(s, a)
    && (s.Process? && p.phase.Working? && p.phase.todo != [] && p.phase.todo[0].addr == a ==> s.outcome.Alive?)
  }

  /** One round of the checker: timeouts, interference, snapshot, then everything up to the last apply. */
  datatype Round = Round(now: Time, before: seq<Step>, order: seq<Addr>, after: seq<Step>)

  ghost predicate HealthyRound(p: System, r: Round, a: Addr) {
    var ticked := Run(Take(p, Tick(r.now)), r.before);
    var started := Take(ticked, Snapshot(r.order));
    && p.phase.Idle?
    && (forall i :: 0 <= i < |r.before| ==> Interference(r.before[i], a))
    && Enumerates(r.order, ticked.lb.nodes)
    && (forall i :: 0 <= i < |r.after| ==> Answering(Run(started, r.after[..i]), r.after[i], a))
    && Run(started, r.after).phase.Idle?
  }

  ghost function AfterRound(p: System, r: Round): System {
    Run(Take(Run(Take(p, Tick(r.now)), r.before), Snapshot(r.order)), r.after)
  }

  /** Present and not held down by an operator. */
  predicate Recoverable(lb: Balancer, a: Addr) {
    a in lb.nodes && lb.nodes[a].reason != Some(Manual)
  }

  /** The breaker of `a` is as it was at the start of the round. */
  predicate Pending(lb: Balancer, a: Addr, circuit: Circuit, openedAt: Option<Time>) {
    Recoverable(lb, a) && lb.nodes[a].circuit == circuit && lb.nodes[a].openedAt == openedAt
  }

  /** The healthy answer has been applied: enabled, no failures, and closed unless it was still open. */
  predicate Done(lb: Balancer, a: Addr, circuit: Circuit, openedAt: Option<Time>) {
    && a in lb.nodes
    && lb.nodes[a].enabled && lb.nodes[a].failures == 0
    && lb.nodes[a].circuit == (if circuit.Open? then Open else Closed)
    && (circuit.Open? ==> lb.nodes[a].openedAt == openedAt)
  }

  ghost predicate Listed(todo: seq<Node>, a: Addr) {
    exists i :: 0 <= i < |todo| && todo[i].addr == a
  }

  ghost predicate DistinctAddrs(todo: seq<Node>) {
    forall i, j :: 0 <= i < j < |todo| ==> todo[i].addr != todo[j].addr
  }

  /** If the node is disabled by the health check now, the snapshot of it says so too. */
  ghost predicate SnapshotKnows(lb: Balancer, todo: seq<Node>, a: Addr)
    requires a in lb.nodes
  {
    forall i :: 0 <= i < |todo| && todo[i].addr == a && lb.nodes[a].reason == Some(HealthCheck) ==>
      todo[i].reason == Some(HealthCheck) && !todo[i].enabled
  }

  /** The round is under way, and `a` is listed, decided, or done. */
  ghost predicate InRound(p: System, a: Addr, circuit: Circuit, openedAt: Option<Time>) {
    && Rep(p.lb)
    && match p.phase
       case Idle => Done(p.lb, a, circuit, openedAt)
       case Ticked => false
       case Working(todo) => DistinctAddrs(todo) && Waiting(p.lb, todo, a, circuit, openedAt)
       case Deciding(u, todo) =>
         && DistinctAddrs(todo)
         && if u.addr == a then
              && !Listed(todo, a) && Pending(p.lb, a, circuit, openedAt)
              && u.status.Healthy? && !u.shouldDisable
              && (p.lb.nodes[a].reason == Some(HealthCheck) ==> u.shouldEnable)
            else Waiting(p.lb, todo, a, circuit, openedAt)
  }

  ghost predicate Waiting(lb: Balancer, todo: seq<Node>, a: Addr, circuit: Circuit, openedAt: Option<Time>) {
    if Listed(todo, a) then Pending(lb, a, circuit, openedAt) && SnapshotKnows(lb, todo, a)
    else Done(lb, a, circuit, openedAt)
  }

  lemma WaitingSurvives(lb: Balancer, lb': Balancer, todo: seq<Node>, a: Addr, circuit: Circuit, openedAt: Option<Time>)
    requires Waiting(lb, todo, a, circuit, openedAt)
    requires a in lb.nodes && a in lb'.nodes && SameHealth(lb.nodes[a], lb'.nodes[a])
    ensures Waiting(lb', todo, a, circuit, openedAt)
  {
  }

  lemma AppliedHealthy(lb: Balancer, u: Decision, now: Time, circuit: Circuit, openedAt: Option<Time>)
    requires Rep(lb) && Pending(lb, u.addr, circuit, openedAt) && u.status.Healthy? && !u.shouldDisable
    requires lb.nodes[u.addr].reason == Some(HealthCheck) ==> u.shouldEnable
    ensures Done(ApplyUpdate(lb, u, now), u.addr, circuit, openedAt)
  {
    var a, n := u.addr, lb.nodes[u.addr];
    assert NodeOk(a, n);
    var n1 := Checked(lb.config, n, u.status, now);
    var lb1 := UpdateHealth(lb, a, u.status, now);
    assert lb1.nodes[a] == n1 && n1.failures == 0 && n1.reason == n.reason && n1.enabled == n.enabled;
    assert n1.circuit == (if circuit.Open? then Open else Closed);
    ReasonCases(n.reason);
    if u.shouldEnable && n.reason == Some(HealthCheck) {
      assert AutoEnableNode(lb1, a).0.nodes[a] == Enabled(n1);
    }
  }

  lemma ReasonCases(reason: Option<DisableReason>)
    ensures reason == None || reason == Some(Manual) || reason == Some(HealthCheck)
  {
    if reason.Some? {
      match reason.value
      case Manual =>
      case HealthCheck =>
    }
  }

  lemma ProcessStep(p: System, outcome: Outcome, a: Addr, circuit: Circuit, openedAt: Option<Time>)
    requires InRound(p, a, circuit, openedAt) && p.phase.Working? && p.phase.todo != []
    requires p.phase.todo[0].addr == a ==> outcome.Alive?
    ensures InRound(Take(p, Process(outcome)), a, circuit, openedAt)
  {
    hide Rep, Done, Pending, NextNode, ConsecutiveFailures;
    TodoShrinks(p.lb, p.phase.todo, a);
  }

  /** Taking the first snapshot off the list. */
  lemma TodoShrinks(lb: Balancer, todo: seq<Node>, a: Addr)
    requires todo != [] && DistinctAddrs(todo)
    ensures DistinctAddrs(todo[1..])
    ensures Listed(todo, a) <==> todo[0].addr == a || Listed(todo[1..], a)
    ensures todo[0].addr == a ==> !Listed(todo[1..], a)
    ensures a in lb.nodes && SnapshotKnows(lb, todo, a) ==> SnapshotKnows(lb, todo[1..], a)
  {
    var rest := todo[1..];
    assert forall i :: 0 <= i < |rest| ==> rest[i] == todo[i + 1];
    if i :| 0 < i < |todo| && todo[i].addr == a {
      assert rest[i - 1].addr == a;
    }
  }

  lemma ApplyStep(p: System, now: Time, a: Addr, circuit: Circuit, openedAt: Option<Time>)
    requires InRound(p, a, circuit, openedAt) && p.phase.Deciding?
    ensures InRound(Take(p, Apply(now)), a, circuit, openedAt)
  {
    var u, todo := p.phase.update, p.phase.todo;
    ApplyUpdateKeepsRep(p.lb, u, now);
    if u.addr == a {
      AppliedHealthy(p.lb, u, now, circuit, openedAt);
    } else {
      OthersLeaveAlone(p, Apply(now), a);
      WaitingSurvives(p.lb, ApplyUpdate(p.lb, u, now), todo, a, circuit, openedAt);
    }
  }

  lemma InterferenceStep(p: System, s: Step, a: Addr, circuit: Circuit, openedAt: Option<Time>)
    requires InRound(p, a, circuit, openedAt) && Interference(s, a)
    ensures InRound(Take(p, s), a, circuit, openedAt)
  {
    hide *;
    assert Rep(p.lb) && a in p.lb.nodes && !Touches(s, a) && !IsChecker(s) by {
      InterferenceIs(p, s, a, circuit, openedAt);
    }
    StepKeepsRep(p, s);
    InterferenceKeepsPhase(p, s, a);
    NotApply(s);
    OthersLeaveAlone(p, s, a);
    RoundCarriesOn(p, Take(p, s), a, circuit, openedAt);
  }

  lemma InterferenceIs(p: System, s: Step, a: Addr, circuit: Circuit, openedAt: Option<Time>)
    requires InRound(p, a, circuit, openedAt) && Interference(s, a)
    ensures Rep(p.lb) && a in p.lb.nodes && !Touches(s, a) && !IsChecker(s)
  {
    hide Rep;
  }

  lemma NotApply(s: Step)
    requires !IsChecker(s)
    ensures !s.Tick? && !s.Apply?
  {
  }

  /** A round goes on over a balancer in which the node's health is the same. */
  lemma RoundCarriesOn(p: System, q: System, a: Addr, circuit: Circuit, openedAt: Option<Time>)
    requires InRound(p, a, circuit, openedAt) && q.phase == p.phase && Rep(q.lb)
    requires a in p.lb.nodes && a in q.lb.nodes && SameHealth(p.lb.nodes[a], q.lb.nodes[a])
    ensures InRound(q, a, circuit, openedAt)
  {
    hide Rep, DistinctAddrs, Listed, SnapshotKnows;
    match p.phase
    case Working(todo) => WaitingSurvives(p.lb, q.lb, todo, a, circuit, openedAt);
    case Deciding(u, todo) =>
      if u.addr != a {
        WaitingSurvives(p.lb, q.lb, todo, a, circuit, openedAt);
      }
    case _ =>
  }

  lemma InterferenceKeepsPhase(p: System, s: Step, a: Addr)
    requires Interference(s, a)
    ensures Take(p, s).phase == p.phase && Take(p, s).lb.config == p.lb.config
  {
    hide Without, With;
    if s.Traffic? {
      NextIsSelectable(p.lb, s.now);
    }
  }

  lemma RoundStep(p: System, s: Step, a: Addr, circuit: Circuit, openedAt: Option<Time>)
    requires InRound(p, a, circuit, openedAt) && Answering(p, s, a)
    ensures InRound(Take(p, s), a, circuit, openedAt)
  {
    hide InRound;
    if s.Process? {
      if p.phase.Working? && p.phase.todo != [] {
        ProcessStep(p, s.outcome, a, circuit, openedAt);
      }
    } else if s.Apply? {
      if p.phase.Deciding? {
        ApplyStep(p, s.now, a, circuit, openedAt);
      }
    } else {
      InterferenceStep(p, s, a, circuit, openedAt);
    }
  }

  lemma {:induction false} RoundSteps(p: System, steps: seq<Step>, a: Addr, circuit: Circuit, openedAt: Option<Time>)
    requires InRound(p, a, circuit, openedAt)
    requires forall i :: 0 <= i < |steps| ==> Answering(Run(p, steps[..i]), steps[i], a)
    ensures InRound(Run(p, steps), a, circuit, openedAt)
  {
    if steps != [] {
      hide InRound, Answering;
      var before, s := steps[..|steps| - 1], steps[|steps| - 1];
      forall i | 0 <= i < |before| ensures Answering(Run(p, before[..i]), before[i], a) {
        assert before[..i] == steps[..i];
        assert Answering(Run(p, steps[..i]), steps[i], a);
      }
      RoundSteps(p, before, a, circuit, openedAt);
      assert Answering(Run(p, steps[..|before|]), steps[|before|], a);
      RoundStep(Run(p, before), s, a, circuit, openedAt);
    }
  }

  lemma {:induction false} Undisturbed(p: System, steps: seq<Step>, a: Addr)
    requires Rep(p.lb) && a in p.lb.nodes
    requires forall i :: 0 <= i < |steps| ==> Interference(steps[i], a)
    ensures var q := Run(p, steps);
      Rep(q.lb) && q.phase == p.phase && a in q.lb.nodes && SameHealth(p.lb.nodes[a], q.lb.nodes[a])
    ensures Run(p, steps).lb.config == p.lb.config
  {
    if steps != [] {
      hide Rep;
      var before, s := steps[..|steps| - 1], steps[|steps| - 1];
      Undisturbed(p, before, a);
      StepKeepsRep(Run(p, before), s);
      OthersLeaveAlone(Run(p, before), s, a);
      ConfigIsFixed(Run(p, before), s);
    }
  }

  lemma ConfigIsFixed(p: System, s: Step)
    ensures Take(p, s).lb.config == p.lb.config
  {
    if s.Traffic? {
      NextIsSelectable(p.lb, s.now);
    }
  }

  lemma {:induction false} ConfigStays(p: System, steps: seq<Step>)
    ensures Run(p, steps).lb.config == p.lb.config
  {
    if steps != [] {
      ConfigStays(p, steps[..|steps| - 1]);
      ConfigIsFixed(Run(p, steps[..|steps| - 1]), steps[|steps| - 1]);
    }
  }

  lemma SnapshotStarts(p: System, order: seq<Addr>, a: Addr)
    requires Rep(p.lb) && p.phase.Ticked? && Enumerates(order, p.lb.nodes) && Recoverable(p.lb, a)
    ensures InRound(Take(p, Snapshot(order)), a, p.lb.nodes[a].circuit, p.lb.nodes[a].openedAt)
  {
    var todo := Snapshots(order, p.lb.nodes);
    forall i | 0 <= i < |todo| ensures todo[i].addr == order[i] {
      assert order[i] in order;
      assert NodeOk(order[i], p.lb.nodes[order[i]]);
    }
    assert a in order;
    var k :| 0 <= k < |order| && order[k] == a;
    assert todo[k].addr == a;
    assert Listed(todo, a);
    assert NodeOk(a, p.lb.nodes[a]);
  }

  /** One healthy round: the node ends it enabled and without failures, and closed unless its timeout had not passed. */
  lemma HealthyRoundResult(p: System, r: Round, a: Addr)
    requires Rep(p.lb) && Recoverable(p.lb, a) && HealthyRound(p, r, a)
    ensures var n, q := Breaker.Tick(p.lb.config, p.lb.nodes[a], r.now), AfterRound(p, r);
      Rep(q.lb) && q.phase.Idle? && q.lb.config == p.lb.config && Done(q.lb, a, n.circuit, n.openedAt)
  {
    hide Rep, InRound, Answering;
    var ticked := Take(p, HealthProtocol.Tick(r.now));
    StepKeepsRep(p, HealthProtocol.Tick(r.now));
    Undisturbed(ticked, r.before, a);
    var waiting := Run(ticked, r.before);
    SnapshotStarts(waiting, r.order, a);
    var started := Take(waiting, Snapshot(r.order));
    RoundSteps(started, r.after, a, waiting.lb.nodes[a].circuit, waiting.lb.nodes[a].openedAt);
    InRoundIdle(Run(started, r.after), a, waiting.lb.nodes[a].circuit, waiting.lb.nodes[a].openedAt);
    ConfigStays(started, r.after);
  }

  lemma InRoundIdle(p: System, a: Addr, circuit: Circuit, openedAt: Option<Time>)
    requires InRound(p, a, circuit, openedAt) && p.phase.Idle?
    ensures Rep(p.lb) && Done(p.lb, a, circuit, openedAt)
  {
  }

  /** The breaker of `n`, if open, may be tried again at `now`. */
  predicate TimedOut(c: Config, n: Node, now: Time) {
    n.circuit.Open? ==> ShouldAttemptHalfOpen(c, n, now)
  }

  /** A healthy round of a node that is present and not manually disabled closes its circuit exactly when the circuit
      was not open, or its timeout had passed, when the round started; otherwise it stays open since the same time. */
  lemma HealthyRoundClosesIff(p: System, r: Round, a: Addr)
    requires Rep(p.lb) && Recoverable(p.lb, a) && HealthyRound(p, r, a)
    ensures var n, lb := p.lb.nodes[a], AfterRound(p, r).lb;
      && a in lb.nodes && a in lb.enabled && lb.nodes[a].enabled && lb.nodes[a].failures == 0
      && (lb.nodes[a].circuit.Closed? <==> TimedOut(p.lb.config, n, r.now))
      && (Selectable(lb.nodes, a) <==> TimedOut(p.lb.config, n, r.now))
      && (!TimedOut(p.lb.config, n, r.now) ==> lb.nodes[a].circuit.Open? && lb.nodes[a].openedAt == n.openedAt)
  {
    hide Rep, HealthyRound, ShouldAttemptHalfOpen, AfterRound;
    HealthyRoundResult(p, r, a);
    EnabledIsRecoverable(AfterRound(p, r).lb, a);
    OpenAfterTick(p.lb, a, r.now);
  }

  lemma OpenAfterTick(lb: Balancer, a: Addr, now: Time)
    requires Rep(lb) && a in lb.nodes
    ensures var n := Breaker.Tick(lb.config, lb.nodes[a], now);
      && (n.circuit.Open? <==> !TimedOut(lb.config, lb.nodes[a], now))
      && (n.circuit.Open? ==> n.openedAt == lb.nodes[a].openedAt)
  {
    hide ShouldAttemptHalfOpen;
    assert NodeOk(a, lb.nodes[a]);
  }

  /** Bounded recovery. `a` is present and not manually disabled; it answers in two rounds, with any interference inside
      and between them, after any history. It ends them enabled, in the rotation and without failures; and closed
      exactly when its circuit was not open after the timeout check of the first round, or the timeout for no failures
      since its opening had passed when the second started. */
  lemma BoundedRecovery(p: System, first: Round, between: seq<Step>, second: Round, a: Addr)
    requires Rep(p.lb) && Recoverable(p.lb, a)
    requires HealthyRound(p, first, a)
    requires forall i :: 0 <= i < |between| ==> Interference(between[i], a)
    requires HealthyRound(Run(AfterRound(p, first), between), second, a)
    ensures var n := p.lb.nodes[a];
      var lb := AfterRound(Run(AfterRound(p, first), between), second).lb;
      var recovered := TimedOut(p.lb.config, n, first.now) || TimedOut(p.lb.config, n.(failures := 0), second.now);
      && a in lb.nodes && a in lb.enabled && lb.nodes[a].enabled && lb.nodes[a].failures == 0
      && (lb.nodes[a].circuit.Closed? <==> recovered)
      && (Selectable(lb.nodes, a) <==> recovered)
  {
    hide Rep, HealthyRound, Interference, AfterRound, ShouldAttemptHalfOpen;
    HealthyRoundResult(p, first, a);
    HealthyRoundClosesIff(p, first, a);
    var q := AfterRound(p, first);
    EnabledIsRecoverable(q.lb, a);
    Undisturbed(q, between, a);
    var q' := Run(q, between);
    HealthyRoundClosesIff(q', second, a);
    ConfigStays(q, between);
    SameTimeout(p.lb.config, p.lb.nodes[a], q'.lb.nodes[a], second.now);
  }

  /** Only the circuit, its opening and the failures matter. */
  lemma SameTimeout(c: Config, n: Node, n': Node, now: Time)
    requires n.circuit.Open? && n'.circuit.Open? ==> n'.openedAt == n.openedAt
    requires n'.failures == 0
    ensures n.circuit.Open? && n'.circuit.Open? ==> (TimedOut(c, n', now) <==> TimedOut(c, n.(failures := 0), now))
    ensures !n'.circuit.Open? ==> TimedOut(c, n', now)
  {
  }

  lemma EnabledIsRecoverable(lb: Balancer, a: Addr)
    requires Rep(lb) && a in lb.nodes && lb.nodes[a].enabled
    ensures Recoverable(lb, a) && a in lb.enabled
  {
    assert NodeOk(a, lb.nodes[a]);
  }

  // ---------- a node that is open without failures ----------

  /** A balancer with the one node `n`. */
  function Single(n: Node, enabled: seq<Addr>, c: Config): Balancer {
    Balancer(map[n.addr := n], enabled, 0, c)
  }

  function OneRound(a: Addr, tick: Time, outcome: Outcome, now: Time): seq<Step> {
    [Tick(tick), Snapshot([a]), Process(outcome), Apply(now)]
  }

  lemma FourSteps(p: System, s: Step, t: Step, u: Step, v: Step)
    ensures Run(p, [s, t, u, v]) == Take(Take(Take(Take(p, s), t), u), v)
  {
    hide Take;
    RunStep(p, [], s);
    RunStep(p, [s], t);
    RunStep(p, [s, t], u);
    RunStep(p, [s, t, u], v);
    assert [] + [s] == [s] && [s] + [t] == [s, t] && [s, t] + [u] == [s, t, u] && [s, t, u] + [v] == [s, t, u, v];
  }

  lemma SingleRound(n: Node, enabled: seq<Addr>, c: Config, threshold: nat, tick: Time, outcome: Outcome, now: Time)
    ensures n.addr == Breaker.Tick(c, n, tick).addr
    ensures var lb := Single(Breaker.Tick(c, n, tick), enabled, c);
            var q := Run(System(Single(n, enabled, c), Idle, threshold), OneRound(n.addr, tick, outcome, now));
            q == System(ApplyUpdate(lb, Decide(lb, threshold, lb.nodes[n.addr], outcome), now), Idle, threshold)
  {
    hide Decide, ApplyUpdate, Run, ShouldAttemptHalfOpen;
    var p := System(Single(n, enabled, c), Idle, threshold);
    FourSteps(p, Tick(tick), Snapshot([n.addr]), Process(outcome), Apply(now));
    var lb := Single(Breaker.Tick(c, n, tick), enabled, c);
    assert CheckTimeouts(p.lb, tick).nodes == lb.nodes;
    assert Take(p, Tick(tick)) == System(lb, Ticked, threshold);
    assert Enumerates([n.addr], lb.nodes);
    assert Snapshots([n.addr], lb.nodes) == [lb.nodes[n.addr]];
  }

  /** Two rounds with the default timeouts and a circuit threshold of one: the node fails, opens its circuit, and
      answers while the circuit is open. It is then open with no failures, and 15 seconds are enough for a half-open
      attempt where the base timeout is 30. */
  lemma HealthyAnswerLeavesOpen(threshold: nat)
    requires threshold > 1
    ensures var c := Config(1, 30, 300, 2.0);
            var p := System(New(["a"], c), Idle, threshold);
            var q := Run(Run(p, OneRound("a", 0.0, Dead("refused"), 0.0)), OneRound("a", 1000.0, Alive, 1000.0));
            && q.phase.Idle? && "a" in q.lb.nodes
            && q.lb.nodes["a"].circuit.Open? && q.lb.nodes["a"].failures == 0
            && q.lb.nodes["a"].openedAt == Some(0.0)
            && CalculateTimeout(c, 0) == 15000 < c.baseTimeoutSecs * 1000
            && ShouldAttemptHalfOpen(c, q.lb.nodes["a"], 15000.0)
            && !ShouldAttemptHalfOpen(c, q.lb.nodes["a"].(failures := 1), 15000.0)
  {
    hide Run, Take;
    var c := Config(1, 30, 300, 2.0);
    DefaultTimeouts(c);
    hide CalculateTimeout;
    var n := NewNode("a");
    assert New(["a"], c) == Single(n, ["a"], c) by {
      assert New(["a"], c).nodes == Single(n, ["a"], c).nodes;
    }
    SingleRound(n, ["a"], c, threshold, 0.0, Dead("refused"), 0.0);
    var checked := n.(lastCheck := Some(0.0), lastStatus := Some(Unhealthy("refused")), failures := 1);
    var failed := Transition(checked, Open, 0.0);
    var lb := Single(n, ["a"], c);
    assert ApplyUpdate(lb, Decide(lb, threshold, n, Dead("refused")), 0.0) == Single(failed, ["a"], c) by {
      assert ApplyUpdate(lb, Decide(lb, threshold, n, Dead("refused")), 0.0).nodes == Single(failed, ["a"], c).nodes;
    }
    SingleRound(failed, ["a"], c, threshold, 1000.0, Alive, 1000.0);
  }

  lemma DefaultTimeouts(c: Config)
    requires c.baseTimeoutSecs == 30 && c.maxTimeoutSecs == 300 && c.multiplier == 2.0
    ensures CalculateTimeout(c, 0) == 15000 && CalculateTimeout(c, 1) == 30000
  {
    assert PowReal(2.0, 0) == 1.0;
    assert 30000.0 / 2.0 == 15000.0;
  }
}
