/** The health-check task working on the balancer object, in rounds that traffic and operators may interrupt wherever no
    lock is held. */
module HealthCheckers {
  import opened Breaker
  import opened LoadBalancers
  import B = Balancing
  import opened HealthProtocol

  /** What happens around one round: the answers of the nodes, the clock at each critical section that reads it, and the
      operations of others before each critical section but the first. */
  datatype World = World(check: Addr -> Outcome, now: nat -> Time, others: nat -> seq<B.Op>)

  /** Traffic and operators: what other tasks do. */
  predicate IsOther(op: B.Op) {
    op.Next? || op.Disable? || op.Enable? || op.Add? || op.Remove? || op.Register?
  }

  ghost predicate OnlyOthers(w: World) {
    forall k: nat, i :: 0 <= i < |w.others(k)| ==> IsOther(w.others(k)[i])
  }

  function AsStep(op: B.Op): Step
    requires IsOther(op)
  {
    match op
    case Next(now) => Traffic(now)
    case Disable(a) => Disable(a)
    case Enable(a) => Enable(a)
    case Add(a) => Add(a)
    case Remove(a) => Remove(a)
    case Register(a) => Register(a)
  }

  ghost predicate AllOthers(ops: seq<B.Op>) {
    forall i :: 0 <= i < |ops| ==> IsOther(ops[i])
  }

  function AsSteps(ops: seq<B.Op>): seq<Step>
    requires AllOthers(ops)
  {
    seq(|ops|, i requires 0 <= i < |ops| => AsStep(ops[i]))
  }

  // ---------- the trace of a round ----------

  ghost function RoundTrace(w: World, order: seq<Addr>): seq<Step>
    requires OnlyOthers(w)
  {
    [Tick(w.now(0))] + AsSteps(w.others(0)) + [Snapshot(order)] + CheckTrace(w, order)
  }

  ghost function CheckTrace(w: World, order: seq<Addr>): seq<Step>
    requires OnlyOthers(w)
  {
    if order == [] then [] else
      var i := |order| - 1;
      CheckTrace(w, order[..i]) + NodeTrace(w, i, order[i])
  }

  /** The sections of the `i`-th node: process its result, then apply it. */
  ghost function NodeTrace(w: World, i: nat, a: Addr): seq<Step>
    requires OnlyOthers(w)
  {
    AsSteps(w.others(2 * i + 1)) + [Process(w.check(a))] + AsSteps(w.others(2 * i + 2)) + [Apply(w.now(i + 1))]
  }

  lemma TraceStep(w: World, order: seq<Addr>, i: nat)
    requires OnlyOthers(w) && i < |order|
    ensures CheckTrace(w, order[..i + 1]) == CheckTrace(w, order[..i]) + NodeTrace(w, i, order[i])
  {
    hide NodeTrace;
    assert order[..i + 1][..i] == order[..i];
  }

  lemma EmptyTrace(w: World)
    requires OnlyOthers(w)
    ensures CheckTrace(w, []) == []
  {
  }

  // ---------- steps of the protocol ----------

  lemma OtherStep(p: System, op: B.Op)
    requires IsOther(op)
    ensures HealthProtocol.Take(p, AsStep(op)) == p.(lb := B.Apply(p.lb, op))
  {
  }

  /** Operations of others change only the balancer. */
  lemma {:induction false} OthersRun(p: System, ops: seq<B.Op>)
    requires AllOthers(ops)
    ensures Run(p, AsSteps(ops)) == p.(lb := B.After(p.lb, ops))
  {
    hide HealthProtocol.Take, B.Apply, AsStep;
    if ops != [] {
      var before, op := ops[..|ops| - 1], ops[|ops| - 1];
      OthersRun(p, before);
      assert AsSteps(ops) == AsSteps(before) + [AsStep(op)];
      RunStep(p, AsSteps(before), AsStep(op));
      OtherStep(Run(p, AsSteps(before)), op);
    }
  }

  /** The same, later in a run. */
  lemma OthersGoOn(p: System, steps: seq<Step>, ops: seq<B.Op>)
    requires AllOthers(ops)
    ensures Run(p, steps + AsSteps(ops)) == Run(p, steps).(lb := B.After(Run(p, steps).lb, ops))
  {
    hide Run, AsSteps, B.After;
    RunConcat(p, steps, AsSteps(ops));
    OthersRun(Run(p, steps), ops);
  }

  lemma TakeProcess(lb: B.Balancer, threshold: nat, todo: seq<Node>, i: nat, outcome: Outcome)
    requires i < |todo|
    ensures HealthProtocol.Take(System(lb, Rest(todo[i..]), threshold), Process(outcome))
         == System(lb, Deciding(Decide(lb, threshold, todo[i], outcome), todo[i + 1..]), threshold)
  {
    hide Decide;
    assert todo[i..][1..] == todo[i + 1..] && todo[i..] != [];
  }

  lemma TakeApply(lb: B.Balancer, threshold: nat, u: Decision, rest: seq<Node>, now: Time)
    ensures HealthProtocol.Take(System(lb, Deciding(u, rest), threshold), Apply(now))
         == System(ApplyUpdate(lb, u, now), Rest(rest), threshold)
  {
    hide ApplyUpdate;
  }

  /** Processing a result, with the operations of others before it. */
  lemma ProcessGoesOn(
      p: System, steps: seq<Step>, ops: seq<B.Op>, lb: B.Balancer, todo: seq<Node>, i: nat, outcome: Outcome)
    requires i < |todo| && AllOthers(ops) && Run(p, steps) == System(lb, Rest(todo[i..]), p.threshold)
    ensures var lb' := B.After(lb, ops);
      Run(p, steps + AsSteps(ops) + [Process(outcome)])
      == System(lb', Deciding(Decide(lb', p.threshold, todo[i], outcome), todo[i + 1..]), p.threshold)
  {
    hide *;
    OthersGoOn(p, steps, ops);
    RunStep(p, steps + AsSteps(ops), Process(outcome));
    TakeProcess(B.After(lb, ops), p.threshold, todo, i, outcome);
  }

  /** Applying a decision, with the operations of others before it. */
  lemma ApplyGoesOn(
      p: System, steps: seq<Step>, ops: seq<B.Op>, lb: B.Balancer, u: Decision, rest: seq<Node>, now: Time)
    requires AllOthers(ops) && Run(p, steps) == System(lb, Deciding(u, rest), p.threshold)
    ensures Run(p, steps + AsSteps(ops) + [Apply(now)])
         == System(ApplyUpdate(B.After(lb, ops), u, now), Rest(rest), p.threshold)
  {
    hide *;
    OthersGoOn(p, steps, ops);
    RunStep(p, steps + AsSteps(ops), Apply(now));
    TakeApply(B.After(lb, ops), p.threshold, u, rest, now);
  }

  /** One node: its result processed on one state of the balancer, and applied on a later one. */
  lemma CheckOne(p: System, w: World, steps: seq<Step>, lb: B.Balancer, todo: seq<Node>, i: nat, a: Addr)
    requires OnlyOthers(w) && i < |todo| && Run(p, steps) == System(lb, Rest(todo[i..]), p.threshold)
    ensures var lb1 := B.After(lb, w.others(2 * i + 1));
      var u := Decide(lb1, p.threshold, todo[i], w.check(a));
      Run(p, steps + NodeTrace(w, i, a))
      == System(ApplyUpdate(B.After(lb1, w.others(2 * i + 2)), u, w.now(i + 1)), Rest(todo[i + 1..]), p.threshold)
  {
    var ops1, ops2, s, t := w.others(2 * i + 1), w.others(2 * i + 2), Process(w.check(a)), Apply(w.now(i + 1));
    assert AllOthers(ops1) && AllOthers(ops2);
    assert NodeTrace(w, i, a) == AsSteps(ops1) + [s] + AsSteps(ops2) + [t];
    assert steps + NodeTrace(w, i, a) == steps + AsSteps(ops1) + [s] + AsSteps(ops2) + [t];
    hide *;
    var lb1 := B.After(lb, ops1);
    ProcessGoesOn(p, steps, ops1, lb, todo, i, w.check(a));
    ApplyGoesOn(
      p, steps + AsSteps(ops1) + [s], ops2, lb1, Decide(lb1, p.threshold, todo[i], w.check(a)), todo[i + 1..],
      w.now(i + 1));
  }

  lemma AreSnapshots(order: seq<Addr>, nodes: map<Addr, Node>, todo: seq<Node>)
    requires |todo| == |order| && (forall a :: a in order ==> a in nodes)
    requires forall i :: 0 <= i < |order| ==> todo[i] == nodes[order[i]]
    ensures todo == Snapshots(order, nodes)
  {
  }

  lemma SnapshotStep(lb: B.Balancer, threshold: nat, order: seq<Addr>, todo: seq<Node>)
    requires B.Rep(lb) && Enumerates(order, lb.nodes) && |todo| == |order|
    requires forall i :: 0 <= i < |order| ==> order[i] in lb.nodes && todo[i] == lb.nodes[order[i]]
    ensures HealthProtocol.Take(System(lb, Ticked, threshold), Snapshot(order)) == System(lb, Rest(todo), threshold)
    ensures forall i :: 0 <= i < |todo| ==> todo[i].addr == order[i]
  {
    AreSnapshots(order, lb.nodes, todo);
    forall i | 0 <= i < |order| ensures lb.nodes[order[i]].addr == order[i] {
      assert B.NodeOk(order[i], lb.nodes[order[i]]);
    }
  }

  /** The opening of a round: timeouts, then snapshots that carry their own addresses. */
  lemma RoundOpens(lb: B.Balancer, threshold: nat, w: World, order: seq<Addr>, todo: seq<Node>)
    requires OnlyOthers(w) && B.Rep(lb)
    requires var lb1 := B.After(B.CheckTimeouts(lb, w.now(0)), w.others(0));
      && Enumerates(order, lb1.nodes) && |todo| == |order|
      && forall i :: 0 <= i < |order| ==> order[i] in lb1.nodes && todo[i] == lb1.nodes[order[i]]
    ensures forall i :: 0 <= i < |todo| ==> todo[i].addr == order[i]
    ensures Run(System(lb, Idle, threshold), [Tick(w.now(0))] + AsSteps(w.others(0)) + [Snapshot(order)])
         == System(B.After(B.CheckTimeouts(lb, w.now(0)), w.others(0)), Rest(todo), threshold)
  {
    hide B.Rep, B.CheckTimeouts, B.After, Run, Enumerates, AsSteps, Rest;
    var p, ops := System(lb, Idle, threshold), w.others(0);
    assert AllOthers(ops);
    assert [] + [Tick(w.now(0))] == [Tick(w.now(0))];
    RunStep(p, [], Tick(w.now(0)));
    assert Run(p, []) == p by { RunNothing(p); }
    var ticked := B.CheckTimeouts(lb, w.now(0));
    OthersGoOn(p, [Tick(w.now(0))], ops);
    RunStep(p, [Tick(w.now(0))] + AsSteps(ops), Snapshot(order));
    B.TimeoutsKeepRep(lb, w.now(0));
    B.AfterKeepsRep(ticked, ops);
    SnapshotStep(B.After(ticked, ops), threshold, order, todo);
  }

  lemma RunNothing(p: System)
    ensures Run(p, []) == p
  {
  }

  class HealthChecker {
    const lb: LoadBalancer
    const threshold: nat

    constructor (lb: LoadBalancer, threshold: nat)
      ensures this.lb == lb && this.threshold == threshold
    {
      this.lb := lb;
      this.threshold := threshold;
    }

    method ProcessHealthResult(node: Node, outcome: Outcome) returns (u: Decision)
      ensures u == Decide(lb.View(), threshold, node, outcome)
    {
      match outcome {
        case Alive =>
          u := Decision(node.addr, Healthy, !node.enabled && node.reason == Some(HealthCheck), false);
        case Dead(error) =>
          var failures := lb.ConsecutiveFailures(node.addr);
          var shouldDisable := failures + 1 >= threshold && node.enabled && node.reason != Some(Manual);
          u := Decision(node.addr, Unhealthy(error), false, shouldDisable);
      }
    }

    method ApplyHealthUpdate(u: Decision, now: Time)
      requires lb.Owned()
      modifies lb`enabled, lb.nodes.Values
      ensures lb.View() == ApplyUpdate(old(lb.View()), u, now)
    {
      lb.UpdateHealthStatus(u.addr, u.status, now);
      if u.shouldEnable {
        var reenabled := lb.AutoEnableNode(u.addr);
      }
      if u.shouldDisable {
        var disabled := lb.AutoDisableNode(u.addr);
      }
    }

    /** The two sections of one node, and what others do before each. */
    method CheckNode(w: World, i: nat, node: Node, outcome: Outcome)
      requires lb.Owned()
      modifies lb`nodes, lb`enabled, lb`index, lb.nodes.Values
      ensures lb.Owned() && fresh(lb.nodes.Values - old(lb.nodes.Values))
      ensures var lb1 := B.After(old(lb.View()), w.others(2 * i + 1));
        var u := Decide(lb1, threshold, node, outcome);
        lb.View() == ApplyUpdate(B.After(lb1, w.others(2 * i + 2)), u, w.now(i + 1))
    {
      hide ApplyUpdate, Decide, B.After;
      lb.PerformAll(w.others(2 * i + 1));
      var u := ProcessHealthResult(node, outcome);
      lb.PerformAll(w.others(2 * i + 2));
      ApplyHealthUpdate(u, w.now(i + 1));
    }

    /** The first two critical sections of a round, and what others do between them. */
    method StartRound(w: World) returns (order: seq<Addr>, todo: seq<Node>)
      requires lb.Owned() && B.Rep(lb.View()) && OnlyOthers(w)
      modifies lb`nodes, lb`enabled, lb`index, lb.nodes.Values
      ensures lb.Owned() && fresh(lb.nodes.Values - old(lb.nodes.Values))
      ensures lb.View() == B.After(B.CheckTimeouts(old(lb.View()), w.now(0)), w.others(0))
      ensures Enumerates(order, lb.View().nodes) && |todo| == |order|
      ensures forall i :: 0 <= i < |todo| ==> todo[i].addr == order[i]
      ensures Run(System(old(lb.View()), Idle, threshold), [Tick(w.now(0))] + AsSteps(w.others(0)) + [Snapshot(order)])
           == System(lb.View(), Rest(todo), threshold)
    {
      hide B.Rep, B.CheckTimeouts, B.NoDup, B.After, Run, AsSteps;
      ghost var was := lb.View();
      var transitioned := lb.CheckCircuitTimeouts(w.now(0));
      lb.PerformAll(w.others(0));
      order, todo := lb.AllNodes();
      RoundOpens(was, threshold, w, order, todo);
    }

    /** `check_all_nodes`, with anything that other tasks do whenever no lock is held, is a run of the protocol. */
    method CheckAllNodes(w: World) returns (order: seq<Addr>)
      requires lb.Owned() && B.Rep(lb.View()) && OnlyOthers(w)
      modifies lb`nodes, lb`enabled, lb`index, lb.nodes.Values
      ensures lb.Owned() && fresh(lb.nodes.Values - old(lb.nodes.Values))
      ensures Enumerates(order, B.After(B.CheckTimeouts(old(lb.View()), w.now(0)), w.others(0)).nodes)
      ensures Run(System(old(lb.View()), Idle, threshold), RoundTrace(w, order)) == System(lb.View(), Idle, threshold)
    {
      hide B.Rep, B.After, B.CheckTimeouts, ApplyUpdate, Decide, Run, CheckTrace, NodeTrace, Enumerates, AsSteps;
      ghost var p := System(lb.View(), Idle, threshold);
      var todo: seq<Node>;
      order, todo := StartRound(w);
      ghost var opening := [Tick(w.now(0))] + AsSteps(w.others(0)) + [Snapshot(order)];
      EmptyTrace(w);
      assert order[..0] == [] && opening + [] == opening && todo[0..] == todo;
      for i := 0 to |todo|
        invariant lb.Owned() && fresh(lb.nodes.Values - old(lb.nodes.Values))
        invariant Run(p, opening + CheckTrace(w, order[..i])) == System(lb.View(), Rest(todo[i..]), threshold)
      {
        ghost var done := opening + CheckTrace(w, order[..i]);
        CheckOne(p, w, done, lb.View(), todo, i, order[i]);
        TraceStep(w, order, i);
        assert opening + CheckTrace(w, order[..i + 1]) == done + NodeTrace(w, i, order[i]);
        CheckNode(w, i, todo[i], w.check(todo[i].addr));
      }
      assert order[..|todo|] == order && todo[|todo|..] == [];
    }
  }
}
