/** The health checker, the operators and the traffic, as one interleaved state machine over the shared balancer.
    Each step is one critical section under the balancer's lock. */
module HealthProtocol {
  import opened Arith
  import opened Breaker
  import opened Balancing

  datatype Outcome = Alive | Dead(error: string)

  datatype Decision = Decision(addr: Addr, status: Health, shouldEnable: bool, shouldDisable: bool)

  /** `process_health_result`: a decision taken from a stale snapshot, and the current failure count. */
  function Decide(lb: Balancer, threshold: nat, node: Node, outcome: Outcome): Decision {
    match outcome
    case Alive => Decision(node.addr, Healthy, !node.enabled && node.reason == Some(HealthCheck), false)
    case Dead(error) =>
      Decision(node.addr, Unhealthy(error), false,
             ConsecutiveFailures(lb, node.addr) + 1 >= threshold && node.enabled && node.reason != Some(Manual))
  }

  /** `apply_health_update`. */
  function ApplyUpdate(lb: Balancer, u: Decision, now: Time): Balancer {
    var lb1 := UpdateHealth(lb, u.addr, u.status, now);
    var lb2 := if u.shouldEnable then AutoEnableNode(lb1, u.addr).0 else lb1;
    if u.shouldDisable then AutoDisableNode(lb2, u.addr).0 else lb2
  }

  /** Where the one health-checker task is in its round. */
  datatype Phase =
    | Idle
    | Ticked                                   // timeouts done, snapshot not yet taken
    | Working(todo: seq<Node>)                 // snapshots still to be processed
    | Deciding(update: Decision, todo: seq<Node>) // decided, not yet applied

  datatype System = System(lb: Balancer, phase: Phase, threshold: nat)

  datatype Step =
    | Tick(now: Time)
    | Snapshot(order: seq<Addr>)
    | Process(outcome: Outcome)
    | Apply(now: Time)
    | Traffic(now: Time)
    | Disable(addr: Addr)
    | Enable(addr: Addr)
    | Add(addr: Addr)
    | Remove(addr: Addr)
    | Register(addr: Addr)

  predicate IsChecker(s: Step) {
    s.Tick? || s.Snapshot? || s.Process? || s.Apply?
  }

  /** `order` lists the nodes once each. */
  ghost predicate Enumerates(order: seq<Addr>, nodes: map<Addr, Node>) {
    NoDup(order) && forall a :: a in order <==> a in nodes
  }

  function Snapshots(order: seq<Addr>, nodes: map<Addr, Node>): (todo: seq<Node>)
    requires forall a :: a in order ==> a in nodes
    ensures |todo| == |order|
  {
    seq(|order|, i requires 0 <= i < |order| => nodes[order[i]])
  }

  function Rest(todo: seq<Node>): Phase {
    if todo == [] then Idle else Working(todo)
  }

  /** One step. A step that is not possible in the current phase changes nothing. */
  ghost function Take(p: System, s: Step): System {
    match s
    case Tick(now) =>
      if p.phase.Idle? then p.(lb := CheckTimeouts(p.lb, now), phase := Ticked) else p
    case Snapshot(order) =>
      if p.phase.Ticked? && Enumerates(order, p.lb.nodes) then p.(phase := Rest(Snapshots(order, p.lb.nodes))) else p
    case Process(outcome) =>
      if p.phase.Working? && p.phase.todo != [] then
        p.(phase := Deciding(Decide(p.lb, p.threshold, p.phase.todo[0], outcome), p.phase.todo[1..]))
      else p
    case Apply(now) =>
      if p.phase.Deciding? then p.(lb := ApplyUpdate(p.lb, p.phase.update, now), phase := Rest(p.phase.todo)) else p
    case Traffic(now) => p.(lb := NextNode(p.lb, now).0)
    case Disable(a) => p.(lb := DisableNode(p.lb, a).0)
    case Enable(a) => p.(lb := EnableNode(p.lb, a).0)
    case Add(a) => p.(lb := AddNode(p.lb, a))
    case Remove(a) => p.(lb := RemoveNode(p.lb, a))
    case Register(a) => p.(lb := RegisterNode(p.lb, a).0)
  }

  ghost function Run(p: System, steps: seq<Step>): System {
    if steps == [] then p else Take(Run(p, steps[..|steps| - 1]), steps[|steps| - 1])
  }

  lemma RunStep(p: System, steps: seq<Step>, s: Step)
    ensures Run(p, steps + [s]) == Take(Run(p, steps), s)
  {
    assert (steps + [s])[..|steps|] == steps;
  }

  lemma {:induction false} RunConcat(p: System, s: seq<Step>, t: seq<Step>)
    ensures Run(p, s + t) == Run(Run(p, s), t)
  {
    if t == [] {
      assert s + t == s;
    } else {
      RunConcat(p, s, t[..|t| - 1]);
      assert (s + t)[..|s + t| - 1] == s + t[..|t| - 1];
    }
  }

  // ---------- consistency ----------

  lemma ApplyUpdateKeepsRep(lb: Balancer, u: Decision, now: Time)
    requires Rep(lb)
    ensures Rep(ApplyUpdate(lb, u, now))
    ensures NoDup(lb.enabled) ==> NoDup(ApplyUpdate(lb, u, now).enabled)
  {
    hide Rep, NoDup;
    var lb1 := UpdateHealth(lb, u.addr, u.status, now);
    OpKeepsRep(lb, Op.Update(u.addr, u.status, now));
    OpKeepsRep(lb1, AutoEnable(u.addr));
    var lb2 := if u.shouldEnable then AutoEnableNode(lb1, u.addr).0 else lb1;
    OpKeepsRep(lb2, AutoDisable(u.addr));
  }

  lemma StepKeepsRep(p: System, s: Step)
    requires Rep(p.lb)
    ensures Rep(Take(p, s).lb)
    ensures NoDup(p.lb.enabled) ==> NoDup(Take(p, s).lb.enabled)
  {
    hide Rep, NoDup;
    match s {
      case Tick(now) => OpKeepsRep(p.lb, Timeouts(now));
      case Snapshot(_) =>
      case Process(_) =>
      case Apply(now) =>
        if p.phase.Deciding? {
          ApplyUpdateKeepsRep(p.lb, p.phase.update, now);
        }
      case Traffic(now) => OpKeepsRep(p.lb, Next(now));
      case Disable(a) => OpKeepsRep(p.lb, Op.Disable(a));
      case Enable(a) => OpKeepsRep(p.lb, Op.Enable(a));
      case Add(a) => OpKeepsRep(p.lb, Op.Add(a));
      case Remove(a) => OpKeepsRep(p.lb, Op.Remove(a));
      case Register(a) => OpKeepsRep(p.lb, Op.Register(a));
    }
  }

  lemma {:induction false} RepAlways(p: System, steps: seq<Step>)
    requires Rep(p.lb)
    ensures Rep(Run(p, steps).lb)
    ensures NoDup(p.lb.enabled) ==> NoDup(Run(p, steps).lb.enabled)
  {
    hide Rep, NoDup;
    if steps != [] {
      RepAlways(p, steps[..|steps| - 1]);
      StepKeepsRep(Run(p, steps[..|steps| - 1]), steps[|steps| - 1]);
    }
  }

  // ---------- what a step can do to one node ----------

  /** Operator steps that clear the failures of `a` and any reason for disabling it. */
  predicate Resets(s: Step, a: Addr) {
    s == Step.Enable(a) || s == Step.Remove(a) || (s == Step.Register(a) && IsUrl(a))
  }

  /** Steps that an operator takes on the node `a`. */
  predicate Touches(s: Step, a: Addr) {
    match s
    case Disable(b) => a == b
    case Enable(b) => a == b
    case Add(b) => a == b
    case Remove(b) => a == b
    case Register(b) => a == b
    case _ => false
  }

  /** Same node as far as health and circuit go; traffic may have been counted on it. */
  predicate SameHealth(n: Node, n': Node) {
    n' == n.(requests := n'.requests, lastRequest := n'.lastRequest)
  }

  /** Traffic, and whatever is done to other nodes, leaves a node's health alone. */
  lemma OthersLeaveAlone(p: System, s: Step, a: Addr)
    requires a in p.lb.nodes && !Touches(s, a) && !s.Tick?
    requires s.Apply? && p.phase.Deciding? ==> p.phase.update.addr != a
    ensures a in Take(p, s).lb.nodes && SameHealth(p.lb.nodes[a], Take(p, s).lb.nodes[a])
  {
    hide Without, With, CheckTimeouts;
    if s.Traffic? {
      NextIsSelectable(p.lb, s.now);
    }
  }

  // ---------- manual disable is sticky ----------

  ghost predicate HeldDown(lb: Balancer, a: Addr) {
    Rep(lb) && a in lb.nodes && lb.nodes[a].reason == Some(Manual)
  }

  lemma HeldDownStep(p: System, s: Step, a: Addr)
    requires HeldDown(p.lb, a) && !Resets(s, a)
    ensures HeldDown(Take(p, s).lb, a)
    ensures s.Traffic? ==> NextNode(p.lb, s.now).1 != Some(a)
  {
    StepKeepsRep(p, s);
    if s.Traffic? {
      NextIsSelectable(p.lb, s.now);
    } else if s.Apply? && p.phase.Deciding? && p.phase.update.addr == a {
      AppliedToHeldDown(p.lb, p.phase.update, s.now);
    } else if !s.Tick? && !Touches(s, a) {
      OthersLeaveAlone(p, s, a);
    }
  }

  /** The re-checks inside auto-enable and auto-disable: no decision, however stale, overrides the operator. */
  lemma AppliedToHeldDown(lb: Balancer, u: Decision, now: Time)
    requires u.addr in lb.nodes && lb.nodes[u.addr].reason == Some(Manual)
    ensures var lb' := ApplyUpdate(lb, u, now);
      u.addr in lb'.nodes && lb'.nodes[u.addr].reason == Some(Manual) && lb'.enabled == lb.enabled
  {
  }

  /** In every interleaving, a manually disabled node stays disabled, out of the rotation and unselected until it is
      enabled, registered or removed by name. */
  lemma {:induction false} ManualDisableIsSticky(p: System, steps: seq<Step>, a: Addr)
    requires HeldDown(p.lb, a)
    requires forall i :: 0 <= i < |steps| ==> !Resets(steps[i], a)
    ensures var lb := Run(p, steps).lb; a in lb.nodes && !lb.nodes[a].enabled && a !in lb.enabled
    ensures HeldDown(Run(p, steps).lb, a)
    ensures forall i :: 0 <= i < |steps| && steps[i].Traffic? ==>
      NextNode(Run(p, steps[..i]).lb, steps[i].now).1 != Some(a)
  {
    hide Take, HeldDown, NextNode, Resets;
    if steps == [] {
      StaysOut(p.lb, a);
    } else {
      var before, s := steps[..|steps| - 1], steps[|steps| - 1];
      ManualDisableIsSticky(p, before, a);
      HeldDownStep(Run(p, before), s, a);
      StaysOut(Run(p, steps).lb, a);
      forall i | 0 <= i < |steps| && steps[i].Traffic?
        ensures NextNode(Run(p, steps[..i]).lb, steps[i].now).1 != Some(a)
      {
        if i < |before| {
          assert before[i] == steps[i] && before[..i] == steps[..i];
        } else {
          assert steps[..i] == before;
        }
      }
    }
  }

  lemma StaysOut(lb: Balancer, a: Addr)
    requires HeldDown(lb, a)
    ensures a in lb.nodes && !lb.nodes[a].enabled && a !in lb.enabled
  {
  }

  // ---------- no circuit stays open ----------

  lemma TimeoutCapped(c: Config, failures: nat)
    ensures CalculateTimeout(c, failures) <= c.maxTimeoutSecs * 1000
  {
  }

  /** The claim never fails from Open: every node whose timeout has passed becomes half-open, and max_timeout is
      always enough. */
  lemma NoStuckOpen(p: System, now: Time, a: Addr)
    requires Rep(p.lb) && p.phase.Idle? && a in p.lb.nodes && p.lb.nodes[a].circuit.Open?
    ensures var n, n' := p.lb.nodes[a], Take(p, Tick(now)).lb.nodes[a];
      && n.openedAt.Some?
      && (n'.circuit.HalfOpen? <==> Elapsed(now, n.openedAt.value) >= CalculateTimeout(p.lb.config, n.failures) as real)
      && (now - n.openedAt.value >= (p.lb.config.maxTimeoutSecs * 1000) as real ==> n'.circuit.HalfOpen?)
  {
    hide CalculateTimeout;
    TimeoutCapped(p.lb.config, p.lb.nodes[a].failures);
  }

  // ---------- failure counting ----------

  /** Length of the current run of failed checks of `a` since its last good check, enabling or creation. */
  ghost function Streak(p: System, steps: seq<Step>, a: Addr): nat {
    if steps == [] then ConsecutiveFailures(p.lb, a) else
      var before, s := steps[..|steps| - 1], steps[|steps| - 1];
      var phase := Run(p, before).phase;
      var streak := Streak(p, before, a);
      if s.Apply? && phase.Deciding? && phase.update.addr == a then
        if phase.update.status.Unhealthy? && a in Run(p, before).lb.nodes then streak + 1 else 0
      else if Resets(s, a) then 0
      else streak
  }

  lemma AppliedFailures(lb: Balancer, u: Decision, now: Time)
    requires u.addr in lb.nodes
    requires u.shouldEnable ==> u.status.Healthy?
    ensures var lb' := ApplyUpdate(lb, u, now);
      && u.addr in lb'.nodes
      && lb'.nodes[u.addr].failures == if u.status.Unhealthy? then lb.nodes[u.addr].failures + 1 else 0
  {
  }

  /** Decisions only ask to enable a node that answered. */
  ghost predicate SaneDecision(phase: Phase) {
    phase.Deciding? && phase.update.shouldEnable ==> phase.update.status.Healthy?
  }

  lemma StepKeepsSane(p: System, s: Step)
    requires SaneDecision(p.phase)
    ensures SaneDecision(Take(p, s).phase)
  {
  }

  lemma {:induction false} SaneAlways(p: System, steps: seq<Step>)
    requires SaneDecision(p.phase)
    ensures SaneDecision(Run(p, steps).phase)
  {
    if steps != [] {
      SaneAlways(p, steps[..|steps| - 1]);
      StepKeepsSane(Run(p, steps[..|steps| - 1]), steps[|steps| - 1]);
    }
  }

  lemma StepFailures(p: System, s: Step, a: Addr)
    requires SaneDecision(p.phase)
    ensures ConsecutiveFailures(Take(p, s).lb, a) ==
      if s.Apply? && p.phase.Deciding? && p.phase.update.addr == a then
        if p.phase.update.status.Unhealthy? && a in p.lb.nodes then ConsecutiveFailures(p.lb, a) + 1 else 0
      else if Resets(s, a) then 0
      else ConsecutiveFailures(p.lb, a)
  {
    hide Without, With;
    if s.Traffic? {
      NextIsSelectable(p.lb, s.now);
    } else if s.Apply? && p.phase.Deciding? && p.phase.update.addr == a && a in p.lb.nodes {
      AppliedFailures(p.lb, p.phase.update, s.now);
    } else if s.Tick? {
      TickKeepsFailures(p.lb, s.now, a);
    }
  }

  lemma TickKeepsFailures(lb: Balancer, now: Time, a: Addr)
    ensures ConsecutiveFailures(CheckTimeouts(lb, now), a) == ConsecutiveFailures(lb, a)
  {
    hide ShouldAttemptHalfOpen;
  }

  /** A node's failure count is the length of its current run of failed checks, in every interleaving. */
  lemma {:induction false} FailuresAreStreak(p: System, steps: seq<Step>, a: Addr)
    requires SaneDecision(p.phase)
    ensures ConsecutiveFailures(Run(p, steps).lb, a) == Streak(p, steps, a)
  {
    if steps != [] {
      hide Take, SaneDecision;
      var before := steps[..|steps| - 1];
      FailuresAreStreak(p, before, a);
      SaneAlways(p, before);
      StepFailures(Run(p, before), steps[|steps| - 1], a);
    }
  }

  /** A circuit opens only on a failed check, and a closed one only when the run of failures reaches the threshold. */
  lemma OpensOnlyAtThreshold(p: System, s: Step, a: Addr)
    requires Rep(p.lb) && SaneDecision(p.phase) && a in p.lb.nodes && !p.lb.nodes[a].circuit.Open?
    requires a in Take(p, s).lb.nodes
    ensures var n, n' := p.lb.nodes[a], Take(p, s).lb.nodes[a];
      n'.circuit.Open? <==>
        s.Apply? && p.phase.Deciding? && p.phase.update.addr == a && p.phase.update.status.Unhealthy?
        && (n.circuit.HalfOpen? || n'.failures >= p.lb.config.failureThreshold)
  {
    hide Without, With, CalculateTimeout, ApplyUpdate, CheckTimeouts;
    if s.Traffic? {
      NextIsSelectable(p.lb, s.now);
    } else if s.Tick? {
      TickOpensNothing(p.lb, s.now, a);
    } else if s.Apply? && p.phase.Deciding? {
      ApplyOpens(p.lb, p.phase.update, s.now, a);
    }
  }

  lemma TickOpensNothing(lb: Balancer, now: Time, a: Addr)
    requires a in lb.nodes && !lb.nodes[a].circuit.Open?
    ensures a in CheckTimeouts(lb, now).nodes && CheckTimeouts(lb, now).nodes[a] == lb.nodes[a]
  {
  }

  lemma ApplyOpens(lb: Balancer, u: Decision, now: Time, a: Addr)
    requires a in lb.nodes && !lb.nodes[a].circuit.Open? && (u.shouldEnable ==> u.status.Healthy?)
    ensures a in ApplyUpdate(lb, u, now).nodes
    ensures ApplyUpdate(lb, u, now).nodes[a].circuit.Open? <==>
            u.addr == a && u.status.Unhealthy? &&
            (lb.nodes[a].circuit.HalfOpen? || ApplyUpdate(lb, u, now).nodes[a].failures >= lb.config.failureThreshold)
  {
    hide Without, With;
  }

  // ---------- auto-disable ----------

  lemma {:induction false} BetweenProcessAndApply(p: System, steps: seq<Step>, a: Addr)
    requires p.phase.Deciding? && SaneDecision(p.phase)
    requires forall i :: 0 <= i < |steps| ==> !steps[i].Apply?
    ensures Run(p, steps).phase == p.phase
    ensures ConsecutiveFailures(Run(p, steps).lb, a) ==
      if exists i :: 0 <= i < |steps| && Resets(steps[i], a) then 0 else ConsecutiveFailures(p.lb, a)
  {
    if steps != [] {
      hide SaneDecision;
      var before, s := steps[..|steps| - 1], steps[|steps| - 1];
      BetweenProcessAndApply(p, before, a);
      StepFailures(Run(p, before), s, a);
      if i :| 0 <= i < |steps| && Resets(steps[i], a) {
        if i < |before| {
          assert Resets(before[i], a);
        }
      }
      if i :| 0 <= i < |before| && Resets(before[i], a) {
        assert Resets(steps[i], a);
      }
    }
  }

  /** A node is auto-disabled below the health threshold iff an operator reset it after the decision was taken
      and the threshold is more than one. */
  lemma AutoDisableThreshold(p: System, outcome: Outcome, steps: seq<Step>, now: Time)
    requires p.phase.Working? && p.phase.todo != []
    requires forall i :: 0 <= i < |steps| ==> !steps[i].Apply?
    ensures var a := p.phase.todo[0].addr;
      var q := Run(Take(p, Process(outcome)), steps);
      var q' := Take(q, Apply(now));
      q.phase.Deciding? && q.phase.update.addr == a && q.phase.update.shouldDisable && a in q.lb.nodes ==>
        && a in q'.lb.nodes
        && (q'.lb.nodes[a].failures < p.threshold
            <==> p.threshold > 1 && exists i :: 0 <= i < |steps| && Resets(steps[i], a))
  {
    var a := p.phase.todo[0].addr;
    var d := Take(p, Process(outcome));
    BetweenProcessAndApply(d, steps, a);
    var q := Run(d, steps);
    if q.phase.update.shouldDisable && a in q.lb.nodes {
      AppliedFailures(q.lb, q.phase.update, now);
    }
  }
}
