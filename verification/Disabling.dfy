/** Failing nodes leave the rotation: the mirror of recovery. */
module Disabling {
  import opened Breaker
  import opened Balancing
  import opened HealthProtocol
  import opened Recovery

  /** The health-check task's own steps after its snapshot, with `a` failing its check, among interference. */
  ghost predicate Failing(p: System, s: Step, a: Addr) {
    && !s.Tick? && !s.Snapshot? && !Touches(s, a)
    && (s.Process? && p.phase.Working? && p.phase.todo != [] && p.phase.todo[0].addr == a ==> s.outcome.Dead?)
  }

  ghost predicate FailingRound(p: System, r: Round, a: Addr) {
    var ticked := Run(Take(p, Tick(r.now)), r.before);
    var started := Take(ticked, Snapshot(r.order));
    && p.phase.Idle?
    && (forall i :: 0 <= i < |r.before| ==> Interference(r.before[i], a))
    && Enumerates(r.order, ticked.lb.nodes)
    && (forall i :: 0 <= i < |r.after| ==> Failing(Run(started, r.after[..i]), r.after[i], a))
    && Run(started, r.after).phase.Idle?
  }

  /** Whether a node is in the rotation, why not, and how often it has failed in a row. */
  datatype Standing = Standing(enabled: bool, reason: Option<DisableReason>, failures: nat)

  function Of(n: Node): Standing {
    Standing(n.enabled, n.reason, n.failures)
  }

  /** One more failure; at the threshold an enabled node is disabled for it. */
  function OneFailure(n: Standing, threshold: nat): Standing {
    if n.enabled && n.failures + 1 >= threshold then Standing(false, Some(HealthCheck), n.failures + 1)
    else n.(failures := n.failures + 1)
  }

  predicate Stands(lb: Balancer, a: Addr, n: Standing) {
    a in lb.nodes && Of(lb.nodes[a]) == n
  }

  ghost predicate SnapshotSays(todo: seq<Node>, a: Addr, n: Standing) {
    forall i :: 0 <= i < |todo| && todo[i].addr == a ==> todo[i].enabled == n.enabled && todo[i].reason == n.reason
  }

  /** Before its failure is applied the node stands as at the start of the round, and after it as it should. */
  ghost predicate FailWaiting(lb: Balancer, todo: seq<Node>, a: Addr, n: Standing, threshold: nat) {
    if Listed(todo, a) then Stands(lb, a, n) && SnapshotSays(todo, a, n) else Stands(lb, a, OneFailure(n, threshold))
  }

  ghost predicate InFailingRound(p: System, a: Addr, n: Standing) {
    && Rep(p.lb)
    && match p.phase
       case Idle => Stands(p.lb, a, OneFailure(n, p.threshold))
       case Ticked => false
       case Working(todo) => DistinctAddrs(todo) && FailWaiting(p.lb, todo, a, n, p.threshold)
       case Deciding(u, todo) =>
         && DistinctAddrs(todo)
         && if u.addr == a then
              && !Listed(todo, a) && Stands(p.lb, a, n)
              && u.status.Unhealthy? && !u.shouldEnable
              && (u.shouldDisable <==> n.enabled && n.failures + 1 >= p.threshold)
            else FailWaiting(p.lb, todo, a, n, p.threshold)
  }

  predicate Sound(n: Standing) {
    n.enabled <==> n.reason.None?
  }

  // ---------- one step ----------

  lemma TodoShrinksToo(todo: seq<Node>, a: Addr, n: Standing)
    requires todo != [] && SnapshotSays(todo, a, n)
    ensures SnapshotSays(todo[1..], a, n)
  {
    assert forall i :: 0 <= i < |todo| - 1 ==> todo[1..][i] == todo[i + 1];
  }

  lemma TodoShrinksListed(todo: seq<Node>, a: Addr)
    requires todo != [] && DistinctAddrs(todo)
    ensures DistinctAddrs(todo[1..])
    ensures Listed(todo, a) <==> todo[0].addr == a || Listed(todo[1..], a)
    ensures todo[0].addr == a ==> !Listed(todo[1..], a)
  {
    var rest := todo[1..];
    assert forall i :: 0 <= i < |rest| ==> rest[i] == todo[i + 1];
    if i :| 0 < i < |todo| && todo[i].addr == a {
      assert rest[i - 1].addr == a;
    }
  }

  lemma FailingProcess(p: System, outcome: Outcome, a: Addr, n: Standing)
    requires Sound(n) && InFailingRound(p, a, n) && p.phase.Working? && p.phase.todo != []
    requires p.phase.todo[0].addr == a ==> outcome.Dead?
    ensures InFailingRound(Take(p, Process(outcome)), a, n)
  {
    hide Rep, DistinctAddrs, Listed, SnapshotSays, OneFailure;
    var todo := p.phase.todo;
    TodoShrinksListed(todo, a);
    if Listed(todo, a) {
      TodoShrinksToo(todo, a, n);
      if todo[0].addr == a {
        assert todo[0].enabled == n.enabled && todo[0].reason == n.reason by { FirstSays(todo, a, n); }
      }
    }
  }

  lemma FirstSays(todo: seq<Node>, a: Addr, n: Standing)
    requires todo != [] && todo[0].addr == a && SnapshotSays(todo, a, n)
    ensures todo[0].enabled == n.enabled && todo[0].reason == n.reason
  {
  }

  /** What applying a failure does to the node. */
  lemma FailureApplied(lb: Balancer, u: Decision, now: Time, n: Standing, threshold: nat)
    requires Rep(lb) && Sound(n) && Stands(lb, u.addr, n) && u.status.Unhealthy? && !u.shouldEnable
    requires u.shouldDisable <==> n.enabled && n.failures + 1 >= threshold
    ensures Stands(ApplyUpdate(lb, u, now), u.addr, OneFailure(n, threshold))
  {
    hide Without, With, Rep;
    var lb1 := UpdateHealth(lb, u.addr, u.status, now);
    assert Of(lb1.nodes[u.addr]) == n.(failures := n.failures + 1);
    if u.shouldDisable {
      assert lb1.nodes[u.addr].reason == None;
    }
  }

  lemma FailingApply(p: System, now: Time, a: Addr, n: Standing)
    requires Sound(n) && InFailingRound(p, a, n) && p.phase.Deciding?
    ensures InFailingRound(Take(p, Apply(now)), a, n)
  {
    hide Rep, ApplyUpdate, DistinctAddrs, Listed, SnapshotSays, OneFailure;
    var u, todo := p.phase.update, p.phase.todo;
    ApplyUpdateKeepsRep(p.lb, u, now);
    if u.addr == a {
      FailureApplied(p.lb, u, now, n, p.threshold);
    } else {
      assert a in p.lb.nodes;
      OthersLeaveAlone(p, Apply(now), a);
    }
    assert todo == [] ==> !Listed(todo, a) by { NoneListed(a); }
  }

  lemma NoneListed(a: Addr)
    ensures !Listed([], a)
  {
  }

  lemma FailingInterference(p: System, s: Step, a: Addr, n: Standing)
    requires InFailingRound(p, a, n) && !s.Tick? && !s.Apply? && !IsChecker(s) && !Touches(s, a)
    ensures InFailingRound(Take(p, s), a, n)
  {
    assert Rep(p.lb) && a in p.lb.nodes;
    hide *;
    StepKeepsRep(p, s);
    InterferenceKeepsPhase(p, s, a);
    assert Interference(s, a) by { IsInterference(s, a); }
    OthersLeaveAlone(p, s, a);
    FailingGoesOn(p, Take(p, s), a, n);
    assert Take(p, s).threshold == p.threshold by { ThresholdIsFixed(p, s); }
  }

  lemma IsInterference(s: Step, a: Addr)
    requires !IsChecker(s) && !Touches(s, a)
    ensures Interference(s, a)
  {
  }

  lemma ThresholdIsFixed(p: System, s: Step)
    ensures Take(p, s).threshold == p.threshold
  {
  }

  lemma FailingGoesOn(p: System, q: System, a: Addr, n: Standing)
    requires InFailingRound(p, a, n) && q.phase == p.phase && Rep(q.lb) && q.threshold == p.threshold
    requires a in p.lb.nodes && a in q.lb.nodes && SameHealth(p.lb.nodes[a], q.lb.nodes[a])
    ensures InFailingRound(q, a, n)
  {
    hide Rep, DistinctAddrs, Listed, SnapshotSays, OneFailure;
  }

  lemma FailingStep(p: System, s: Step, a: Addr, n: Standing)
    requires Sound(n) && InFailingRound(p, a, n) && Failing(p, s, a)
    ensures InFailingRound(Take(p, s), a, n)
  {
    hide InFailingRound;
    if s.Process? {
      if p.phase.Working? && p.phase.todo != [] {
        FailingProcess(p, s.outcome, a, n);
      }
    } else if s.Apply? {
      if p.phase.Deciding? {
        FailingApply(p, s.now, a, n);
      }
    } else {
      FailingInterference(p, s, a, n);
    }
  }

  lemma {:induction false} FailingSteps(p: System, steps: seq<Step>, a: Addr, n: Standing)
    requires Sound(n) && InFailingRound(p, a, n)
    requires forall i :: 0 <= i < |steps| ==> Failing(Run(p, steps[..i]), steps[i], a)
    ensures InFailingRound(Run(p, steps), a, n)
  {
    if steps != [] {
      hide InFailingRound, Failing;
      var before, s := steps[..|steps| - 1], steps[|steps| - 1];
      forall i | 0 <= i < |before| ensures Failing(Run(p, before[..i]), before[i], a) {
        assert before[..i] == steps[..i];
        assert Failing(Run(p, steps[..i]), steps[i], a);
      }
      FailingSteps(p, before, a, n);
      assert Failing(Run(p, steps[..|before|]), steps[|before|], a);
      FailingStep(Run(p, before), s, a, n);
    }
  }

  lemma {:induction false} ThresholdStays(p: System, steps: seq<Step>)
    ensures Run(p, steps).threshold == p.threshold
  {
    if steps != [] {
      ThresholdStays(p, steps[..|steps| - 1]);
    }
  }

  lemma FailingSnapshot(p: System, order: seq<Addr>, a: Addr)
    requires Rep(p.lb) && p.phase.Ticked? && Enumerates(order, p.lb.nodes) && a in p.lb.nodes
    ensures InFailingRound(Take(p, Snapshot(order)), a, Of(p.lb.nodes[a])) && Sound(Of(p.lb.nodes[a]))
  {
    var todo := Snapshots(order, p.lb.nodes);
    forall i | 0 <= i < |todo| ensures todo[i].addr == order[i] {
      assert order[i] in order;
      assert NodeOk(order[i], p.lb.nodes[order[i]]);
    }
    assert a in order;
    var k :| 0 <= k < |order| && order[k] == a;
    assert todo[k].addr == a;
    assert Listed(todo, a);
    assert NodeOk(a, p.lb.nodes[a]);
  }

  // ---------- one round ----------

  /** A round in which `a` fails its check, whatever its circuit and whatever others do to other nodes: it counts one
      more failure, and exactly if it was enabled and the count reaches the threshold it is now disabled for health,
      out of the rotation, and will not be selected. */
  lemma FailingRoundResult(p: System, r: Round, a: Addr)
    requires Rep(p.lb) && a in p.lb.nodes && FailingRound(p, r, a)
    ensures var n, q := p.lb.nodes[a], AfterRound(p, r);
      && Rep(q.lb) && q.phase.Idle? && q.threshold == p.threshold && a in q.lb.nodes
      && q.lb.nodes[a].failures == n.failures + 1
      && (if n.enabled && n.failures + 1 >= p.threshold
          then !q.lb.nodes[a].enabled && q.lb.nodes[a].reason == Some(HealthCheck)
          else q.lb.nodes[a].enabled == n.enabled && q.lb.nodes[a].reason == n.reason)
      && (a in q.lb.enabled <==> q.lb.nodes[a].enabled)
      && (!q.lb.nodes[a].enabled ==> forall now :: NextNode(q.lb, now).1 != Some(a))
  {
    hide Rep, InFailingRound, Failing, NextNode;
    var ticked := Take(p, HealthProtocol.Tick(r.now));
    StepKeepsRep(p, HealthProtocol.Tick(r.now));
    assert Of(ticked.lb.nodes[a]) == Of(p.lb.nodes[a]) by { TickKeepsStanding(p.lb, r.now, a); }
    Recovery.Undisturbed(ticked, r.before, a);
    var waiting := Run(ticked, r.before);
    FailingSnapshot(waiting, r.order, a);
    var started := Take(waiting, Snapshot(r.order));
    var n := Of(waiting.lb.nodes[a]);
    assert n == Of(p.lb.nodes[a]);
    FailingSteps(started, r.after, a, n);
    ThresholdStays(ticked, r.before);
    ThresholdStays(started, r.after);
    RoundEnds(Run(started, r.after), a, n);
  }

  lemma TickKeepsStanding(lb: Balancer, now: Time, a: Addr)
    requires a in lb.nodes
    ensures a in CheckTimeouts(lb, now).nodes && Of(CheckTimeouts(lb, now).nodes[a]) == Of(lb.nodes[a])
  {
    hide ShouldAttemptHalfOpen;
  }

  lemma RoundEnds(p: System, a: Addr, n: Standing)
    requires InFailingRound(p, a, n) && p.phase.Idle?
    ensures Rep(p.lb) && Stands(p.lb, a, OneFailure(n, p.threshold))
    ensures a in p.lb.enabled <==> p.lb.nodes[a].enabled
    ensures !p.lb.nodes[a].enabled ==> forall now :: NextNode(p.lb, now).1 != Some(a)
  {
    hide NextNode;
    forall now ensures !p.lb.nodes[a].enabled ==> NextNode(p.lb, now).1 != Some(a) {
      NextIsSelectable(p.lb, now);
    }
  }

  // ---------- successive rounds ----------

  datatype Failure = Failure(round: Round, between: seq<Step>)

  ghost function AfterFailures(p: System, fs: seq<Failure>): System
    decreases |fs|
  {
    if fs == [] then p else AfterFailures(Run(AfterRound(p, fs[0].round), fs[0].between), fs[1..])
  }

  /** `a` fails in every round, and others leave it alone between them. */
  ghost predicate Fails(p: System, fs: seq<Failure>, a: Addr)
    decreases |fs|
  {
    fs == [] ||
    (&& FailingRound(p, fs[0].round, a)
     && (forall i :: 0 <= i < |fs[0].between| ==> Interference(fs[0].between[i], a))
     && Fails(Run(AfterRound(p, fs[0].round), fs[0].between), fs[1..], a))
  }

  lemma OneMoreFailure(p: System, f: Failure, a: Addr)
    requires Rep(p.lb) && a in p.lb.nodes && FailingRound(p, f.round, a)
    requires forall i :: 0 <= i < |f.between| ==> Interference(f.between[i], a)
    ensures var q := Run(AfterRound(p, f.round), f.between);
      && Rep(q.lb) && q.threshold == p.threshold && a in q.lb.nodes
      && Of(q.lb.nodes[a]) == OneFailure(Of(p.lb.nodes[a]), p.threshold)
  {
    hide Rep, FailingRound, Interference, AfterRound, NextNode;
    FailingRoundResult(p, f.round, a);
    Recovery.Undisturbed(AfterRound(p, f.round), f.between, a);
    ThresholdStays(AfterRound(p, f.round), f.between);
  }

  /** An enabled node that fails in successive rounds is disabled in exactly the round in which its failures in a row
      reach the threshold, and stays disabled; until then it stays enabled. From no failures that takes `threshold`
      rounds (one, if the threshold is zero). */
  lemma {:induction false} FailingRoundsDisable(p: System, fs: seq<Failure>, a: Addr)
    requires Rep(p.lb) && a in p.lb.nodes && p.lb.nodes[a].enabled && Fails(p, fs, a)
    ensures var n, q := p.lb.nodes[a], AfterFailures(p, fs);
      && Rep(q.lb) && a in q.lb.nodes
      && q.lb.nodes[a].failures == n.failures + |fs|
      && (q.lb.nodes[a].enabled <==> fs == [] || n.failures + |fs| < p.threshold)
      && (!q.lb.nodes[a].enabled ==> q.lb.nodes[a].reason == Some(HealthCheck))
      && (a in q.lb.enabled <==> q.lb.nodes[a].enabled)
    decreases |fs|
  {
    hide FailingRound, Interference, AfterRound, NextNode, Rep;
    if fs == [] {
      assert a in p.lb.enabled by { EnabledIsRecoverable(p.lb, a); }
    } else {
      OneMoreFailure(p, fs[0], a);
      var q := Run(AfterRound(p, fs[0].round), fs[0].between);
      if q.lb.nodes[a].enabled {
        FailingRoundsDisable(q, fs[1..], a);
      } else {
        StaysDisabled(q, fs[1..], a);
      }
    }
  }

  lemma {:induction false} StaysDisabled(p: System, fs: seq<Failure>, a: Addr)
    requires Rep(p.lb) && a in p.lb.nodes && !p.lb.nodes[a].enabled && p.lb.nodes[a].reason == Some(HealthCheck)
    requires Fails(p, fs, a)
    ensures var q := AfterFailures(p, fs);
      && Rep(q.lb) && a in q.lb.nodes && q.lb.nodes[a].failures == p.lb.nodes[a].failures + |fs|
      && !q.lb.nodes[a].enabled && q.lb.nodes[a].reason == Some(HealthCheck) && a !in q.lb.enabled
    decreases |fs|
  {
    hide FailingRound, Interference, AfterRound, NextNode, Rep;
    if fs == [] {
      assert a !in p.lb.enabled by { DisabledIsUnlisted(p.lb, a); }
    } else {
      OneMoreFailure(p, fs[0], a);
      StaysDisabled(Run(AfterRound(p, fs[0].round), fs[0].between), fs[1..], a);
    }
  }

  lemma DisabledIsUnlisted(lb: Balancer, a: Addr)
    requires Rep(lb) && a in lb.nodes && !lb.nodes[a].enabled
    ensures a !in lb.enabled
  {
  }
}
