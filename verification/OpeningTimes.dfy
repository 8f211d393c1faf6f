/** How long a circuit stays open: from the failed check that opened it until its backoff is over. */
module OpeningTimes {
  import opened Arith
  import opened Breaker
  import opened Balancing
  import opened HealthProtocol

  ghost predicate IsOpen(lb: Balancer, a: Addr) {
    a in lb.nodes && lb.nodes[a].circuit.Open?
  }

  /** The step applies a failed check of `a`. */
  ghost predicate FailsCheck(p: System, s: Step, a: Addr) {
    s.Apply? && p.phase.Deciding? && p.phase.update.addr == a && p.phase.update.status.Unhealthy?
  }

  lemma AppliedOpening(lb: Balancer, u: Decision, now: Time, a: Addr)
    requires Rep(lb) && a in lb.nodes && (u.shouldEnable ==> u.status.Healthy?)
    ensures var lb' := ApplyUpdate(lb, u, now);
      && a in lb'.nodes
      && (lb.nodes[a].circuit.Open? ==> lb'.nodes[a].circuit.Open? && lb'.nodes[a].openedAt == lb.nodes[a].openedAt)
      && (!lb.nodes[a].circuit.Open? && lb'.nodes[a].circuit.Open? ==>
          u.addr == a && u.status.Unhealthy? && lb'.nodes[a].openedAt == Some(now))
  {
    hide Without, With, Rep;
  }

  lemma TickedOpening(lb: Balancer, now: Time, a: Addr)
    requires Rep(lb) && a in lb.nodes
    ensures var lb' := CheckTimeouts(lb, now);
      && a in lb'.nodes
      && (lb'.nodes[a].circuit.Open? ==> lb.nodes[a].circuit.Open? && lb'.nodes[a].openedAt == lb.nodes[a].openedAt)
      && (lb.nodes[a].circuit.Open? ==>
          (!lb'.nodes[a].circuit.Open? <==>
           Elapsed(now, lb.nodes[a].openedAt.value) >= CalculateTimeout(lb.config, lb.nodes[a].failures) as real))
  {
    hide CalculateTimeout;
  }

  /** Operators and traffic neither open nor close the circuit of a node they leave in place. */
  lemma OthersKeepOpening(p: System, s: Step, a: Addr)
    requires !s.Tick? && !s.Apply?
    ensures var lb' := Take(p, s).lb;
      && (IsOpen(lb', a) ==> IsOpen(p.lb, a) && lb'.nodes[a].openedAt == p.lb.nodes[a].openedAt)
      && (IsOpen(p.lb, a) && a in lb'.nodes ==> IsOpen(lb', a))
  {
    hide Without, With;
    if s.Traffic? {
      NextIsSelectable(p.lb, s.now);
    }
  }

  /** One step: an open circuit was opened by this step, which then applies a failed check and notes its time, or keeps
      its opening time. */
  lemma OpeningStep(p: System, s: Step, a: Addr)
    requires Rep(p.lb) && SaneDecision(p.phase) && IsOpen(Take(p, s).lb, a)
    ensures if IsOpen(p.lb, a) then Take(p, s).lb.nodes[a].openedAt == p.lb.nodes[a].openedAt
            else FailsCheck(p, s, a) && Take(p, s).lb.nodes[a].openedAt == Some(s.now)
  {
    hide Rep, ApplyUpdate, CheckTimeouts;
    if s.Tick? {
      if p.phase.Idle? {
        assert a in p.lb.nodes by { TickAddsNothing(p.lb, s.now, a); }
        TickedOpening(p.lb, s.now, a);
      }
    } else if s.Apply? {
      if p.phase.Deciding? {
        assert a in p.lb.nodes by { ApplyAddsNothing(p.lb, p.phase.update, s.now, a); }
        AppliedOpening(p.lb, p.phase.update, s.now, a);
      }
    } else {
      hide Take;
      OthersKeepOpening(p, s, a);
    }
  }

  lemma TickAddsNothing(lb: Balancer, now: Time, a: Addr)
    ensures a in CheckTimeouts(lb, now).nodes <==> a in lb.nodes
  {
  }

  lemma ApplyAddsNothing(lb: Balancer, u: Decision, now: Time, a: Addr)
    ensures a in ApplyUpdate(lb, u, now).nodes <==> a in lb.nodes
  {
    hide Without, With;
  }

  /** Over every run, a circuit that is open was opened by a step, the last since which it has been open without a
      break, that applied a failed check of the node, and its opening time is the time of that step. */
  lemma {:induction false} OpenSinceStep(p: System, steps: seq<Step>, a: Addr) returns (k: nat)
    requires Rep(p.lb) && SaneDecision(p.phase) && !IsOpen(p.lb, a) && IsOpen(Run(p, steps).lb, a)
    ensures k < |steps| && FailsCheck(Run(p, steps[..k]), steps[k], a) && !IsOpen(Run(p, steps[..k]).lb, a)
    ensures forall j :: k < j <= |steps| ==> IsOpen(Run(p, steps[..j]).lb, a)
    ensures Run(p, steps).lb.nodes[a].openedAt == Some(steps[k].now)
  {
    hide Rep, Take, SaneDecision, FailsCheck, IsOpen;
    assert steps != [] by { NotYetOpen(p, steps, a); }
    var before, s := steps[..|steps| - 1], steps[|steps| - 1];
    assert steps[..|steps|] == steps;
    HealthProtocol.RepAlways(p, before);
    SaneAlways(p, before);
    OpeningStep(Run(p, before), s, a);
    if IsOpen(Run(p, before).lb, a) {
      k := OpenSinceStep(p, before, a);
      assert before[k] == steps[k] && before[..k] == steps[..k];
      forall j | k < j <= |steps| ensures IsOpen(Run(p, steps[..j]).lb, a) {
        if j < |steps| {
          assert before[..j] == steps[..j];
        }
      }
    } else {
      k := |steps| - 1;
    }
  }

  lemma NotYetOpen(p: System, steps: seq<Step>, a: Addr)
    requires !IsOpen(p.lb, a) && IsOpen(Run(p, steps).lb, a)
    ensures steps != []
  {
  }

  /** While a circuit stays open its opening time stays. */
  lemma {:induction false} OpeningTimeStays(p: System, steps: seq<Step>, a: Addr)
    requires Rep(p.lb) && SaneDecision(p.phase)
    requires forall j :: 0 <= j <= |steps| ==> IsOpen(Run(p, steps[..j]).lb, a)
    ensures IsOpen(p.lb, a) && IsOpen(Run(p, steps).lb, a)
    ensures Run(p, steps).lb.nodes[a].openedAt == p.lb.nodes[a].openedAt
  {
    hide Rep, Take, SaneDecision;
    assert steps[..|steps|] == steps && steps[..0] == [];
    assert IsOpen(Run(p, steps[..0]).lb, a) && IsOpen(Run(p, steps[..|steps|]).lb, a);
    if steps != [] {
      var before := steps[..|steps| - 1];
      forall j | 0 <= j <= |before| ensures IsOpen(Run(p, before[..j]).lb, a) {
        assert before[..j] == steps[..j];
      }
      OpeningTimeStays(p, before, a);
      HealthProtocol.RepAlways(p, before);
      SaneAlways(p, before);
      OpeningStep(Run(p, before), steps[|steps| - 1], a);
    }
  }

  /** A circuit leaves Open, on a node that stays, only through a timeout check. */
  lemma LeavesOpenOnlyByTimeout(p: System, s: Step, a: Addr)
    requires Rep(p.lb) && SaneDecision(p.phase) && IsOpen(p.lb, a)
    requires a in Take(p, s).lb.nodes && !IsOpen(Take(p, s).lb, a)
    ensures s.Tick? && p.phase.Idle? && Take(p, s).lb.nodes[a].circuit.HalfOpen?
  {
    hide Rep, ApplyUpdate, CheckTimeouts;
    if s.Tick? {
      if p.phase.Idle? {
        NoStuckOpen(p, s.now, a);
        TickedOpening(p.lb, s.now, a);
      }
    } else if s.Apply? {
      if p.phase.Deciding? {
        AppliedOpening(p.lb, p.phase.update, s.now, a);
      }
    } else {
      hide Take;
      OthersKeepOpening(p, s, a);
    }
  }

  /** The backoff is waited out: over every run, a timeout check makes an open circuit half-open exactly when the
      timeout for the node's current run of failures has passed since the step that opened it. So none before does,
      and the first at or after does. */
  lemma HalfOpensAfterTimeout(p: System, steps: seq<Step>, a: Addr, now: Time) returns (k: nat)
    requires Rep(p.lb) && SaneDecision(p.phase) && !IsOpen(p.lb, a) && IsOpen(Run(p, steps).lb, a)
    requires Run(p, steps).phase.Idle?
    ensures k < |steps| && FailsCheck(Run(p, steps[..k]), steps[k], a) && !IsOpen(Run(p, steps[..k]).lb, a)
    ensures forall j :: k < j <= |steps| ==> IsOpen(Run(p, steps[..j]).lb, a)
    ensures var timeout := CalculateTimeout(p.lb.config, Streak(p, steps, a));
      var q := Take(Run(p, steps), Tick(now));
      && a in q.lb.nodes
      && (q.lb.nodes[a].circuit.HalfOpen? <==> timeout == 0 || now - steps[k].now >= timeout as real)
  {
    hide Rep, SaneDecision, FailsCheck, Run, Streak, CalculateTimeout;
    k := OpenSinceStep(p, steps, a);
    FailuresAreStreak(p, steps, a);
    HealthProtocol.RepAlways(p, steps);
    ConfigIsFixed(p, steps);
    NoStuckOpen(Run(p, steps), now, a);
    TickAddsNothing(Run(p, steps).lb, now, a);
  }

  lemma {:induction false} ConfigIsFixed(p: System, steps: seq<Step>)
    ensures Run(p, steps).lb.config == p.lb.config
  {
    if steps != [] {
      var before, s := steps[..|steps| - 1], steps[|steps| - 1];
      ConfigIsFixed(p, before);
      StepKeepsConfig(Run(p, before), s);
    }
  }

  lemma StepKeepsConfig(p: System, s: Step)
    ensures Take(p, s).lb.config == p.lb.config
  {
    hide Without, With, CheckTimeouts, NextNode;
    if s.Traffic? {
      NextIsSelectable(p.lb, s.now);
    } else if s.Tick? {
      TickKeepsConfig(p.lb, s.now);
    }
  }

  lemma TickKeepsConfig(lb: Balancer, now: Time)
    ensures CheckTimeouts(lb, now).config == lb.config
  {
  }
}
