/** The load balancer as the program runs it: node objects updated in place, an enabled list, and an index. */
module LoadBalancers {
  import opened Arith
  import opened Breaker
  import B = Balancing

  class CircuitNode {
    const addr: Addr
    var enabled: bool
    var reason: Option<DisableReason>
    var failures: nat
    var lastCheck: Option<Time>
    var lastStatus: Option<Health>
    var circuit: Circuit
    var openedAt: Option<Time>
    var requests: nat
    var lastRequest: Option<Time>
    var attempted: bool

    ghost function State(): Node
      reads this
    {
      Node(addr, enabled, reason, failures, lastCheck, lastStatus, circuit, openedAt, requests, lastRequest, attempted)
    }

    constructor (addr: Addr)
      ensures State() == NewNode(addr)
    {
      this.addr := addr;
      enabled, reason, failures := true, None, 0;
      lastCheck, lastStatus := None, None;
      circuit, openedAt, attempted := Closed, None, false;
      requests, lastRequest := 0, None;
    }

    method Clone() returns (node: Node)
      ensures node == State()
    {
      node := Node(
        addr, enabled, reason, failures, lastCheck, lastStatus, circuit, openedAt, requests, lastRequest, attempted);
    }

    method TransitionCircuitState(to: Circuit, now: Time)
      modifies this
      ensures State() == Transition(old(State()), to, now)
    {
      circuit := to;
      match to {
        case Open =>
          openedAt := Some(now);
          attempted := false;
        case Closed =>
          openedAt := None;
          attempted := false;
        case HalfOpen =>
          openedAt := None;
      }
    }

    method TryTransitionToHalfOpen() returns (claimed: bool)
      modifies this
      ensures (State(), claimed) == TryHalfOpen(old(State()))
    {
      if circuit != Open {
        return false;
      }
      claimed := !attempted;
      if claimed {
        attempted := true;
        circuit := HalfOpen;
        openedAt := None;
      }
    }

    method CheckTimeout(config: Config, now: Time) returns (transitioned: bool)
      modifies this
      ensures State() == Tick(config, old(State()), now)
      ensures transitioned <==> State() != old(State())
    {
      transitioned := false;
      if circuit == Open && openedAt.Some?
         && Elapsed(now, openedAt.value) >= CalculateTimeout(config, failures) as real
      {
        transitioned := TryTransitionToHalfOpen();
      }
    }

    method RecordCheck(config: Config, status: Health, now: Time)
      modifies this
      ensures State() == Checked(config, old(State()), status, now)
    {
      lastCheck := Some(now);
      lastStatus := Some(status);
      match status {
        case Healthy =>
          failures := 0;
          if circuit == HalfOpen {
            TransitionCircuitState(Closed, now);
          }
        case Unhealthy(_) =>
          failures := failures + 1;
          match circuit {
            case Closed =>
              if failures >= config.failureThreshold {
                TransitionCircuitState(Open, now);
              }
            case HalfOpen =>
              TransitionCircuitState(Open, now);
            case Open =>
          }
      }
    }

    method SwitchOff(reason: DisableReason)
      modifies this`enabled, this`reason
      ensures State() == old(State()).(enabled := false, reason := Some(reason))
    {
      enabled := false;
      this.reason := Some(reason);
    }

    method SwitchOn()
      modifies this`enabled, this`reason, this`failures
      ensures State() == B.Enabled(old(State()))
    {
      enabled := true;
      reason := None;
      failures := 0;
    }

    method CountRequest(now: Time)
      modifies this`requests, this`lastRequest
      ensures State() == B.Selected(old(State()), now)
    {
      requests := requests + 1;
      lastRequest := Some(now);
    }
  }

  /** A round of timeout checks that has still to visit the nodes `rest`. */
  ghost function TickOthers(lb: B.Balancer, rest: set<Addr>, now: Time): B.Balancer {
    lb.(nodes := map a | a in lb.nodes :: if a in rest then lb.nodes[a] else Tick(lb.config, lb.nodes[a], now))
  }

  lemma NothingTicked(lb: B.Balancer, now: Time)
    ensures TickOthers(lb, lb.nodes.Keys, now) == lb
  {
    assert TickOthers(lb, lb.nodes.Keys, now).nodes == lb.nodes;
  }

  lemma AllTicked(lb: B.Balancer, now: Time)
    ensures TickOthers(lb, {}, now) == B.CheckTimeouts(lb, now)
  {
    assert TickOthers(lb, {}, now).nodes == B.CheckTimeouts(lb, now).nodes;
  }

  lemma TickOne(lb: B.Balancer, rest: set<Addr>, a: Addr, now: Time)
    requires a in rest && rest <= lb.nodes.Keys
    ensures var before, after := TickOthers(lb, rest, now), TickOthers(lb, rest - {a}, now);
      && before.nodes.Keys == lb.nodes.Keys && before.config == lb.config
      && after == before.(nodes := before.nodes[a := Tick(lb.config, before.nodes[a], now)])
      && (after != lb <==> before != lb || after != before)
  {
    var before, after := TickOthers(lb, rest, now), TickOthers(lb, rest - {a}, now);
    assert after.nodes == before.nodes[a := Tick(lb.config, before.nodes[a], now)];
    assert before.nodes[a] == lb.nodes[a];
    if before != lb {
      assert before.nodes != lb.nodes;
      var b :| b in lb.nodes && before.nodes[b] != lb.nodes[b];
      assert after.nodes[b] != lb.nodes[b];
    }
    if after != before {
      assert after.nodes[a] != lb.nodes[a];
    }
  }

  lemma PickOnce(lb: B.Balancer, left: nat, now: Time)
    requires lb.enabled != [] && left > 0
    ensures var a, lb' := lb.enabled[lb.index % |lb.enabled|], lb.(index := (lb.index + 1) % |lb.enabled|);
      if a in lb.nodes && lb.nodes[a].circuit != Open
      then B.Pick(lb, left, now) == (lb'.(nodes := lb.nodes[a := B.Selected(lb.nodes[a], now)]), Some(a))
      else B.Pick(lb, left, now) == B.Pick(lb', left - 1, now)
  {
  }

  lemma PickNothing(lb: B.Balancer, now: Time)
    requires lb.enabled != []
    ensures B.Pick(lb, 0, now) == (lb, None)
  {
  }

  lemma NoDupNone()
    ensures B.NoDup([])
  {
  }

  lemma NoDupMore(list: seq<Addr>, a: Addr)
    requires B.NoDup(list) && a !in list
    ensures B.NoDup(list + [a])
  {
  }

  class LoadBalancer {
    var nodes: map<Addr, CircuitNode>
    var enabled: seq<Addr>
    var index: nat
    const config: Config

    /** Each address owns its node. */
    ghost predicate Owned()
      reads this
    {
      forall a, b :: a in nodes && b in nodes && a != b ==> nodes[a] != nodes[b]
    }

    ghost function View(): B.Balancer
      reads this, nodes.Values
    {
      B.Balancer(map a | a in nodes :: nodes[a].State(), enabled, index, config)
    }

    constructor (addrs: seq<Addr>, config: Config)
      ensures Owned() && fresh(nodes.Values) && View() == B.New(addrs, config)
    {
      nodes := map[];
      enabled := addrs;
      index := 0;
      this.config := config;
      new;
      for i := 0 to |addrs|
        invariant Owned() && enabled == addrs && index == 0
        invariant forall a :: a in nodes ==> fresh(nodes[a])
        invariant forall a :: a in nodes <==> a in addrs[..i]
        invariant forall a :: a in nodes ==> nodes[a].State() == NewNode(a)
      {
        var node := new CircuitNode(addrs[i]);
        nodes := nodes[addrs[i] := node];
      }
      assert addrs[..|addrs|] == addrs;
      assert View().nodes == B.New(addrs, config).nodes;
    }

    method NextNode(now: Time) returns (pick: Option<Addr>)
      requires Owned()
      modifies this`index, nodes.Values
      ensures (View(), pick) == B.NextNode(old(View()), now)
    {
      hide B.Pick, B.Selectable, B.Selected;
      if |enabled| == 0 {
        return None;
      }
      ghost var was := View();
      assert B.NextNode(was, now) == B.Pick(was, |enabled|, now);
      hide B.NextNode;
      for turn := 0 to |enabled|
        invariant View() == was.(index := index)
        invariant B.NextNode(was, now) == B.Pick(was.(index := index), |enabled| - turn, now)
      {
        var idx := index % |enabled|;
        PickOnce(was.(index := index), |enabled| - turn, now);
        index := (index + 1) % |enabled|;
        assert View() == was.(index := index);
        if CanServe(enabled[idx]) {
          CountRequestOn(enabled[idx], now);
          pick := Some(enabled[idx]);
          assert View() == was.(
            index := index,
            nodes := was.nodes[enabled[idx] := B.Selected(was.nodes[enabled[idx]], now)]);
          return;
        }
      }
      PickNothing(was.(index := index), now);
      pick := None;
    }

    predicate CanServe(a: Addr)
      reads this, nodes.Values
      ensures CanServe(a) <==> a in View().nodes && View().nodes[a].circuit != Open
    {
      a in nodes && nodes[a].circuit != Open
    }

    // ---------- one node at a time ----------

    method CountRequestOn(a: Addr, now: Time)
      requires Owned() && a in nodes
      modifies nodes[a]
      ensures View() == old(View()).(nodes := old(View()).nodes[a := B.Selected(old(View()).nodes[a], now)])
    {
      nodes[a].CountRequest(now);
      assert View().nodes == old(View()).nodes[a := nodes[a].State()];
    }

    method SwitchOffNode(a: Addr, reason: DisableReason)
      requires Owned() && a in nodes
      modifies nodes[a]
      ensures var n := old(View()).nodes[a].(enabled := false, reason := Some(reason));
        View() == old(View()).(nodes := old(View()).nodes[a := n])
    {
      nodes[a].SwitchOff(reason);
      assert View().nodes == old(View()).nodes[a := nodes[a].State()];
    }

    method SwitchOnNode(a: Addr)
      requires Owned() && a in nodes
      modifies nodes[a]
      ensures View() == old(View()).(nodes := old(View()).nodes[a := B.Enabled(old(View()).nodes[a])])
    {
      nodes[a].SwitchOn();
      assert View().nodes == old(View()).nodes[a := nodes[a].State()];
    }

    method RecordCheckOn(a: Addr, status: Health, now: Time)
      requires Owned() && a in nodes
      modifies nodes[a]
      ensures var n := Checked(config, old(View()).nodes[a], status, now);
        View() == old(View()).(nodes := old(View()).nodes[a := n])
    {
      hide Checked;
      nodes[a].RecordCheck(config, status, now);
      assert View().nodes == old(View()).nodes[a := nodes[a].State()];
    }

    method Unlist(a: Addr)
      modifies this`enabled
      ensures View() == old(View()).(enabled := B.Without(old(enabled), a))
    {
      enabled := B.Without(enabled, a);
    }

    method List(a: Addr)
      modifies this`enabled
      ensures View() == old(View()).(enabled := B.With(old(enabled), a))
    {
      if a !in enabled {
        enabled := enabled + [a];
      }
    }

    // ---------- the operations ----------

    method DisableNode(a: Addr) returns (found: bool)
      requires Owned()
      modifies this`enabled, nodes.Values
      ensures (View(), found) == B.DisableNode(old(View()), a)
    {
      hide B.Without;
      found := a in nodes;
      if found {
        SwitchOffNode(a, Manual);
        Unlist(a);
      }
    }

    method EnableNode(a: Addr) returns (found: bool)
      requires Owned()
      modifies this`enabled, nodes.Values
      ensures (View(), found) == B.EnableNode(old(View()), a)
    {
      hide B.Enabled, B.With;
      found := a in nodes;
      if found {
        SwitchOnNode(a);
        List(a);
      }
    }

    method AutoDisableNode(a: Addr) returns (disabled: bool)
      requires Owned()
      modifies this`enabled, nodes.Values
      ensures (View(), disabled) == B.AutoDisableNode(old(View()), a)
    {
      hide B.Without;
      disabled := a in nodes && nodes[a].reason != Some(Manual);
      if disabled {
        SwitchOffNode(a, HealthCheck);
        Unlist(a);
      }
    }

    method AutoEnableNode(a: Addr) returns (reenabled: bool)
      requires Owned()
      modifies this`enabled, nodes.Values
      ensures (View(), reenabled) == B.AutoEnableNode(old(View()), a)
    {
      hide B.Enabled, B.With;
      reenabled := a in nodes && nodes[a].reason == Some(HealthCheck);
      if reenabled {
        SwitchOnNode(a);
        List(a);
      }
    }

    method UpdateHealthStatus(a: Addr, status: Health, now: Time)
      requires Owned()
      modifies nodes.Values
      ensures View() == B.UpdateHealth(old(View()), a, status, now)
    {
      hide Checked;
      if a in nodes {
        RecordCheckOn(a, status, now);
      }
    }

    /** One turn of the loop below. */
    method CheckNodeTimeout(a: Addr, now: Time) returns (transitioned: bool)
      requires Owned() && a in nodes
      modifies nodes.Values
      ensures View() == old(View()).(nodes := old(View()).nodes[a := Tick(config, old(View()).nodes[a], now)])
      ensures transitioned <==> View() != old(View())
    {
      hide Tick;
      transitioned := nodes[a].CheckTimeout(config, now);
      assert View().nodes == old(View()).nodes[a := Tick(config, old(View()).nodes[a], now)];
    }

    /** The hash map hands out its nodes in an arbitrary order. */
    method CheckCircuitTimeouts(now: Time) returns (any: bool)
      requires Owned()
      modifies nodes.Values
      ensures View() == B.CheckTimeouts(old(View()), now)
      ensures any <==> View() != old(View())
    {
      hide Tick, TickOthers;
      ghost var was, lb := View(), View();
      NothingTicked(was, now);
      any := false;
      var rest := nodes.Keys;
      while rest != {}
        invariant rest <= nodes.Keys == was.nodes.Keys
        invariant View() == lb == TickOthers(was, rest, now)
        invariant any <==> lb != was
        decreases |rest|
      {
        var a :| a in rest;
        TickOne(was, rest, a, now);
        var transitioned := CheckNodeTimeout(a, now);
        lb := TickOthers(was, rest - {a}, now);
        any := any || transitioned;
        rest := rest - {a};
      }
      AllTicked(was, now);
    }

    /** Snapshots of all nodes, in the order in which the hash map hands them out. */
    method AllNodes() returns (order: seq<Addr>, snapshots: seq<Node>)
      ensures B.NoDup(order) && (forall a :: a in order <==> a in nodes)
      ensures |snapshots| == |order|
      ensures forall i :: 0 <= i < |order| ==> snapshots[i] == View().nodes[order[i]]
    {
      hide B.NoDup;
      order, snapshots := [], [];
      NoDupNone();
      var rest := nodes.Keys;
      while rest != {}
        invariant rest <= nodes.Keys && |snapshots| == |order|
        invariant forall a :: a in nodes <==> a in rest || a in order
        invariant forall a :: a in order ==> a !in rest
        invariant B.NoDup(order)
        invariant forall i :: 0 <= i < |order| ==> order[i] in nodes && snapshots[i] == nodes[order[i]].State()
        decreases |rest|
      {
        var a :| a in rest;
        var snapshot := nodes[a].Clone();
        NoDupMore(order, a);
        order, snapshots := order + [a], snapshots + [snapshot];
        rest := rest - {a};
      }
    }

    method ConsecutiveFailures(a: Addr) returns (failures: nat)
      ensures failures == B.ConsecutiveFailures(View(), a)
    {
      failures := if a in nodes then nodes[a].failures else 0;
    }

    method AddNode(a: Addr)
      requires Owned()
      modifies this`nodes, this`enabled
      ensures Owned() && fresh(nodes.Values - old(nodes.Values))
      ensures View() == B.AddNode(old(View()), a)
    {
      if a !in nodes {
        var node := new CircuitNode(a);
        nodes := nodes[a := node];
        enabled := enabled + [a];
        assert View().nodes == B.AddNode(old(View()), a).nodes;
      }
    }

    method RemoveNode(a: Addr)
      requires Owned()
      modifies this`nodes, this`enabled
      ensures Owned() && nodes.Values <= old(nodes.Values)
      ensures View() == B.RemoveNode(old(View()), a)
    {
      nodes := nodes - {a};
      enabled := B.Without(enabled, a);
      assert View().nodes == B.RemoveNode(old(View()), a).nodes;
    }

    method NodeCount() returns (count: nat)
      ensures count == |View().nodes|
    {
      count := |nodes|;
      assert View().nodes.Keys == nodes.Keys;
      assert |View().nodes| == |View().nodes.Keys| && |nodes| == |nodes.Keys|;
    }

    /** Any operation. */
    method Perform(op: B.Op)
      requires Owned()
      modifies this`nodes, this`enabled, this`index, nodes.Values
      ensures Owned() && fresh(nodes.Values - old(nodes.Values))
      ensures View() == B.Apply(old(View()), op)
    {
      hide B.NextNode, B.DisableNode, B.EnableNode, B.AutoDisableNode, B.AutoEnableNode, B.UpdateHealth;
      hide B.CheckTimeouts, B.AddNode, B.RemoveNode, B.RegisterNode;
      match op
      case Next(now) => var pick := NextNode(now);
      case Disable(a) => var found := DisableNode(a);
      case Enable(a) => var found := EnableNode(a);
      case AutoDisable(a) => var found := AutoDisableNode(a);
      case AutoEnable(a) => var found := AutoEnableNode(a);
      case Update(a, status, now) => UpdateHealthStatus(a, status, now);
      case Timeouts(now) => var any := CheckCircuitTimeouts(now);
      case Add(a) => AddNode(a);
      case Remove(a) => RemoveNode(a);
      case Register(url) => var isNew := RegisterNode(url);
    }

    /** Operations of other tasks, one after the other. */
    method PerformAll(ops: seq<B.Op>)
      requires Owned()
      modifies this`nodes, this`enabled, this`index, nodes.Values
      ensures Owned() && fresh(nodes.Values - old(nodes.Values))
      ensures View() == B.After(old(View()), ops)
    {
      hide B.Apply;
      ghost var was := View();
      for i := 0 to |ops|
        invariant Owned() && fresh(nodes.Values - old(nodes.Values))
        invariant View() == B.After(was, ops[..i])
      {
        assert ops[..i + 1][..i] == ops[..i];
        Perform(ops[i]);
      }
      assert ops[..|ops|] == ops;
    }

    method Enlist(url: string)
      requires Owned()
      modifies this`nodes, this`enabled, nodes.Values
      ensures Owned() && fresh(nodes.Values - old(nodes.Values))
      ensures View() == B.EnableNode(B.AddNode(old(View()), url), url).0
    {
      hide B.AddNode, B.EnableNode;
      AddNode(url);
      var found := EnableNode(url);
    }

    /** `Orchestrator::register_node`, under the balancer's write lock. */
    method RegisterNode(url: string) returns (isNew: Option<bool>)
      requires Owned()
      modifies this`nodes, this`enabled, nodes.Values
      ensures Owned() && fresh(nodes.Values - old(nodes.Values))
      ensures (View(), isNew) == B.RegisterNode(old(View()), url)
    {
      hide B.AddNode, B.EnableNode, B.IsUrl;
      if !B.IsUrl(url) {
        return None;
      }
      ghost var lb := View();
      var before := NodeCount();
      Enlist(url);
      var after := NodeCount();
      RegisterCount(lb, url);
      isNew := Some(after > before);
    }
  }

  lemma RegisterCount(lb: B.Balancer, a: Addr)
    ensures |B.EnableNode(B.AddNode(lb, a), a).0.nodes| > |lb.nodes| <==> a !in lb.nodes
  {
    var after := B.EnableNode(B.AddNode(lb, a), a).0.nodes;
    assert after.Keys == lb.nodes.Keys + {a};
    assert |after| == |after.Keys| && |lb.nodes| == |lb.nodes.Keys|;
  }
}
