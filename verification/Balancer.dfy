/** One node's circuit breaker, as values. */
module Breaker {
  import opened Arith

  type Addr = string
  type Time = real // milliseconds

  datatype Option<+T> = None | Some(value: T)
  datatype DisableReason = Manual | HealthCheck
  datatype Health = Healthy | Unhealthy(error: string)
  datatype Circuit = Closed | Open | HalfOpen

  datatype Config = Config(failureThreshold: nat, baseTimeoutSecs: nat, maxTimeoutSecs: nat, multiplier: real)

  /** `calculate_timeout`, in milliseconds. The exponent is failures - 1, so no failures divide by the multiplier. */
  function CalculateTimeout(c: Config, failures: nat): nat {
    var base, max := c.baseTimeoutSecs * 1000, c.maxTimeoutSecs * 1000;
    if failures > 0 then Min(Truncate(base as real * PowReal(c.multiplier, failures - 1), U64_MAX), max)
    else if c.multiplier != 0.0 then Min(Truncate(base as real / c.multiplier, U64_MAX), max)
    else if base == 0 then 0 else max
  }

  datatype Node = Node(
    addr: Addr,
    enabled: bool,
    reason: Option<DisableReason>,
    failures: nat,
    lastCheck: Option<Time>,
    lastStatus: Option<Health>,
    circuit: Circuit,
    openedAt: Option<Time>,
    requests: nat,
    lastRequest: Option<Time>,
    attempted: bool // a transition to half-open has been claimed
  )

  function NewNode(addr: Addr): Node {
    Node(addr, true, None, 0, None, None, Closed, None, 0, None, false)
  }

  predicate ShouldAttemptHalfOpen(c: Config, n: Node, now: Time) {
    n.circuit.Open? && n.openedAt.Some? && Elapsed(now, n.openedAt.value) >= CalculateTimeout(c, n.failures) as real
  }

  function Transition(n: Node, to: Circuit, now: Time): Node {
    match to
    case Open => n.(circuit := Open, openedAt := Some(now), attempted := false)
    case Closed => n.(circuit := Closed, openedAt := None, attempted := false)
    case HalfOpen => n.(circuit := HalfOpen, openedAt := None)
  }

  /** `try_transition_to_half_open`: claim the transition with a compare-and-swap on the flag. */
  function TryHalfOpen(n: Node): (Node, bool) {
    if n.circuit.Open? && !n.attempted then (n.(circuit := HalfOpen, openedAt := None, attempted := true), true)
    else (n, false)
  }

  /** The body of `check_circuit_timeouts` for one node. */
  function Tick(c: Config, n: Node, now: Time): Node {
    if ShouldAttemptHalfOpen(c, n, now) then TryHalfOpen(n).0 else n
  }

  /** The body of `update_health_status` for the node it finds. */
  function Checked(c: Config, n: Node, status: Health, now: Time): Node {
    var n1 := n.(lastCheck := Some(now), lastStatus := Some(status));
    match status
    case Healthy =>
      var n2 := n1.(failures := 0);
      if n2.circuit.HalfOpen? then Transition(n2, Closed, now) else n2
    case Unhealthy(_) =>
      var n2 := n1.(failures := n1.failures + 1);
      match n2.circuit
      case Closed => if n2.failures >= c.failureThreshold then Transition(n2, Open, now) else n2
      case HalfOpen => Transition(n2, Open, now)
      case Open => n2
  }
}

/** The load balancer as values. */
module Balancing {
  import opened Breaker

  datatype Balancer = Balancer(nodes: map<Addr, Node>, enabled: seq<Addr>, index: nat, config: Config)

  function New(addrs: seq<Addr>, config: Config): Balancer {
    Balancer(map a | a in addrs :: NewNode(a), addrs, 0, config)
  }

  /** `retain(|a| a != addr)`. */
  function Without(list: seq<Addr>, addr: Addr): seq<Addr> {
    if list == [] then []
    else Without(list[..|list| - 1], addr) + (if list[|list| - 1] == addr then [] else [list[|list| - 1]])
  }

  function With(list: seq<Addr>, addr: Addr): seq<Addr> {
    if addr in list then list else list + [addr]
  }

  predicate Selectable(nodes: map<Addr, Node>, addr: Addr) {
    addr in nodes && !nodes[addr].circuit.Open?
  }

  function Selected(n: Node, now: Time): Node {
    n.(requests := n.requests + 1, lastRequest := Some(now))
  }

  /** At most `left` more turns of the round-robin loop. */
  function Pick(lb: Balancer, left: nat, now: Time): (Balancer, Option<Addr>)
    requires lb.enabled != []
    decreases left
  {
    if left == 0 then (lb, None) else
      var a := lb.enabled[lb.index % |lb.enabled|];
      var lb' := lb.(index := (lb.index + 1) % |lb.enabled|);
      if Selectable(lb.nodes, a) then (lb'.(nodes := lb.nodes[a := Selected(lb.nodes[a], now)]), Some(a))
      else Pick(lb', left - 1, now)
  }

  function NextNode(lb: Balancer, now: Time): (Balancer, Option<Addr>) {
    if lb.enabled == [] then (lb, None) else Pick(lb, |lb.enabled|, now)
  }

  function DisableNode(lb: Balancer, a: Addr): (Balancer, bool) {
    if a !in lb.nodes then (lb, false) else
      var n := lb.nodes[a].(enabled := false, reason := Some(Manual));
      (lb.(nodes := lb.nodes[a := n], enabled := Without(lb.enabled, a)), true)
  }

  function Enabled(n: Node): Node {
    n.(enabled := true, reason := None, failures := 0)
  }

  function EnableNode(lb: Balancer, a: Addr): (Balancer, bool) {
    if a !in lb.nodes then (lb, false) else
      (lb.(nodes := lb.nodes[a := Enabled(lb.nodes[a])], enabled := With(lb.enabled, a)), true)
  }

  function AutoDisableNode(lb: Balancer, a: Addr): (Balancer, bool) {
    if a !in lb.nodes || lb.nodes[a].reason == Some(Manual) then (lb, false) else
      var n := lb.nodes[a].(enabled := false, reason := Some(HealthCheck));
      (lb.(nodes := lb.nodes[a := n], enabled := Without(lb.enabled, a)), true)
  }

  function AutoEnableNode(lb: Balancer, a: Addr): (Balancer, bool) {
    if a !in lb.nodes || lb.nodes[a].reason != Some(HealthCheck) then (lb, false) else
      (lb.(nodes := lb.nodes[a := Enabled(lb.nodes[a])], enabled := With(lb.enabled, a)), true)
  }

  function UpdateHealth(lb: Balancer, a: Addr, status: Health, now: Time): Balancer {
    if a !in lb.nodes then lb else lb.(nodes := lb.nodes[a := Checked(lb.config, lb.nodes[a], status, now)])
  }

  function CheckTimeouts(lb: Balancer, now: Time): Balancer {
    lb.(nodes := map a | a in lb.nodes :: Tick(lb.config, lb.nodes[a], now))
  }

  function ConsecutiveFailures(lb: Balancer, a: Addr): nat {
    if a in lb.nodes then lb.nodes[a].failures else 0
  }

  function AddNode(lb: Balancer, a: Addr): Balancer {
    if a in lb.nodes then lb else lb.(nodes := lb.nodes[a := NewNode(a)], enabled := lb.enabled + [a])
  }

  function RemoveNode(lb: Balancer, a: Addr): Balancer {
    lb.(nodes := lb.nodes - {a}, enabled := Without(lb.enabled, a))
  }

  predicate IsUrl(url: string) {
    "http://" <= url || "https://" <= url
  }

  /** `Orchestrator::register_node`: nothing for a malformed URL, otherwise whether the node is new. */
  function RegisterNode(lb: Balancer, url: string): (Balancer, Option<bool>) {
    if !IsUrl(url) then (lb, None) else
      (EnableNode(AddNode(lb, url), url).0, Some(url !in lb.nodes))
  }

  // ---------- the representation ----------

  /** Flags of one node: enabled iff there is no reason to disable; opening time iff Open; claim iff HalfOpen. */
  predicate NodeOk(a: Addr, n: Node) {
    && n.addr == a
    && (n.enabled <==> n.reason.None?)
    && (n.circuit.Open? <==> n.openedAt.Some?)
    && (n.attempted <==> n.circuit.HalfOpen?)
  }

  ghost predicate NoDup(list: seq<Addr>) {
    forall i, j :: 0 <= i < j < |list| ==> list[i] != list[j]
  }

  /** The enabled list holds exactly the enabled nodes. */
  ghost predicate Rep(lb: Balancer) {
    && (forall a :: a in lb.nodes ==> NodeOk(a, lb.nodes[a]))
    && (forall a :: a in lb.enabled <==> a in lb.nodes && lb.nodes[a].enabled)
  }

  lemma {:induction false} WithoutIs(list: seq<Addr>, addr: Addr)
    ensures forall a :: a in Without(list, addr) <==> a in list && a != addr
    ensures NoDup(list) ==> NoDup(Without(list, addr))
  {
    if list != [] {
      var front, last := list[..|list| - 1], list[|list| - 1];
      WithoutIs(front, addr);
      assert list == front + [last];
      assert last in front ==> !NoDup(list);
    }
  }

  lemma {:induction false} PickKeepsRep(lb: Balancer, left: nat, now: Time)
    requires Rep(lb) && lb.enabled != []
    ensures Rep(Pick(lb, left, now).0)
    ensures Pick(lb, left, now).0.enabled == lb.enabled
    decreases left
  {
    if left > 0 {
      var lb' := lb.(index := (lb.index + 1) % |lb.enabled|);
      PickKeepsRep(lb', left - 1, now);
    }
  }

  datatype Op =
    | Next(now: Time)
    | Disable(addr: Addr)
    | Enable(addr: Addr)
    | AutoDisable(addr: Addr)
    | AutoEnable(addr: Addr)
    | Update(addr: Addr, status: Health, now: Time)
    | Timeouts(now: Time)
    | Add(addr: Addr)
    | Remove(addr: Addr)
    | Register(url: string)

  function Apply(lb: Balancer, op: Op): Balancer {
    match op
    case Next(now) => NextNode(lb, now).0
    case Disable(a) => DisableNode(lb, a).0
    case Enable(a) => EnableNode(lb, a).0
    case AutoDisable(a) => AutoDisableNode(lb, a).0
    case AutoEnable(a) => AutoEnableNode(lb, a).0
    case Update(a, status, now) => UpdateHealth(lb, a, status, now)
    case Timeouts(now) => CheckTimeouts(lb, now)
    case Add(a) => AddNode(lb, a)
    case Remove(a) => RemoveNode(lb, a)
    case Register(url) => RegisterNode(lb, url).0
  }

  function After(lb: Balancer, ops: seq<Op>): Balancer {
    if ops == [] then lb else Apply(After(lb, ops[..|ops| - 1]), ops[|ops| - 1])
  }

  lemma ReplaceKeepsRep(lb: Balancer, a: Addr, n: Node)
    requires Rep(lb) && a in lb.nodes && NodeOk(a, n) && n.enabled == lb.nodes[a].enabled
    ensures Rep(lb.(nodes := lb.nodes[a := n]))
  {
  }

  lemma SwitchOffKeepsRep(lb: Balancer, a: Addr, n: Node)
    requires Rep(lb) && NodeOk(a, n) && !n.enabled
    ensures var lb' := lb.(nodes := lb.nodes[a := n], enabled := Without(lb.enabled, a));
      Rep(lb') && (NoDup(lb.enabled) ==> NoDup(lb'.enabled))
  {
    WithoutIs(lb.enabled, a);
  }

  lemma SwitchOnKeepsRep(lb: Balancer, a: Addr, n: Node)
    requires Rep(lb) && NodeOk(a, n) && n.enabled
    ensures var lb' := lb.(nodes := lb.nodes[a := n], enabled := With(lb.enabled, a));
      Rep(lb') && (NoDup(lb.enabled) ==> NoDup(lb'.enabled))
  {
  }

  lemma AddKeepsRep(lb: Balancer, a: Addr)
    requires Rep(lb)
    ensures Rep(AddNode(lb, a)) && (NoDup(lb.enabled) ==> NoDup(AddNode(lb, a).enabled))
  {
    if a !in lb.nodes {
      SwitchOnKeepsRep(lb, a, NewNode(a));
    }
  }

  lemma EnableKeepsRep(lb: Balancer, a: Addr)
    requires Rep(lb)
    ensures Rep(EnableNode(lb, a).0) && (NoDup(lb.enabled) ==> NoDup(EnableNode(lb, a).0.enabled))
  {
    if a in lb.nodes {
      SwitchOnKeepsRep(lb, a, Enabled(lb.nodes[a]));
    }
  }

  lemma RegisterKeepsRep(lb: Balancer, url: string)
    requires Rep(lb)
    ensures Rep(RegisterNode(lb, url).0) && (NoDup(lb.enabled) ==> NoDup(RegisterNode(lb, url).0.enabled))
  {
    hide Rep, NoDup, AddNode, EnableNode, IsUrl;
    AddKeepsRep(lb, url);
    EnableKeepsRep(AddNode(lb, url), url);
  }

  lemma DisableKeepsRep(lb: Balancer, a: Addr)
    requires Rep(lb)
    ensures Rep(DisableNode(lb, a).0) && (NoDup(lb.enabled) ==> NoDup(DisableNode(lb, a).0.enabled))
    ensures Rep(AutoDisableNode(lb, a).0) && (NoDup(lb.enabled) ==> NoDup(AutoDisableNode(lb, a).0.enabled))
  {
    hide Without;
    if a in lb.nodes {
      SwitchOffKeepsRep(lb, a, lb.nodes[a].(enabled := false, reason := Some(Manual)));
      SwitchOffKeepsRep(lb, a, lb.nodes[a].(enabled := false, reason := Some(HealthCheck)));
    }
  }

  lemma UpdateKeepsRep(lb: Balancer, a: Addr, status: Health, now: Time)
    requires Rep(lb)
    ensures Rep(UpdateHealth(lb, a, status, now)) && UpdateHealth(lb, a, status, now).enabled == lb.enabled
  {
    if a in lb.nodes {
      ReplaceKeepsRep(lb, a, Checked(lb.config, lb.nodes[a], status, now));
    }
  }

  lemma RemoveKeepsRep(lb: Balancer, a: Addr)
    requires Rep(lb)
    ensures Rep(RemoveNode(lb, a)) && (NoDup(lb.enabled) ==> NoDup(RemoveNode(lb, a).enabled))
  {
    hide Without;
    WithoutIs(lb.enabled, a);
  }

  lemma NextKeepsRep(lb: Balancer, now: Time)
    requires Rep(lb)
    ensures Rep(NextNode(lb, now).0) && NextNode(lb, now).0.enabled == lb.enabled
  {
    if lb.enabled != [] {
      PickKeepsRep(lb, |lb.enabled|, now);
    }
  }

  lemma AutoEnableKeepsRep(lb: Balancer, a: Addr)
    requires Rep(lb)
    ensures Rep(AutoEnableNode(lb, a).0) && (NoDup(lb.enabled) ==> NoDup(AutoEnableNode(lb, a).0.enabled))
  {
    EnableKeepsRep(lb, a);
  }

  lemma OpKeepsRep(lb: Balancer, op: Op)
    requires Rep(lb)
    ensures Rep(Apply(lb, op))
    ensures NoDup(lb.enabled) ==> NoDup(Apply(lb, op).enabled)
  {
    hide Rep, NoDup, NextNode, DisableNode, EnableNode, AutoDisableNode, AutoEnableNode;
    hide UpdateHealth, AddNode, RemoveNode, RegisterNode;
    match op
    case Next(now) => NextKeepsRep(lb, now);
    case Disable(a) => DisableKeepsRep(lb, a);
    case Enable(a) => EnableKeepsRep(lb, a);
    case AutoDisable(a) => DisableKeepsRep(lb, a);
    case AutoEnable(a) => AutoEnableKeepsRep(lb, a);
    case Update(a, status, now) => UpdateKeepsRep(lb, a, status, now);
    case Timeouts(now) => TimeoutsKeepRep(lb, now);
    case Add(a) => AddKeepsRep(lb, a);
    case Remove(a) => RemoveKeepsRep(lb, a);
    case Register(url) => RegisterKeepsRep(lb, url);
  }

  lemma TimeoutsKeepRep(lb: Balancer, now: Time)
    requires Rep(lb)
    ensures Rep(CheckTimeouts(lb, now))
  {
    hide ShouldAttemptHalfOpen;
  }

  lemma {:induction false} AfterKeepsRep(lb: Balancer, ops: seq<Op>)
    requires Rep(lb)
    ensures Rep(After(lb, ops))
  {
    hide Rep, Apply;
    if ops != [] {
      AfterKeepsRep(lb, ops[..|ops| - 1]);
      OpKeepsRep(After(lb, ops[..|ops| - 1]), ops[|ops| - 1]);
    }
  }

  /** Over every sequence of operations on a new balancer the map, the list, the flags and the breaker stay consistent;
      the list has no duplicates if the addresses it was made from were distinct. */
  lemma {:induction false} RepAlways(addrs: seq<Addr>, config: Config, ops: seq<Op>)
    ensures Rep(After(New(addrs, config), ops))
    ensures NoDup(addrs) ==> NoDup(After(New(addrs, config), ops).enabled)
  {
    if ops != [] {
      RepAlways(addrs, config, ops[..|ops| - 1]);
      OpKeepsRep(After(New(addrs, config), ops[..|ops| - 1]), ops[|ops| - 1]);
    }
  }

  // ---------- selections ----------

  lemma {:induction false} PickIsSelectable(lb: Balancer, left: nat, now: Time)
    requires lb.enabled != []
    ensures var (lb', pick) := Pick(lb, left, now);
      && lb'.config == lb.config && lb'.enabled == lb.enabled
      && (left > 0 ==> lb'.index < |lb.enabled|)
      && match pick
         case None => lb'.nodes == lb.nodes
         case Some(a) =>
           && a in lb.enabled && Selectable(lb.nodes, a)
           && lb'.nodes == lb.nodes[a := Selected(lb.nodes[a], now)]
    decreases left
  {
    if left > 0 {
      PickIsSelectable(lb.(index := (lb.index + 1) % |lb.enabled|), left - 1, now);
    }
  }

  /** A selection only counts itself; nothing else changes but the index. */
  lemma NextIsSelectable(lb: Balancer, now: Time)
    ensures var (lb', pick) := NextNode(lb, now);
      && lb'.config == lb.config && lb'.enabled == lb.enabled
      && (lb.enabled != [] ==> lb'.index < |lb.enabled|)
      && match pick
         case None => lb'.nodes == lb.nodes
         case Some(a) =>
           && a in lb.enabled && Selectable(lb.nodes, a)
           && lb'.nodes == lb.nodes[a := Selected(lb.nodes[a], now)]
  {
    if lb.enabled != [] {
      PickIsSelectable(lb, |lb.enabled|, now);
    }
  }
}
