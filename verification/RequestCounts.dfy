/** No request is lost or counted twice over the whole balancer. */
module RequestCounts {
  import opened Breaker
  import opened Balancing

  function Count(nodes: map<Addr, Node>, a: Addr): nat {
    if a in nodes then nodes[a].requests else 0
  }

  ghost function SumOver(nodes: map<Addr, Node>, addrs: set<Addr>): nat {
    if addrs == {} then 0 else
      var a :| a in addrs;
      Count(nodes, a) + SumOver(nodes, addrs - {a})
  }

  /** Requests counted on all present nodes. */
  ghost function TotalRequests(nodes: map<Addr, Node>): nat {
    SumOver(nodes, nodes.Keys)
  }

  lemma {:induction false} SumWithout(nodes: map<Addr, Node>, addrs: set<Addr>, a: Addr)
    requires a in addrs
    ensures SumOver(nodes, addrs) == Count(nodes, a) + SumOver(nodes, addrs - {a})
    decreases addrs
  {
    var b :| b in addrs && SumOver(nodes, addrs) == Count(nodes, b) + SumOver(nodes, addrs - {b});
    if b != a {
      SumWithout(nodes, addrs - {b}, a);
      SumWithout(nodes, addrs - {a}, b);
      assert addrs - {b} - {a} == addrs - {a} - {b};
    }
  }

  lemma {:induction false} SameSum(nodes: map<Addr, Node>, nodes': map<Addr, Node>, addrs: set<Addr>)
    requires forall a :: a in addrs ==> Count(nodes, a) == Count(nodes', a)
    ensures SumOver(nodes, addrs) == SumOver(nodes', addrs)
    decreases addrs
  {
    if addrs != {} {
      var a :| a in addrs;
      SumWithout(nodes, addrs, a);
      SumWithout(nodes', addrs, a);
      SameSum(nodes, nodes', addrs - {a});
    }
  }

  /** Addresses without a node count nothing. */
  lemma {:induction false} SumOverMore(nodes: map<Addr, Node>, addrs: set<Addr>)
    requires nodes.Keys <= addrs
    ensures SumOver(nodes, addrs) == TotalRequests(nodes)
    decreases addrs
  {
    if addrs != nodes.Keys {
      var a :| a in addrs && a !in nodes;
      SumWithout(nodes, addrs, a);
      SumOverMore(nodes, addrs - {a});
    }
  }

  /** What one operation does to the counts. */
  function Gain(lb: Balancer, op: Op, a: Addr): int {
    if op.Next? && NextNode(lb, op.now).1 == Some(a) then 1
    else if op.Remove? && op.addr == a then 0 - Count(lb.nodes, a)
    else 0
  }

  lemma CountStep(lb: Balancer, op: Op, a: Addr)
    ensures Count(Apply(lb, op).nodes, a) == Count(lb.nodes, a) + Gain(lb, op, a)
  {
    hide Without, With, Pick, ShouldAttemptHalfOpen;
    if op.Next? {
      hide NextNode;
      NextIsSelectable(lb, op.now);
    }
  }

  /** Selections of `a` in a run since the node of that address was last created. */
  function Selections(lb: Balancer, ops: seq<Op>, a: Addr): nat {
    if ops == [] then Count(lb.nodes, a) else
      var before, op := ops[..|ops| - 1], ops[|ops| - 1];
      if op.Next? && NextNode(After(lb, before), op.now).1 == Some(a) then Selections(lb, before, a) + 1
      else if op.Remove? && op.addr == a then 0
      else Selections(lb, before, a)
  }

  /** Every request is counted, once, on the node that was selected for it. */
  lemma {:induction false} RequestsAreSelections(lb: Balancer, ops: seq<Op>, a: Addr)
    ensures Selections(lb, ops, a) == Count(After(lb, ops).nodes, a)
  {
    hide Apply, NextNode, Count;
    if ops != [] {
      var before, op := ops[..|ops| - 1], ops[|ops| - 1];
      RequestsAreSelections(lb, before, a);
      CountStep(After(lb, before), op, a);
    }
  }

  /** The address whose count an operation may change. */
  function Changed(lb: Balancer, op: Op): Option<Addr> {
    match op
    case Next(now) => NextNode(lb, now).1
    case Remove(a) => Some(a)
    case _ => None
  }

  lemma TotalStep(lb: Balancer, op: Op)
    ensures TotalRequests(Apply(lb, op).nodes) ==
            TotalRequests(lb.nodes) + (if Changed(lb, op).Some? then Gain(lb, op, Changed(lb, op).value) else 0)
  {
    hide Apply, SumOver, Count, NextNode;
    var nodes, nodes' := lb.nodes, Apply(lb, op).nodes;
    forall a ensures Count(nodes', a) == Count(nodes, a) + Gain(lb, op, a) {
      CountStep(lb, op, a);
    }
    var changed := if Changed(lb, op).Some? then {Changed(lb, op).value} else {};
    var addrs := nodes.Keys + nodes'.Keys + changed;
    SumOverMore(nodes, addrs);
    SumOverMore(nodes', addrs);
    if Changed(lb, op).Some? {
      var a := Changed(lb, op).value;
      SumWithout(nodes, addrs, a);
      SumWithout(nodes', addrs, a);
      SameSum(nodes, nodes', addrs - {a});
    } else {
      SameSum(nodes, nodes', addrs);
    }
  }

  /** Calls of `next_node` that found a node. */
  function Served(lb: Balancer, ops: seq<Op>): nat {
    if ops == [] then 0 else
      var before, op := ops[..|ops| - 1], ops[|ops| - 1];
      Served(lb, before) + (if op.Next? && NextNode(After(lb, before), op.now).1.Some? then 1 else 0)
  }

  /** Requests counted on nodes at the time of their removal. */
  function Retired(lb: Balancer, ops: seq<Op>): nat {
    if ops == [] then 0 else
      var before, op := ops[..|ops| - 1], ops[|ops| - 1];
      Retired(lb, before) + (if op.Remove? then Count(After(lb, before).nodes, op.addr) else 0)
  }

  /** Over every run, requests counted on the present nodes and on the nodes removed are the successful selections. */
  lemma {:induction false} RequestsConserved(lb: Balancer, ops: seq<Op>)
    ensures TotalRequests(After(lb, ops).nodes) + Retired(lb, ops) == TotalRequests(lb.nodes) + Served(lb, ops)
  {
    hide Apply, TotalRequests, NextNode, Count;
    if ops != [] {
      var before, op := ops[..|ops| - 1], ops[|ops| - 1];
      RequestsConserved(lb, before);
      TotalStep(After(lb, before), op);
    }
  }
}
