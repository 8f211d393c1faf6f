/** What is on record of a node: its last check, the status then found, and its last request. */
module NodeRecords {
  import opened Breaker
  import opened Balancing

  datatype Record = Record(lastCheck: Option<Time>, lastStatus: Option<Health>, lastRequest: Option<Time>)

  const NOTHING := Record(None, None, None)

  function OnRecord(lb: Balancer, a: Addr): Record {
    if a in lb.nodes then Record(lb.nodes[a].lastCheck, lb.nodes[a].lastStatus, lb.nodes[a].lastRequest) else NOTHING
  }

  /** The last health update of `a`, and the last selection of it, since the node of that address was created. */
  function Events(lb: Balancer, ops: seq<Op>, a: Addr): Record {
    if ops == [] then OnRecord(lb, a) else
      var before, op := ops[..|ops| - 1], ops[|ops| - 1];
      var earlier := Events(lb, before, a);
      if a !in After(lb, ops).nodes then NOTHING
      else if op.Update? && op.addr == a then earlier.(lastCheck := Some(op.now), lastStatus := Some(op.status))
      else if op.Next? && NextNode(After(lb, before), op.now).1 == Some(a) then earlier.(lastRequest := Some(op.now))
      else earlier
  }

  lemma RecordStep(lb: Balancer, op: Op, a: Addr)
    requires a in Apply(lb, op).nodes
    ensures OnRecord(Apply(lb, op), a) ==
            if op.Update? && op.addr == a then
              OnRecord(lb, a).(lastCheck := Some(op.now), lastStatus := Some(op.status))
            else if op.Next? && NextNode(lb, op.now).1 == Some(a) then OnRecord(lb, a).(lastRequest := Some(op.now))
            else OnRecord(lb, a)
  {
    hide Without, With, Pick, ShouldAttemptHalfOpen;
    if op.Next? {
      hide NextNode;
      NextIsSelectable(lb, op.now);
    }
  }

  /** Over every run of operations each node records its last health check with the status found and its last request,
      whatever else is done to it or to other nodes. */
  lemma {:induction false} RecordsAreLastEvents(lb: Balancer, ops: seq<Op>, a: Addr)
    ensures OnRecord(After(lb, ops), a) == Events(lb, ops, a)
  {
    hide Apply, NextNode;
    if ops != [] {
      var before, op := ops[..|ops| - 1], ops[|ops| - 1];
      RecordsAreLastEvents(lb, before, a);
      if a in After(lb, ops).nodes {
        RecordStep(After(lb, before), op, a);
      }
    }
  }
}
