/** The two retry loops as loops: the client's, and the orchestrator's over a shared balancer. */
module Orchestrators {
  import opened Backoff
  import opened ClientRetry
  import opened Breaker
  import opened Forwarding
  import opened LoadBalancers
  import B = Balancing

  class MadrpcClient {
    const policy: RetryPolicy

    constructor (policy: RetryPolicy)
      ensures this.policy == policy
    {
      this.policy := policy;
    }

    /** `call`. */
    method CallMethod(replies: nat -> Reply, rolls: nat -> Roll)
      returns (outcome: Outcome, attempts: nat, slept: seq<nat>)
      ensures CallLog(outcome, attempts, slept) == Call(policy, replies, rolls)
    {
      hide TryCall, IsRetryable, Delay;
      attempts, slept := 0, [];
      var lastError: Option<MadrpcError> := None;
      for attempt := 1 to policy.maxAttempts + 1
        invariant attempt == 1 ==> slept == [] && attempts == 0 && lastError == None
        invariant attempt > 1 ==> attempts == attempt - 1 && lastError.Some?
        invariant attempt <= policy.maxAttempts ==>
                    var rest := CallFrom(policy, replies, rolls, attempt);
                    Call(policy, replies, rolls) == rest.(slept := slept + rest.slept)
        invariant attempt > 1 && attempt > policy.maxAttempts ==>
                    Call(policy, replies, rolls) == CallLog(Err(lastError.value), attempts, slept)
      {
        attempts := attempt;
        outcome := TryCall(replies(attempt));
        if outcome.Ok? {
          return;
        }
        if !IsRetryable(outcome.error) {
          return;
        }
        lastError := Some(outcome.error);
        if attempt < policy.maxAttempts {
          ghost var rest := CallFrom(policy, replies, rolls, attempt + 1);
          var delay := Delay(policy, attempt, rolls(attempt));
          assert slept + ([delay] + rest.slept) == slept + [delay] + rest.slept;
          slept := slept + [delay];
        }
      }
      outcome := Err(if lastError.Some? then lastError.value else Exhausted);
    }
  }

  class Orchestrator {
    const retry: RetryConfig
    const policy: RetryPolicy // of the clients it makes
    const balancer: LoadBalancer

    constructor (retry: RetryConfig, policy: RetryPolicy, balancer: LoadBalancer)
      ensures this.retry == retry && this.policy == policy && this.balancer == balancer
    {
      this.retry, this.policy, this.balancer := retry, policy, balancer;
    }

    /** `send_http_request`: a client of its own for every send. */
    method SendRequest(w: World, k: nat, a: Addr) returns (outcome: Outcome, ghost attempts: nat)
      ensures outcome == Send(policy, w, k, a).outcome && attempts == Send(policy, w, k, a).attempts
    {
      if !w.reachable(a) {
        return Err(Transport("Failed to create RPC client")), 0;
      }
      var client := new MadrpcClient(policy);
      var tries, slept;
      outcome, tries, slept := client.CallMethod(w.replies(k), w.rolls(k));
      attempts := tries;
    }

    /** `forward_request_jsonrpc`, with what others do to the balancer while no lock is held. */
    method ForwardRequest(w: World) returns (outcome: Outcome, picks: seq<Addr>, waits: seq<nat>)
      requires balancer.Owned()
      modifies balancer`nodes, balancer`enabled, balancer`index, balancer.nodes.Values
      ensures balancer.Owned() && fresh(balancer.nodes.Values - old(balancer.nodes.Values))
      ensures var l := Forward(retry, policy, w, old(balancer.View()));
              outcome == l.outcome && picks == l.picks && waits == l.waits && balancer.View() == l.lb
    {
      hide Send, NodeRetryable, B.NextNode, NextBackoff, B.After, ForwardFrom, Continues;
      StartsAll(Forward(retry, policy, w, balancer.View()));
      ghost var l := Forward(retry, policy, w, balancer.View());
      picks, waits := [], [];
      var backoff := retry.initial;
      for attempt := 0 to retry.maxRetries + 1
        invariant attempt <= retry.maxRetries
        invariant balancer.Owned() && fresh(balancer.nodes.Values - old(balancer.nodes.Values))
        invariant Continues(l, picks, waits, ForwardFrom(retry, policy, w, balancer.View(), backoff, attempt))
      {
        ghost var lb := balancer.View();
        OneAttempt(retry, policy, w, lb, backoff, attempt);
        ghost var here := ForwardFrom(retry, policy, w, lb, backoff, attempt);
        balancer.PerformAll(w.others(attempt));
        var pick := balancer.NextNode(w.now(attempt));
        if pick.None? {
          Ends(l, picks, waits, here);
          return Err(NoNode(retry, attempt)), picks, waits;
        }
        ghost var tries;
        outcome, tries := SendRequest(w, attempt, pick.value);
        if outcome.Err? && attempt < retry.maxRetries && NodeRetryable(outcome.error) {
          ghost var rest := ForwardFrom(retry, policy, w, balancer.View(), NextBackoff(retry, backoff), attempt + 1);
          GoesOn(l, picks, waits, here, pick.value, backoff, rest);
          picks, waits := picks + [pick.value], waits + [backoff];
          backoff := NextBackoff(retry, backoff);
        } else {
          Ends(l, picks, waits, here);
          picks := picks + [pick.value];
          return;
        }
      }
      assert false;
    }
  }

  /** The forwarding `l` is what has been done so far and then `rest`. */
  ghost predicate Continues(l: Log, picks: seq<Addr>, waits: seq<nat>, rest: Log) {
    l.outcome == rest.outcome && l.lb == rest.lb && l.picks == picks + rest.picks && l.waits == waits + rest.waits
  }

  lemma StartsAll(l: Log)
    ensures Continues(l, [], [], l)
  {
  }

  lemma GoesOn(l: Log, picks: seq<Addr>, waits: seq<nat>, here: Log, pick: Addr, backoff: nat, rest: Log)
    requires Continues(l, picks, waits, here) && here.outcome == rest.outcome && here.lb == rest.lb
    requires here.picks == [pick] + rest.picks && here.waits == [backoff] + rest.waits
    ensures Continues(l, picks + [pick], waits + [backoff], rest)
  {
  }

  lemma Ends(l: Log, picks: seq<Addr>, waits: seq<nat>, here: Log)
    requires Continues(l, picks, waits, here)
    ensures l.outcome == here.outcome && l.lb == here.lb
    ensures l.picks == picks + here.picks && (here.picks == [] ==> l.picks == picks)
    ensures here.waits == [] ==> l.waits == waits
  {
  }

  /** One turn of the loop. */
  lemma OneAttempt(c: RetryConfig, p: RetryPolicy, w: World, lb: B.Balancer, backoff: nat, k: nat)
    requires k <= c.maxRetries
    ensures var (lb', pick) := B.NextNode(B.After(lb, w.others(k)), w.now(k));
            var l := ForwardFrom(c, p, w, lb, backoff, k);
            if pick.None? then
              l.outcome == Err(NoNode(c, k)) && l.picks == [] && l.waits == [] && l.lb == lb'
            else
              var sent := Send(p, w, k, pick.value);
              if SendsAgain(c, sent.outcome, k) then
                var rest := ForwardFrom(c, p, w, lb', NextBackoff(c, backoff), k + 1);
                && l.outcome == rest.outcome && l.lb == rest.lb
                && l.picks == [pick.value] + rest.picks && l.waits == [backoff] + rest.waits
              else
                l.outcome == sent.outcome && l.picks == [pick.value] && l.waits == [] && l.lb == lb'
  {
    hide Send, NodeRetryable, B.NextNode, B.After, NextBackoff;
  }
}
