/** The orchestrator's retry loop around the client's. */
module Forwarding {
  import opened Arith
  import opened Backoff
  import opened ClientRetry
  import opened Breaker
  import opened Balancing
  import RR = RoundRobin

  /** `is_retryable_static`. */
  predicate NodeRetryable(e: MadrpcError) {
    e.AllNodesFailed? || e.NodeUnavailable?
  }

  /** What the world does during one forwarding: operations of others on the balancer before attempt `k` takes the
      write lock, the clock then, whether a client can be built for an address, and the replies and random draws of
      attempt `k`'s client. */
  datatype World = World(
    others: nat -> seq<Op>,
    now: nat -> Time,
    reachable: Addr -> bool,
    replies: nat -> nat -> Reply,
    rolls: nat -> nat -> Roll
  )

  /** `send_http_request`. */
  function Send(p: RetryPolicy, w: World, k: nat, a: Addr): CallLog {
    if w.reachable(a) then Call(p, w.replies(k), w.rolls(k))
    else CallLog(Err(Transport("Failed to create RPC client")), 0, [])
  }

  /** A forwarding: its result, the nodes it sent to, the client's call to each, its own waits, and the balancer. */
  datatype Log = Log(outcome: Outcome, picks: seq<Addr>, sends: seq<CallLog>, waits: seq<nat>, lb: Balancer)

  function NoNode(c: RetryConfig, attempt: nat): MadrpcError {
    if attempt < c.maxRetries then NodeUnavailable("No available nodes") else AllNodesFailed
  }

  predicate SendsAgain(c: RetryConfig, o: Outcome, attempt: nat) {
    o.Err? && attempt < c.maxRetries && NodeRetryable(o.error)
  }

  /** The loop of `forward_request_jsonrpc` from attempt `k`. */
  function ForwardFrom(c: RetryConfig, p: RetryPolicy, w: World, lb: Balancer, backoff: nat, k: nat): Log
    requires k <= c.maxRetries
    decreases c.maxRetries - k
  {
    var (lb', pick) := NextNode(After(lb, w.others(k)), w.now(k));
    if pick.None? then Log(Err(NoNode(c, k)), [], [], [], lb') else
      var sent := Send(p, w, k, pick.value);
      if SendsAgain(c, sent.outcome, k) then
        var rest := ForwardFrom(c, p, w, lb', NextBackoff(c, backoff), k + 1);
        rest.(picks := [pick.value] + rest.picks,
              sends := [sent] + rest.sends,
              waits := [backoff] + rest.waits)
      else Log(sent.outcome, [pick.value], [sent], [], lb')
  }

  function Forward(c: RetryConfig, p: RetryPolicy, w: World, lb: Balancer): Log {
    ForwardFrom(c, p, w, lb, c.initial, 0)
  }

  /** The shape of every forwarding from attempt `k` on. */
  ghost predicate Shaped(c: RetryConfig, p: RetryPolicy, w: World, l: Log, k: nat) {
    var n := |l.picks|;
    && k + n <= c.maxRetries + 1
    && Sent(p, w, l.picks, l.sends, k) && SentAgain(c, l.sends, |l.waits|, k) && Waited(c, l.waits, k)
    && (|l.waits| == n ==> k + n <= c.maxRetries && l.outcome == Err(NoNode(c, k + n)))
    && (|l.waits| != n ==>
          && n == |l.waits| + 1
          && l.outcome == Send(p, w, k + n - 1, l.picks[n - 1]).outcome
          && !SendsAgain(c, l.outcome, k + n - 1))
  }

  /** The sends of a shaped log, and which of them were followed by another. */
  ghost predicate Sent(p: RetryPolicy, w: World, picks: seq<Addr>, sends: seq<CallLog>, k: nat) {
    |sends| == |picks| && forall i :: 0 <= i < |picks| ==> sends[i] == Send(p, w, k + i, picks[i])
  }

  ghost predicate SentAgain(c: RetryConfig, sends: seq<CallLog>, n: nat, k: nat) {
    forall i :: 0 <= i < n && i < |sends| ==> SendsAgain(c, sends[i].outcome, k + i)
  }

  ghost predicate Waited(c: RetryConfig, waits: seq<nat>, k: nat) {
    forall i :: 0 <= i < |waits| ==> waits[i] == BackoffAt(c, k + i)
  }

  lemma SentMore(p: RetryPolicy, w: World, picks: seq<Addr>, sends: seq<CallLog>, k: nat, a: Addr)
    requires Sent(p, w, picks, sends, k + 1)
    ensures Sent(p, w, [a] + picks, [Send(p, w, k, a)] + sends, k)
  {
    hide Send;
    var picks', sends' := [a] + picks, [Send(p, w, k, a)] + sends;
    forall i | 0 <= i < |picks'| ensures sends'[i] == Send(p, w, k + i, picks'[i]) {
      assert i > 0 ==> sends'[i] == sends[i - 1] && picks'[i] == picks[i - 1];
    }
  }

  lemma SentAgainMore(c: RetryConfig, sends: seq<CallLog>, n: nat, k: nat, sent: CallLog)
    requires SentAgain(c, sends, n, k + 1) && SendsAgain(c, sent.outcome, k)
    ensures SentAgain(c, [sent] + sends, n + 1, k)
  {
    hide SendsAgain;
    var sends' := [sent] + sends;
    forall i | 0 <= i < n + 1 && i < |sends'| ensures SendsAgain(c, sends'[i].outcome, k + i) {
      assert i > 0 ==> sends'[i] == sends[i - 1];
    }
  }

  lemma WaitedMore(c: RetryConfig, waits: seq<nat>, k: nat)
    requires Waited(c, waits, k + 1)
    ensures Waited(c, [BackoffAt(c, k)] + waits, k)
  {
    hide BackoffAt;
    var waits' := [BackoffAt(c, k)] + waits;
    forall i | 0 <= i < |waits'| ensures waits'[i] == BackoffAt(c, k + i) {
      assert i > 0 ==> waits'[i] == waits[i - 1];
    }
  }

  lemma ShapedStep(c: RetryConfig, p: RetryPolicy, w: World, rest: Log, k: nat, a: Addr)
    requires Shaped(c, p, w, rest, k + 1) && SendsAgain(c, Send(p, w, k, a).outcome, k)
    ensures Shaped(c, p, w, rest.(
        picks := [a] + rest.picks,
        sends := [Send(p, w, k, a)] + rest.sends,
        waits := [BackoffAt(c, k)] + rest.waits
      ), k)
  {
    hide Send, BackoffAt, SendsAgain, NoNode, Sent, SentAgain, Waited;
    SentMore(p, w, rest.picks, rest.sends, k, a);
    SentAgainMore(c, rest.sends, |rest.waits|, k, Send(p, w, k, a));
    WaitedMore(c, rest.waits, k);
  }

  lemma {:induction false} ForwardShaped(c: RetryConfig, p: RetryPolicy, w: World, lb: Balancer, k: nat)
    requires k <= c.maxRetries
    ensures Shaped(c, p, w, ForwardFrom(c, p, w, lb, BackoffAt(c, k), k), k)
    decreases c.maxRetries - k
  {
    hide Send, After, NextNode, Shaped;
    var (lb', pick) := NextNode(After(lb, w.others(k)), w.now(k));
    if pick.Some? && SendsAgain(c, Send(p, w, k, pick.value).outcome, k) {
      ForwardShaped(c, p, w, lb', k + 1);
      ShapedStep(c, p, w, ForwardFrom(c, p, w, lb', BackoffAt(c, k + 1), k + 1), k, pick.value);
    } else {
      ShapedEnd(c, p, w, lb', pick, k);
    }
  }

  lemma ShapedEnd(c: RetryConfig, p: RetryPolicy, w: World, lb: Balancer, pick: Option<Addr>, k: nat)
    requires k <= c.maxRetries && (pick.Some? ==> !SendsAgain(c, Send(p, w, k, pick.value).outcome, k))
    ensures pick.None? ==> Shaped(c, p, w, Log(Err(NoNode(c, k)), [], [], [], lb), k)
    ensures pick.Some? ==>
              var sent := Send(p, w, k, pick.value);
              Shaped(c, p, w, Log(sent.outcome, [pick.value], [sent], [], lb), k)
  {
    hide Send;
  }

  // ---------- which failures lead to another node ----------

  /** The node answered, with an error code that puts the fault on itself. */
  predicate BlamesNode(reply: Reply) {
    reply.Http? && 200 <= reply.status < 300 && reply.body.Failure? && NodeFault(reply.body.code)
  }

  lemma BlamesNodeIs(reply: Reply)
    ensures BlamesNode(reply) <==> TryCall(reply).Err? && NodeRetryable(TryCall(reply).error)
    ensures BlamesNode(reply) ==> Retries(reply)
    ensures TryCall(reply) != Err(AllNodesFailed)
  {
  }

  /** A failed send goes to another node exactly when retries are left, the client used up all its attempts, and the
      last reply blames the node. So a node that cannot be reached is never failed over from. */
  lemma SendsAgainIff(c: RetryConfig, p: RetryPolicy, w: World, k: nat, a: Addr)
    requires p.maxAttempts > 0
    ensures SendsAgain(c, Send(p, w, k, a).outcome, k) <==>
            && k < c.maxRetries && w.reachable(a)
            && (forall j :: 1 <= j <= p.maxAttempts ==> Retries(w.replies(k)(j)))
            && BlamesNode(w.replies(k)(p.maxAttempts))
    ensures SendsAgain(c, Send(p, w, k, a).outcome, k) ==> Send(p, w, k, a).attempts == p.maxAttempts
    ensures Send(p, w, k, a).outcome != Err(AllNodesFailed)
    ensures Send(p, w, k, a).attempts <= p.maxAttempts
  {
    hide TryCall, NodeRetryable, BlamesNode, Call, IsRetryable;
    CannotConnect();
    if w.reachable(a) {
      CallEndsAtFirstSettled(p, w.replies(k), w.rolls(k));
      var l := Call(p, w.replies(k), w.rolls(k));
      BlamesNodeIs(w.replies(k)(l.attempts));
      assert !Retries(w.replies(k)(l.attempts)) || l.attempts == p.maxAttempts;
    }
  }

  lemma CannotConnect()
    ensures !NodeRetryable(Transport("Failed to create RPC client"))
  {
  }

  /** What every forwarding does, whatever the nodes answer and whatever others do to the balancer meanwhile: it moves
      on from a node only after that node used up the client's attempts and took the blame; it waits the iterated
      backoffs and no others; and it gives the last send's own result, or says that there was no node. */
  lemma ForwardingMeans(c: RetryConfig, p: RetryPolicy, w: World, lb: Balancer)
    requires p.maxAttempts > 0
    ensures var l := Forward(c, p, w, lb);
            var n := |l.picks|;
            && n <= c.maxRetries + 1 && |l.sends| == n && |l.waits| <= n
            && l.waits == Waits(c, |l.waits|)
            && (forall i :: 0 <= i < |l.waits| ==>
                  l.sends[i].attempts == p.maxAttempts && BlamesNode(w.replies(i)(p.maxAttempts)))
            && (forall i :: 0 <= i < n ==> l.sends[i] == Send(p, w, i, l.picks[i]))
            && (|l.waits| == n ==> l.outcome == Err(NoNode(c, n)))
            && (|l.waits| != n ==>
                  && n == |l.waits| + 1
                  && l.outcome == Send(p, w, n - 1, l.picks[n - 1]).outcome
                  && (n <= c.maxRetries ==> !(l.outcome.Err? && NodeRetryable(l.outcome.error))))
            && (l.outcome == Err(AllNodesFailed) <==> |l.waits| == n == c.maxRetries)
  {
    hide Send, BlamesNode, NodeRetryable, BackoffAt, ForwardFrom;
    ForwardShaped(c, p, w, lb, 0);
    assert BackoffAt(c, 0) == c.initial by { FirstBackoff(c); }
    var l := Forward(c, p, w, lb);
    forall i | 0 <= i < |l.picks| ensures l.sends[i] == Send(p, w, i, l.picks[i]) {
      assert 0 + i == i;
    }
    forall i | 0 <= i < |l.waits| && i < |l.picks|
      ensures l.sends[i].attempts == p.maxAttempts && BlamesNode(w.replies(i)(p.maxAttempts))
    {
      assert SendsAgain(c, Send(p, w, 0 + i, l.picks[i]).outcome, 0 + i);
      SendsAgainIff(c, p, w, i, l.picks[i]);
    }
    forall i | 0 <= i < |l.waits| ensures l.waits[i] == Waits(c, |l.waits|)[i] {
      assert l.waits[i] == BackoffAt(c, 0 + i);
    }
    if |l.waits| != |l.picks| {
      SendsAgainIff(c, p, w, |l.picks| - 1, l.picks[|l.picks| - 1]);
    }
  }

  // ---------- what the caller gets ----------

  /** A forwarding gives a value exactly if its last send reached a node, whose settling reply was a success status with
      a result, and it is that result. A node that no client can be made for gives a transport error; an error response
      is passed on as its own kind with its message; and without a node there is no reply at all. */
  lemma ForwardingAnswers(c: RetryConfig, p: RetryPolicy, w: World, lb: Balancer, v: Nullable)
    requires p.maxAttempts > 0
    ensures var l := Forward(c, p, w, lb);
            var n := |l.picks|;
            && |l.sends| == n
            && (l.outcome == Ok(v) ==> n > 0)
            && (|l.waits| == n ==> l.outcome.Err?)
            && (|l.waits| != n ==>
                  && n > 0
                  && (!w.reachable(l.picks[n - 1]) ==> l.outcome.Err? && l.outcome.error.Transport?)
                  && (w.reachable(l.picks[n - 1]) ==>
                        var r := w.replies(n - 1)(l.sends[n - 1].attempts);
                        && (l.outcome == Ok(v) <==> r.Http? && 200 <= r.status < 300 && r.body == ClientRetry.Answer(v))
                        && (Fails(r) ==> l.outcome.Err? && FailureIs(r.body.code, r.body.message, l.outcome.error))))
  {
    hide Forward, Call, BlamesNode, Waits, FailureIs, Transient, NodeRetryable;
    ForwardingMeans(c, p, w, lb);
    var l := Forward(c, p, w, lb);
    if |l.waits| != |l.picks| {
      var k := |l.picks| - 1;
      assert l.sends[k] == Send(p, w, k, l.picks[k]);
      if w.reachable(l.picks[k]) {
        CallAnswers(p, w.replies(k), w.rolls(k), v);
      }
    }
  }

  /** The balancer as attempt `k + i` of a forwarding finds it, having found `lb` before attempt `k`: after what
      others did and after the selections of the attempts before. */
  function Found(w: World, lb: Balancer, k: nat, i: nat): Balancer {
    if i == 0 then After(lb, w.others(k))
    else After(NextNode(Found(w, lb, k, i - 1), w.now(k + i - 1)).0, w.others(k + i))
  }

  lemma {:induction false} FoundLater(w: World, lb: Balancer, k: nat, i: nat)
    ensures Found(w, NextNode(Found(w, lb, k, 0), w.now(k)).0, k + 1, i) == Found(w, lb, k, i + 1)
  {
    hide After, NextNode;
    if i > 0 {
      FoundLater(w, lb, k, i - 1);
    }
  }

  /** What attempt `k + i` finds and what the forwarding leaves, for a log from attempt `k` on. */
  ghost predicate Follows(w: World, lb: Balancer, l: Log, k: nat, i: nat) {
    var n := |l.waits|;
    && (i < |l.picks| ==> NextNode(Found(w, lb, k, i), w.now(k + i)).1 == Some(l.picks[i]))
    && (n == |l.picks| ==> NextNode(Found(w, lb, k, n), w.now(k + n)).1 == None)
    && l.lb == NextNode(Found(w, lb, k, n), w.now(k + n)).0
  }

  lemma FollowsStep(w: World, lb: Balancer, rest: Log, k: nat, i: nat, a: Addr, sent: CallLog, wait: nat)
    requires var (lb', pick) := NextNode(Found(w, lb, k, 0), w.now(k));
             pick == Some(a) && Follows(w, lb', rest, k + 1, if i > 0 then i - 1 else 0)
    ensures Follows(w, lb,
                    rest.(picks := [a] + rest.picks, sends := [sent] + rest.sends, waits := [wait] + rest.waits), k, i)
  {
    hide NextNode, Found;
    if i > 0 {
      FoundLater(w, lb, k, i - 1);
      assert k + 1 + (i - 1) == k + i;
      assert i < |rest.picks| + 1 ==> ([a] + rest.picks)[i] == rest.picks[i - 1];
    }
    FoundLater(w, lb, k, |rest.waits|);
    assert k + 1 + |rest.waits| == k + (|rest.waits| + 1);
  }

  lemma {:induction false} SelectionsFrom(
      c: RetryConfig, p: RetryPolicy, w: World, lb: Balancer, backoff: nat, k: nat, i: nat)
    requires k <= c.maxRetries
    ensures Follows(w, lb, ForwardFrom(c, p, w, lb, backoff, k), k, i)
    decreases c.maxRetries - k
  {
    hide After, NextNode, Send, NodeRetryable, NextBackoff, NoNode, Follows;
    var (lb', pick) := NextNode(Found(w, lb, k, 0), w.now(k));
    if pick.Some? && SendsAgain(c, Send(p, w, k, pick.value).outcome, k) {
      var rest := ForwardFrom(c, p, w, lb', NextBackoff(c, backoff), k + 1);
      SelectionsFrom(c, p, w, lb', NextBackoff(c, backoff), k + 1, if i > 0 then i - 1 else 0);
      FollowsStep(w, lb, rest, k, i, pick.value, Send(p, w, k, pick.value), backoff);
    } else {
      FollowsEnd(w, lb, ForwardFrom(c, p, w, lb, backoff, k), k, i);
    }
  }

  lemma FollowsEnd(w: World, lb: Balancer, l: Log, k: nat, i: nat)
    requires var (lb', pick) := NextNode(Found(w, lb, k, 0), w.now(k));
             && l.waits == [] && l.lb == lb'
             && l.picks == if pick.Some? then [pick.value] else []
    ensures Follows(w, lb, l, k, i)
  {
    hide NextNode, Found;
  }

  /** Every node a forwarding sends to is the balancer's next node at that moment, whatever others did to it before;
      it stops for want of a node exactly if the balancer has none; and the balancer is left as after the last
      selection. */
  lemma SendsToNextNodes(c: RetryConfig, p: RetryPolicy, w: World, lb: Balancer, i: nat)
    ensures var l := Forward(c, p, w, lb);
            var last := |l.waits|;
            && (i < |l.picks| ==> NextNode(Found(w, lb, 0, i), w.now(i)).1 == Some(l.picks[i]))
            && (last == |l.picks| <==> NextNode(Found(w, lb, 0, last), w.now(last)).1 == None)
            && l.lb == NextNode(Found(w, lb, 0, last), w.now(last)).0
  {
    hide ForwardFrom, NextNode, Found, BackoffAt, Sent, SentAgain, Waited;
    var l := Forward(c, p, w, lb);
    SelectionsFrom(c, p, w, lb, c.initial, 0, i);
    FirstBackoff(c);
    ForwardShaped(c, p, w, lb, 0);
    if |l.waits| != |l.picks| {
      SelectionsFrom(c, p, w, lb, c.initial, 0, |l.waits|);
    }
  }

  // ---------- totals over both loops ----------

  /** HTTP requests made by the clients' calls. */
  function Requests(sends: seq<CallLog>): nat {
    if sends == [] then 0 else Requests(sends[..|sends| - 1]) + sends[|sends| - 1].attempts
  }

  /** Time that the clients' calls slept between their attempts. */
  function Slept(sends: seq<CallLog>): nat {
    if sends == [] then 0 else Slept(sends[..|sends| - 1]) + Sum(sends[|sends| - 1].slept)
  }

  /** The longest delay between two attempts of a client. */
  function MaxDelay(p: RetryPolicy): nat {
    p.max + p.max / 10
  }

  lemma {:induction false} SumBounded(s: seq<nat>, each: nat)
    requires forall i :: 0 <= i < |s| ==> s[i] <= each
    ensures Sum(s) <= |s| * each
  {
    if s != [] {
      SumBounded(s[..|s| - 1], each);
      OneMoreCap(|s|, each);
    }
  }

  lemma DelayBounded(p: RetryPolicy, attempt: nat, roll: Roll)
    requires attempt > 0 && p.max <= U64_MAX
    ensures Delay(p, attempt, roll) <= MaxDelay(p)
  {
    hide Delay, Capped;
    DelaysAre(p, attempt, Delay(p, attempt, roll));
    DivLe(Capped(p.base, p.multiplier, p.max, attempt - 1), p.max, 10);
  }

  lemma CallSleepsBounded(p: RetryPolicy, replies: nat -> Reply, rolls: nat -> Roll)
    requires p.maxAttempts > 0 && p.max <= U64_MAX
    ensures var l := Call(p, replies, rolls);
            && l.attempts <= p.maxAttempts && |l.slept| <= p.maxAttempts - 1
            && forall i :: 0 <= i < |l.slept| ==> l.slept[i] <= MaxDelay(p)
  {
    hide *;
    CallEndsAtFirstSettled(p, replies, rolls);
    var l := Call(p, replies, rolls);
    forall i | 0 <= i < |l.slept| ensures l.slept[i] <= MaxDelay(p) {
      assert l.slept[(i + 1) - 1] == Delay(p, i + 1, rolls(i + 1));
      DelayBounded(p, i + 1, rolls(i + 1));
    }
  }

  lemma SleptBounded(slept: seq<nat>, count: nat, each: nat)
    requires |slept| <= count && forall i :: 0 <= i < |slept| ==> slept[i] <= each
    ensures Sum(slept) <= count * each
  {
    hide *;
    SumBounded(slept, each);
    TimesMono(each, |slept|, count);
  }

  /** One send makes at most the client's attempts, and sleeps between them for at most the longest delay each. */
  lemma SendBounded(p: RetryPolicy, w: World, k: nat, a: Addr)
    requires p.maxAttempts > 0 && p.max <= U64_MAX
    ensures Send(p, w, k, a).attempts <= p.maxAttempts
    ensures Sum(Send(p, w, k, a).slept) <= (p.maxAttempts - 1) * MaxDelay(p)
  {
    hide Call, Delay, MaxDelay, Sum;
    if w.reachable(a) {
      CallSleepsBounded(p, w.replies(k), w.rolls(k));
    }
    SleptBounded(Send(p, w, k, a).slept, p.maxAttempts - 1, MaxDelay(p));
  }

  lemma {:induction false} SendsBounded(sends: seq<CallLog>, requests: nat, slept: nat)
    requires forall i :: 0 <= i < |sends| ==> sends[i].attempts <= requests && Sum(sends[i].slept) <= slept
    ensures Requests(sends) <= |sends| * requests && Slept(sends) <= |sends| * slept
  {
    hide Sum;
    if sends != [] {
      SendsBounded(sends[..|sends| - 1], requests, slept);
      OneMoreCap(|sends|, requests);
      OneMoreCap(|sends|, slept);
    }
  }

  lemma OwnWaitsBounded(c: RetryConfig, n: nat)
    requires n <= c.maxRetries
    ensures Sum(Waits(c, n)) <= c.maxRetries * Max(c.initial, c.max)
  {
    hide Waits, Sum;
    var cap := Max(c.initial, c.max);
    WaitsBounded(c, n);
    if n > 0 {
      TimesMono(n - 1, c.max, cap);
      OneMoreCap(n, cap);
      TimesMono(cap, n, c.maxRetries);
    } else {
      NoWaits(c);
    }
  }

  lemma NoWaits(c: RetryConfig)
    ensures Sum(Waits(c, 0)) == 0
  {
  }

  /** The bounds of one send hold for every send of a forwarding. */
  lemma EverySendBounded(c: RetryConfig, p: RetryPolicy, w: World, lb: Balancer)
    requires p.maxAttempts > 0 && p.max <= U64_MAX
    ensures var l := Forward(c, p, w, lb);
            && |l.sends| <= c.maxRetries + 1
            && forall i :: 0 <= i < |l.sends| ==>
                 l.sends[i].attempts <= p.maxAttempts && Sum(l.sends[i].slept) <= (p.maxAttempts - 1) * MaxDelay(p)
  {
    hide Send, Forward, Sum, Waits, MaxDelay, NodeRetryable, BlamesNode;
    ForwardingMeans(c, p, w, lb);
    var l := Forward(c, p, w, lb);
    forall i | 0 <= i < |l.sends|
      ensures l.sends[i].attempts <= p.maxAttempts && Sum(l.sends[i].slept) <= (p.maxAttempts - 1) * MaxDelay(p)
    {
      SendBounded(p, w, i, l.picks[i]);
    }
  }

  lemma SendTotals(sends: seq<CallLog>, count: nat, requests: nat, slept: nat)
    requires |sends| <= count
    requires forall i :: 0 <= i < |sends| ==> sends[i].attempts <= requests && Sum(sends[i].slept) <= slept
    ensures Requests(sends) <= count * requests && Slept(sends) <= count * slept
  {
    hide Sum, Requests, Slept;
    SendsBounded(sends, requests, slept);
    TimesMono(requests, |sends|, count);
    TimesMono(slept, |sends|, count);
  }

  /** Totals over both loops: (retries + 1) x attempts HTTP requests; and, of waiting between nodes and between attempts
      together, retries x the larger of the first backoff and the cap, and for every send a longest client delay less
      often than attempts. */
  lemma TotalsBounded(c: RetryConfig, p: RetryPolicy, w: World, lb: Balancer)
    requires p.maxAttempts > 0 && p.max <= U64_MAX
    ensures var l := Forward(c, p, w, lb);
            && Requests(l.sends) <= (c.maxRetries + 1) * p.maxAttempts
            && Sum(l.waits) + Slept(l.sends)
               <= c.maxRetries * Max(c.initial, c.max) + (c.maxRetries + 1) * ((p.maxAttempts - 1) * MaxDelay(p))
  {
    hide *;
    var l := Forward(c, p, w, lb);
    ForwardingMeans(c, p, w, lb);
    WaitCount(c, p, w, lb);
    OwnWaitsBounded(c, |l.waits|);
    EverySendBounded(c, p, w, lb);
    TimesMono(MaxDelay(p), 0, p.maxAttempts - 1);
    SendTotals(l.sends, c.maxRetries + 1, p.maxAttempts, (p.maxAttempts - 1) * MaxDelay(p));
  }

  lemma WaitCount(c: RetryConfig, p: RetryPolicy, w: World, lb: Balancer)
    ensures |Forward(c, p, w, lb).waits| <= c.maxRetries
  {
    hide Send, ForwardFrom, BackoffAt;
    FirstBackoff(c);
    ForwardShaped(c, p, w, lb, 0);
  }

  // ---------- failover ----------

  /** Forwarding leaves the balancer consistent, whatever others do to it meanwhile. */
  lemma {:induction false} ForwardKeepsRep(c: RetryConfig, p: RetryPolicy, w: World, lb: Balancer, backoff: nat, k: nat)
    requires k <= c.maxRetries && Rep(lb)
    ensures Rep(ForwardFrom(c, p, w, lb, backoff, k).lb)
    decreases c.maxRetries - k
  {
    hide Rep, After, NextNode, Send, NodeRetryable;
    AfterKeepsRep(lb, w.others(k));
    var before := After(lb, w.others(k));
    OpKeepsRep(before, Next(w.now(k)));
    var (lb', pick) := NextNode(before, w.now(k));
    assert Apply(before, Next(w.now(k))) == lb';
    if pick.Some? && SendsAgain(c, Send(p, w, k, pick.value).outcome, k) {
      ForwardKeepsRep(c, p, w, lb', NextBackoff(c, backoff), k + 1);
    }
  }

  ghost predicate Undisturbed(w: World) {
    forall k: nat :: w.others(k) == []
  }

  function Clock(w: World, k: nat, n: nat): (times: seq<Time>)
    ensures |times| == n
  {
    seq(n, i requires 0 <= i < n => w.now(k + i))
  }

  lemma {:induction false} PicksAreCalls(
      c: RetryConfig, p: RetryPolicy, w: World, lb: Balancer, backoff: nat, k: nat, i: nat)
    requires k <= c.maxRetries && Undisturbed(w)
    requires i < |ForwardFrom(c, p, w, lb, backoff, k).picks|
    ensures i < c.maxRetries + 1 - k
    ensures RR.Calls(lb, Clock(w, k, c.maxRetries + 1 - k))[i] == Some(ForwardFrom(c, p, w, lb, backoff, k).picks[i])
    decreases c.maxRetries - k
  {
    hide NextNode, Send, NodeRetryable, NextBackoff;
    assert After(lb, w.others(k)) == lb;
    var (lb', pick) := NextNode(lb, w.now(k));
    var times := Clock(w, k, c.maxRetries + 1 - k);
    if i > 0 {
      PicksAreCalls(c, p, w, lb', NextBackoff(c, backoff), k + 1, i - 1);
      assert times[1..] == Clock(w, k + 1, c.maxRetries - k);
    }
  }

  /** While nothing else touches the balancer, the sends of one forwarding go to pairwise different nodes until every
      selectable node has been sent to. */
  lemma FailsOverToOthers(c: RetryConfig, p: RetryPolicy, w: World, lb: Balancer, i: nat, j: nat)
    requires Undisturbed(w) && NoDup(lb.enabled)
    requires i < j < |Forward(c, p, w, lb).picks| && j < |RR.Queue(lb)|
    ensures Forward(c, p, w, lb).picks[i] != Forward(c, p, w, lb).picks[j]
  {
    hide RR.Queue, RR.Calls, ForwardFrom;
    var times := Clock(w, 0, c.maxRetries + 1);
    PicksAreCalls(c, p, w, lb, c.initial, 0, i);
    PicksAreCalls(c, p, w, lb, c.initial, 0, j);
    RR.CallsCycle(lb, times, i);
    RR.CallsCycle(lb, times, j);
    RR.QueueIs(lb);
    SmallMod(i, |RR.Queue(lb)|);
    SmallMod(j, |RR.Queue(lb)|);
  }

  /** With no selectable node the answer comes at once, without a wait and whatever the retries left, although it is
      the retryable error. */
  lemma NoNodeAnswersAtOnce(c: RetryConfig, p: RetryPolicy, w: World, lb: Balancer)
    requires forall a :: a in After(lb, w.others(0)).enabled ==> !Selectable(After(lb, w.others(0)).nodes, a)
    ensures var l := Forward(c, p, w, lb);
            l.outcome == Err(NoNode(c, 0)) && l.picks == [] && l.waits == [] && NodeRetryable(l.outcome.error)
  {
    RR.NoneIffAllOpen(After(lb, w.others(0)), w.now(0));
  }
}
