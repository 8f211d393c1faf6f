/** What an operator's step does to a node and to the rotation, at every moment of the protocol. */
module OperatorSteps {
  import opened Breaker
  import opened Balancing
  import opened HealthProtocol

  // ---------- the order of the list ----------

  /** `b` is listed somewhere before `c`. */
  ghost predicate Before(list: seq<Addr>, b: Addr, c: Addr) {
    exists i, j :: 0 <= i < j < |list| && list[i] == b && list[j] == c
  }

  lemma BeforeMore(list: seq<Addr>, last: Addr, b: Addr, c: Addr)
    ensures Before(list + [last], b, c) <==> Before(list, b, c) || (b in list && c == last)
  {
    var all := list + [last];
    if i, j :| 0 <= i < j < |all| && all[i] == b && all[j] == c {
      if j < |list| {
        assert list[i] == b && list[j] == c;
      } else {
        assert list[i] == b;
      }
    }
    if i, j :| 0 <= i < j < |list| && list[i] == b && list[j] == c {
      assert all[i] == b && all[j] == c;
    }
    if b in list && c == last {
      var i :| 0 <= i < |list| && list[i] == b;
      assert all[i] == b && all[|list|] == c;
    }
  }

  /** Taking an address out keeps the others in order. */
  lemma {:induction false} WithoutKeepsOrder(list: seq<Addr>, a: Addr, b: Addr, c: Addr)
    requires b != a && c != a
    ensures Before(Without(list, a), b, c) <==> Before(list, b, c)
  {
    hide Before;
    if list == [] {
      assert Without(list, a) == list;
    } else {
      var front, last := list[..|list| - 1], list[|list| - 1];
      assert front + [last] == list;
      WithoutKeepsOrder(front, a, b, c);
      WithoutIs(front, a);
      BeforeMore(front, last, b, c);
      if last != a {
        BeforeMore(Without(front, a), last, b, c);
      } else {
        assert Without(list, a) == Without(front, a);
      }
    }
  }

  /** Every node but `a` is as it was, and listed in the same order; the round robin goes on from the same index. */
  ghost predicate OthersKept(lb: Balancer, lb': Balancer, a: Addr) {
    && (forall b :: b != a ==> (b in lb'.nodes <==> b in lb.nodes))
    && (forall b :: b != a && b in lb.nodes ==> b in lb'.nodes && lb'.nodes[b] == lb.nodes[b])
    && (forall b :: b != a ==> (b in lb'.enabled <==> b in lb.enabled))
    && (forall b, c :: b != a && c != a ==> (Before(lb'.enabled, b, c) <==> Before(lb.enabled, b, c)))
    && lb'.config == lb.config && lb'.index == lb.index
  }

  lemma TakenOut(lb: Balancer, nodes: map<Addr, Node>, a: Addr)
    requires nodes - {a} == lb.nodes - {a}
    ensures OthersKept(lb, lb.(nodes := nodes, enabled := Without(lb.enabled, a)), a)
  {
    hide Before;
    WithoutIs(lb.enabled, a);
    forall b | b != a ensures b in nodes <==> b in lb.nodes {
      assert b in nodes - {a} <==> b in lb.nodes - {a};
    }
    forall b | b != a && b in lb.nodes ensures nodes[b] == lb.nodes[b] {
      assert nodes[b] == (nodes - {a})[b] == (lb.nodes - {a})[b];
    }
    forall b, c | b != a && c != a ensures Before(Without(lb.enabled, a), b, c) <==> Before(lb.enabled, b, c) {
      WithoutKeepsOrder(lb.enabled, a, b, c);
    }
  }

  lemma PutIn(lb: Balancer, nodes: map<Addr, Node>, list: seq<Addr>, a: Addr)
    requires nodes - {a} == lb.nodes - {a} && (list == lb.enabled || list == lb.enabled + [a])
    ensures OthersKept(lb, lb.(nodes := nodes, enabled := list), a)
  {
    hide Before;
    forall b | b != a ensures b in nodes <==> b in lb.nodes {
      assert b in nodes - {a} <==> b in lb.nodes - {a};
    }
    forall b | b != a && b in lb.nodes ensures nodes[b] == lb.nodes[b] {
      assert nodes[b] == (nodes - {a})[b] == (lb.nodes - {a})[b];
    }
    forall b, c | b != a && c != a ensures Before(list, b, c) <==> Before(lb.enabled, b, c) {
      BeforeMore(lb.enabled, a, b, c);
    }
  }

  // ---------- the beginning ----------

  function Adds(addrs: seq<Addr>): seq<Op> {
    seq(|addrs|, i requires 0 <= i < |addrs| => Op.Add(addrs[i]))
  }

  lemma AddsStep(front: seq<Addr>, last: Addr, lb: Balancer)
    ensures After(lb, Adds(front + [last])) == AddNode(After(lb, Adds(front)), last)
  {
    hide AddNode;
    var addrs := front + [last];
    assert Adds(addrs)[..|addrs| - 1] == Adds(front) && Adds(addrs)[|addrs| - 1] == Op.Add(last);
  }

  lemma NewStep(front: seq<Addr>, last: Addr, config: Config)
    ensures New(front + [last], config).nodes == New(front, config).nodes[last := NewNode(last)]
    ensures last in front ==> New(front + [last], config).nodes == New(front, config).nodes
    ensures last in New(front, config).nodes <==> last in front
  {
    hide NewNode;
    assert forall a :: a in front + [last] <==> a in front || a == last;
  }

  lemma NoDupStep(front: seq<Addr>, last: Addr)
    ensures NoDup(front + [last]) <==> NoDup(front) && last !in front
  {
    var all := front + [last];
    assert forall i :: 0 <= i < |front| ==> all[i] == front[i];
    if NoDup(all) {
      assert forall i :: 0 <= i < |front| ==> all[i] != all[|front|];
      assert forall i, j :: 0 <= i < j < |front| ==> all[i] != all[j];
    }
  }

  /** The addresses of `addrs` once each; `addrs` itself if they are distinct. */
  ghost predicate ListOf(list: seq<Addr>, addrs: seq<Addr>) {
    && NoDup(list) && (forall a :: a in list <==> a in addrs)
    && (NoDup(addrs) ==> list == addrs)
  }

  lemma ListMore(list: seq<Addr>, front: seq<Addr>, last: Addr)
    requires ListOf(list, front)
    ensures ListOf(if last in front then list else list + [last], front + [last])
  {
    hide NoDup;
    NoDupStep(front, last);
    NoDupStep(list, last);
  }

  /** What adding addresses one by one to an empty balancer makes of it. */
  lemma {:induction false} AddedOneByOne(addrs: seq<Addr>, config: Config)
    ensures var lb := After(Balancer(map[], [], 0, config), Adds(addrs));
      && lb.nodes == New(addrs, config).nodes && lb.index == 0 && lb.config == config
      && ListOf(lb.enabled, addrs)
  {
    hide ListOf, Adds, After, New;
    var empty := Balancer(map[], [], 0, config);
    if addrs == [] {
      NothingAdded(empty);
    } else {
      var front, last := addrs[..|addrs| - 1], addrs[|addrs| - 1];
      assert front + [last] == addrs;
      AddedOneByOne(front, config);
      AddsStep(front, last, empty);
      NewStep(front, last, config);
      ListMore(After(empty, Adds(front)).enabled, front, last);
    }
  }

  lemma NothingAdded(lb: Balancer)
    ensures After(lb, Adds([])) == lb && New([], lb.config).nodes == map[] && ListOf([], [])
  {
  }

  /** A new balancer is an empty one to which its addresses are added, exactly if they are distinct: the list keeps an
      address that was given twice, where adding ignores it the second time. */
  lemma NewIsAddedIff(addrs: seq<Addr>, config: Config)
    ensures New(addrs, config) == After(Balancer(map[], [], 0, config), Adds(addrs)) <==> NoDup(addrs)
  {
    hide After, Adds;
    AddedOneByOne(addrs, config);
  }

  // ---------- the steps ----------

  /** Disabling a node takes it out of the rotation for the reason `Manual` and changes nothing else; from then on it is
      not selected. Disabling an unknown node changes nothing. */
  lemma DisableHoldsDown(p: System, a: Addr)
    requires Rep(p.lb)
    ensures DisableNode(p.lb, a).1 <==> a in p.lb.nodes
    ensures var q := Take(p, Step.Disable(a));
      if a !in p.lb.nodes then q == p else
        && HeldDown(q.lb, a) && a !in q.lb.enabled
        && q.lb.nodes[a] == p.lb.nodes[a].(enabled := false, reason := Some(Manual))
        && OthersKept(p.lb, q.lb, a) && q.phase == p.phase
  {
    hide OthersKept, Rep;
    if a in p.lb.nodes {
      DisableKeepsRep(p.lb, a);
      WithoutIs(p.lb.enabled, a);
      TakenOut(p.lb, Take(p, Step.Disable(a)).lb.nodes, a);
    }
  }

  /** So a node that is disabled at any moment of any run stays disabled, unlisted and unselected until it is reset by
      name, whatever the checker and the other operators do in between. */
  lemma DisabledUntilReset(p: System, a: Addr, steps: seq<Step>, now: Time)
    requires Rep(p.lb) && a in p.lb.nodes
    requires forall i :: 0 <= i < |steps| ==> !Resets(steps[i], a)
    ensures var q := Run(Take(p, Step.Disable(a)), steps);
      && a in q.lb.nodes && !q.lb.nodes[a].enabled && q.lb.nodes[a].reason == Some(Manual) && a !in q.lb.enabled
      && NextNode(q.lb, now).1 != Some(a)
  {
    hide Take, Run, OthersKept, Resets, NextNode;
    DisableHoldsDown(p, a);
    ManualDisableIsSticky(Take(p, Step.Disable(a)), steps, a);
    NextIsSelectable(Run(Take(p, Step.Disable(a)), steps).lb, now);
  }

  /** Enabling a node, whyever it was disabled, puts it into the rotation without failures; its circuit stays as it
      is. A node that was not listed goes to the end of the list. */
  lemma EnablePutsBack(p: System, a: Addr)
    requires Rep(p.lb)
    ensures EnableNode(p.lb, a).1 <==> a in p.lb.nodes
    ensures var q := Take(p, Step.Enable(a));
      if a !in p.lb.nodes then q == p else
        && a in q.lb.nodes
        && q.lb.nodes[a] == p.lb.nodes[a].(enabled := true, reason := None, failures := 0)
        && q.lb.enabled == (if a in p.lb.enabled then p.lb.enabled else p.lb.enabled + [a])
        && OthersKept(p.lb, q.lb, a) && q.phase == p.phase
  {
    hide OthersKept, Rep;
    if a in p.lb.nodes {
      PutIn(p.lb, Take(p, Step.Enable(a)).lb.nodes, Take(p, Step.Enable(a)).lb.enabled, a);
    }
  }

  /** The checker's own enabling undoes only a disable for health, and says so; everything else it leaves alone. */
  lemma AutoEnableUndoesHealthOnly(lb: Balancer, a: Addr)
    requires Rep(lb)
    ensures var (lb', answer) := AutoEnableNode(lb, a);
      if !(a in lb.nodes && lb.nodes[a].reason == Some(HealthCheck)) then lb' == lb && !answer else
        && answer && a in lb'.nodes && a !in lb.enabled
        && lb'.nodes[a] == lb.nodes[a].(enabled := true, reason := None, failures := 0)
        && lb'.enabled == lb.enabled + [a] && OthersKept(lb, lb', a)
  {
    hide OthersKept;
    if a in lb.nodes {
      PutIn(lb, EnableNode(lb, a).0.nodes, EnableNode(lb, a).0.enabled, a);
    }
  }

  /** Its disabling spares only a manual disable, and unknown nodes, and says so. */
  lemma AutoDisableSparesManual(lb: Balancer, a: Addr)
    requires Rep(lb)
    ensures var (lb', answer) := AutoDisableNode(lb, a);
      if a !in lb.nodes || lb.nodes[a].reason == Some(Manual) then lb' == lb && !answer else
        && answer && a in lb'.nodes && a !in lb'.enabled
        && lb'.nodes[a] == lb.nodes[a].(enabled := false, reason := Some(HealthCheck))
        && OthersKept(lb, lb', a)
  {
    hide OthersKept, Rep;
    WithoutIs(lb.enabled, a);
    if a in lb.nodes {
      TakenOut(lb, lb.nodes[a := lb.nodes[a].(enabled := false, reason := Some(HealthCheck))], a);
    }
  }

  /** Adding an unknown node makes it enabled, Closed and unused, at the end of the list. A known one is left alone. */
  lemma AddStartsFresh(p: System, a: Addr)
    requires Rep(p.lb)
    ensures var q := Take(p, Step.Add(a));
      if a in p.lb.nodes then q == p else
        && a in q.lb.nodes
        && q.lb.nodes[a] == Node(a, true, None, 0, None, None, Closed, None, 0, None, false)
        && q.lb.enabled == p.lb.enabled + [a] && a !in p.lb.enabled
        && OthersKept(p.lb, q.lb, a) && q.phase == p.phase
  {
    hide OthersKept;
    if a !in p.lb.nodes {
      PutIn(p.lb, Take(p, Step.Add(a)).lb.nodes, Take(p, Step.Add(a)).lb.enabled, a);
    }
  }

  /** Removing a node forgets it. */
  lemma RemoveForgets(p: System, a: Addr)
    ensures var q := Take(p, Step.Remove(a));
      a !in q.lb.nodes && a !in q.lb.enabled && OthersKept(p.lb, q.lb, a) && q.phase == p.phase
  {
    hide OthersKept;
    WithoutIs(p.lb.enabled, a);
    TakenOut(p.lb, Take(p, Step.Remove(a)).lb.nodes, a);
  }

  /** Registering a URL leaves it known, enabled, listed and without failures, whatever it was before, and tells whether
      it is new; a known node keeps its circuit and counts, a new one starts Closed. Anything that does not start with
      a scheme is refused. */
  lemma RegisterPutsIn(p: System, url: string)
    requires Rep(p.lb)
    ensures var q, answer := Take(p, Step.Register(url)), RegisterNode(p.lb, url).1;
      if !((|url| >= 7 && url[..7] == "http://") || (|url| >= 8 && url[..8] == "https://")) then
        q == p && answer == None
      else
        && answer == Some(url !in p.lb.nodes)
        && url in q.lb.nodes
        && q.lb.nodes[url] == (
             if url in p.lb.nodes then p.lb.nodes[url].(enabled := true, reason := None, failures := 0)
             else Node(url, true, None, 0, None, None, Closed, None, 0, None, false))
        && q.lb.enabled == (if url in p.lb.enabled then p.lb.enabled else p.lb.enabled + [url])
        && OthersKept(p.lb, q.lb, url) && q.phase == p.phase
  {
    hide OthersKept;
    assert IsUrl(url) <==> (|url| >= 7 && url[..7] == "http://") || (|url| >= 8 && url[..8] == "https://") by {
      SchemeIsPrefix(url);
    }
    if IsUrl(url) {
      PutIn(p.lb, Take(p, Step.Register(url)).lb.nodes, Take(p, Step.Register(url)).lb.enabled, url);
    }
  }

  lemma SchemeIsPrefix(url: string)
    ensures IsUrl(url) <==> (|url| >= 7 && url[..7] == "http://") || (|url| >= 8 && url[..8] == "https://")
  {
    assert |"http://"| == 7 && |"https://"| == 8;
  }
}
