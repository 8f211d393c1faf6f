/** Fairness of the round-robin loop, including its skipping of open circuits. */
module RoundRobin {
  import opened Arith
  import opened Breaker
  import opened Balancing

  function IfAvailable(nodes: map<Addr, Node>, a: Addr): seq<Addr> {
    if Selectable(nodes, a) then [a] else []
  }

  function Available(nodes: map<Addr, Node>, list: seq<Addr>): seq<Addr> {
    if list == [] then [] else IfAvailable(nodes, list[0]) + Available(nodes, list[1..])
  }

  function Turn(list: seq<Addr>, i: nat): (turn: seq<Addr>)
    requires i <= |list|
    ensures |turn| == |list|
  {
    list[i..] + list[..i]
  }

  /** The selectable nodes in the order in which the loop will come to them. */
  function Queue(lb: Balancer): seq<Addr> {
    if lb.enabled == [] then [] else Available(lb.nodes, Turn(lb.enabled, lb.index % |lb.enabled|))
  }

  lemma {:induction false} AvailableConcat(nodes: map<Addr, Node>, a: seq<Addr>, b: seq<Addr>)
    ensures Available(nodes, a + b) == Available(nodes, a) + Available(nodes, b)
  {
    hide IfAvailable;
    if a == [] {
      assert a + b == b;
    } else {
      AvailableConcat(nodes, a[1..], b);
      assert (a + b)[1..] == a[1..] + b;
      var first, s, t := IfAvailable(nodes, a[0]), Available(nodes, a[1..]), Available(nodes, b);
      assert first + (s + t) == first + s + t;
    }
  }

  lemma {:induction false} AvailableIs(nodes: map<Addr, Node>, list: seq<Addr>)
    ensures forall a :: a in Available(nodes, list) <==> a in list && Selectable(nodes, a)
    ensures NoDup(list) ==> NoDup(Available(nodes, list))
  {
    if list != [] {
      AvailableIs(nodes, list[1..]);
      assert list == [list[0]] + list[1..];
      assert NoDup(list) ==> list[0] !in list[1..];
    }
  }

  /** Being selected does not change who is selectable. */
  lemma {:induction false} AvailableAfter(nodes: map<Addr, Node>, nodes': map<Addr, Node>, list: seq<Addr>)
    requires forall a :: Selectable(nodes', a) <==> Selectable(nodes, a)
    ensures Available(nodes', list) == Available(nodes, list)
  {
    if list != [] {
      AvailableAfter(nodes, nodes', list[1..]);
    }
  }

  lemma TurnStep(list: seq<Addr>, i: nat)
    requires i < |list|
    ensures var next := (i + 1) % |list|;
      next < |list| && Turn(list, i)[0] == list[i] && Turn(list, next) == Turn(list, i)[1..] + [list[i]]
  {
    if i + 1 < |list| {
      SmallMod(i + 1, |list|);
      assert list[i..] == [list[i]] + list[i + 1..];
      assert list[..i + 1] == list[..i] + [list[i]];
      assert list[i + 1..] + (list[..i] + [list[i]]) == (list[i + 1..] + list[..i]) + [list[i]];
    } else {
      WrapsToZero(i, |list|);
      assert list[i..] == [list[i]] && list[0..] + list[..0] == list;
      assert list == list[..i] + [list[i]];
    }
  }

  lemma WrapsToZero(i: nat, n: nat)
    requires i + 1 == n
    ensures (i + 1) % n == 0
  {
  }

  /** Moving on by one node takes it from the front of the queue to the back. */
  lemma AvailableTurn(nodes: map<Addr, Node>, list: seq<Addr>, i: nat)
    requires i < |list|
    ensures var h, rest, next := list[i], Turn(list, i)[1..], (i + 1) % |list|;
      && next < |list|
      && Available(nodes, Turn(list, i)) == IfAvailable(nodes, h) + Available(nodes, rest)
      && Available(nodes, Turn(list, next)) == Available(nodes, rest) + IfAvailable(nodes, h)
  {
    TurnStep(list, i);
    AvailableConcat(nodes, Turn(list, i)[1..], [list[i]]);
    assert [list[i]][1..] == [];
  }

  /** The last `|list| - left` nodes of the current turn have been passed over. */
  ghost predicate Passed(nodes: map<Addr, Node>, list: seq<Addr>, i: nat, left: nat)
    requires i < |list|
  {
    left <= |list| && Available(nodes, Turn(list, i)[left..]) == []
  }

  lemma PassOne(nodes: map<Addr, Node>, list: seq<Addr>, i: nat, left: nat)
    requires i < |list| && 0 < left && Passed(nodes, list, i, left) && !Selectable(nodes, list[i])
    ensures (i + 1) % |list| < |list| && Passed(nodes, list, (i + 1) % |list|, left - 1)
  {
    TurnStep(list, i);
    var t, rest := Turn(list, i), Turn(list, i)[1..];
    assert (rest + [list[i]])[left - 1..] == rest[left - 1..] + [list[i]];
    assert rest[left - 1..] == t[left..];
    AvailableConcat(nodes, t[left..], [list[i]]);
  }

  ghost predicate Serves(lb: Balancer, left: nat, lb': Balancer, pick: Option<Addr>)
    requires lb.enabled != []
  {
    var q := Queue(lb);
    if q == [] then pick == None && lb'.index % |lb.enabled| == (lb.index + left) % |lb.enabled|
    else pick == Some(q[0]) && Queue(lb') == q[1..] + [q[0]]
  }

  function Advance(lb: Balancer): Balancer
    requires lb.enabled != []
  {
    lb.(index := (lb.index + 1) % |lb.enabled|)
  }

  lemma AdvanceIndex(lb: Balancer)
    requires lb.enabled != []
    ensures Advance(lb).index % |lb.enabled| == Advance(lb).index == (lb.index % |lb.enabled| + 1) % |lb.enabled|
  {
    ModEarly(lb.index, 1, |lb.enabled|);
    SmallMod((lb.index + 1) % |lb.enabled|, |lb.enabled|);
  }

  lemma AdvanceQueue(lb: Balancer)
    requires lb.enabled != []
    ensures var h := lb.enabled[lb.index % |lb.enabled|];
      exists rest ::
        Queue(lb) == IfAvailable(lb.nodes, h) + rest && Queue(Advance(lb)) == rest + IfAvailable(lb.nodes, h)
  {
    hide Available, Turn;
    var i := lb.index % |lb.enabled|;
    AvailableTurn(lb.nodes, lb.enabled, i);
    AdvanceIndex(lb);
    var rest := Available(lb.nodes, Turn(lb.enabled, i)[1..]);
    assert Queue(lb) == IfAvailable(lb.nodes, lb.enabled[i]) + rest;
    assert Queue(Advance(lb)) == rest + IfAvailable(lb.nodes, lb.enabled[i]);
  }

  lemma {:induction false} PickFromQueue(lb: Balancer, left: nat, now: Time)
    requires lb.enabled != [] && Passed(lb.nodes, lb.enabled, lb.index % |lb.enabled|, left)
    ensures Serves(lb, left, Pick(lb, left, now).0, Pick(lb, left, now).1)
    decreases left
  {
    hide Queue, Available, Turn, Passed;
    var i := lb.index % |lb.enabled|;
    var a := lb.enabled[i];
    if left == 0 {
      AllPassed(lb);
    } else {
      AdvanceQueue(lb);
      var rest :| Queue(lb) == IfAvailable(lb.nodes, a) + rest && Queue(Advance(lb)) == rest + IfAvailable(lb.nodes, a);
      if Selectable(lb.nodes, a) {
        SelectedQueue(Advance(lb), a, now);
      } else {
        PassOne(lb.nodes, lb.enabled, i, left);
        AdvanceIndex(lb);
        PickFromQueue(Advance(lb), left - 1, now);
        ModEarly(lb.index + 1, left - 1, |lb.enabled|);
        assert rest + [] == rest && [] + rest == rest;
      }
    }
  }

  lemma AllPassed(lb: Balancer)
    requires lb.enabled != [] && Passed(lb.nodes, lb.enabled, lb.index % |lb.enabled|, 0)
    ensures Queue(lb) == []
  {
    var t := Turn(lb.enabled, lb.index % |lb.enabled|);
    assert t[0..] == t;
  }

  lemma SelectedQueue(lb: Balancer, a: Addr, now: Time)
    requires lb.enabled != [] && Selectable(lb.nodes, a)
    ensures Queue(lb.(nodes := lb.nodes[a := Selected(lb.nodes[a], now)])) == Queue(lb)
  {
    var nodes' := lb.nodes[a := Selected(lb.nodes[a], now)];
    AvailableAfter(lb.nodes, nodes', Turn(lb.enabled, lb.index % |lb.enabled|));
  }

  /** One call serves the head of the queue and moves it to the back. With nobody to serve it answers None and the
      index comes back to where it was. */
  lemma NextServesQueue(lb: Balancer, now: Time)
    ensures var (lb', pick) := NextNode(lb, now);
      if Queue(lb) == [] then pick == None && (lb.enabled != [] ==> lb'.index % |lb.enabled| == lb.index % |lb.enabled|)
      else pick == Some(Queue(lb)[0]) && Queue(lb') == Queue(lb)[1..] + [Queue(lb)[0]]
  {
    if lb.enabled != [] {
      var t := Turn(lb.enabled, lb.index % |lb.enabled|);
      assert t[|lb.enabled|..] == [] && Passed(lb.nodes, lb.enabled, lb.index % |lb.enabled|, |lb.enabled|);
      PickFromQueue(lb, |lb.enabled|, now);
      ModWrap(lb.index, |lb.enabled|);
    }
  }

  lemma QueueIs(lb: Balancer)
    ensures forall a :: a in Queue(lb) <==> a in lb.enabled && Selectable(lb.nodes, a)
    ensures NoDup(lb.enabled) ==> NoDup(Queue(lb))
  {
    if lb.enabled != [] {
      var i := lb.index % |lb.enabled|;
      var t := Turn(lb.enabled, i);
      AvailableIs(lb.nodes, t);
      assert lb.enabled == lb.enabled[..i] + lb.enabled[i..];
    }
  }

  /** No node is returned iff every enabled node's circuit is open. */
  lemma NoneIffAllOpen(lb: Balancer, now: Time)
    ensures NextNode(lb, now).1 == None <==> forall a :: a in lb.enabled ==> !Selectable(lb.nodes, a)
  {
    NextServesQueue(lb, now);
    QueueIs(lb);
    if Queue(lb) != [] {
      assert Queue(lb)[0] in Queue(lb);
    }
  }

  /** Answers of consecutive calls at the given times. */
  function Calls(lb: Balancer, times: seq<Time>): (picks: seq<Option<Addr>>)
    ensures |picks| == |times|
    decreases |times|
  {
    if times == [] then [] else
      var (lb', pick) := NextNode(lb, times[0]);
      [pick] + Calls(lb', times[1..])
  }

  lemma RotatedIndex(q: seq<Addr>, i: nat)
    requires q != [] && i > 0
    ensures (i - 1) % |q| < |q| && i % |q| < |q| && (q[1..] + [q[0]])[(i - 1) % |q|] == q[i % |q|]
  {
    NextRemainder(i - 1, |q|);
  }

  lemma NextRemainder(i: nat, n: nat)
    requires n > 0
    ensures i % n < n && (i + 1) % n == if i % n + 1 < n then i % n + 1 else 0
  {
    ModEarly(i, 1, n);
    var r := i % n;
    if r + 1 < n {
      SmallMod(r + 1, n);
    } else {
      WrapsToZero(r, n);
    }
  }

  /** While nothing else happens, the calls go round the selectable nodes in a fixed cycle. */
  lemma {:induction false} CallsCycle(lb: Balancer, times: seq<Time>, i: nat)
    requires i < |times|
    ensures Calls(lb, times)[i] == if Queue(lb) == [] then None else Some(Queue(lb)[i % |Queue(lb)|])
    decreases i
  {
    hide Queue, NextNode;
    var q := Queue(lb);
    var lb' := NextNode(lb, times[0]).0;
    NextServesQueue(lb, times[0]);
    if i == 0 {
      if q != [] {
        SmallMod(0, |q|);
      }
    } else {
      CallsCycle(lb', times[1..], i - 1);
      if q == [] {
        QueueStaysEmpty(lb, times[0]);
      } else {
        RotatedIndex(q, i);
      }
    }
  }

  lemma QueueStaysEmpty(lb: Balancer, now: Time)
    requires Queue(lb) == []
    ensures Queue(NextNode(lb, now).0) == []
  {
    NextServesQueue(lb, now);
    NextIsSelectable(lb, now);
  }

  function Count(picks: seq<Option<Addr>>, a: Addr): nat {
    if picks == [] then 0 else (if picks[0] == Some(a) then 1 else 0) + Count(picks[1..], a)
  }

  lemma {:induction false} CountOnce(picks: seq<Option<Addr>>, a: Addr)
    requires forall i, j :: 0 <= i < j < |picks| ==> picks[i] != picks[j]
    ensures Count(picks, a) == if Some(a) in picks then 1 else 0
  {
    if picks != [] {
      CountOnce(picks[1..], a);
      assert picks == [picks[0]] + picks[1..];
      assert picks[0] !in picks[1..];
    }
  }

  lemma {:induction false} CountConcat(p: seq<Option<Addr>>, r: seq<Option<Addr>>, a: Addr)
    ensures Count(p + r, a) == Count(p, a) + Count(r, a)
  {
    if p == [] {
      assert p + r == r;
    } else {
      CountConcat(p[1..], r, a);
      assert (p + r)[1..] == p[1..] + r;
    }
  }

  /** As many calls as there are selectable nodes serve each of them exactly once. */
  lemma FullRoundServesEachOnce(lb: Balancer, times: seq<Time>, a: Addr)
    requires NoDup(lb.enabled) && |times| == |Queue(lb)|
    ensures Count(Calls(lb, times), a) == if a in lb.enabled && Selectable(lb.nodes, a) then 1 else 0
  {
    hide Queue, Calls;
    QueueIs(lb);
    var picks, q := Calls(lb, times), Queue(lb);
    forall i | 0 <= i < |times| ensures picks[i] == Some(q[i]) {
      CallsCycle(lb, times, i);
      SmallMod(i, |q|);
    }
    CountOnce(picks, a);
    if a in q {
      var i :| 0 <= i < |q| && q[i] == a;
      assert picks[i] == Some(a);
    }
  }

  lemma {:induction false} CallsSplit(lb: Balancer, times: seq<Time>, n: nat) returns (lb': Balancer)
    requires n <= |times|
    ensures Calls(lb, times) == Calls(lb, times[..n]) + Calls(lb', times[n..])
    ensures lb'.enabled == lb.enabled && forall a :: Selectable(lb'.nodes, a) <==> Selectable(lb.nodes, a)
    decreases n
  {
    hide NextNode;
    if n == 0 {
      lb' := lb;
      assert times[0..] == times;
    } else {
      NextIsSelectable(lb, times[0]);
      lb' := CallsSplit(NextNode(lb, times[0]).0, times[1..], n - 1);
      assert times[..n][1..] == times[1..][..n - 1];
      assert times[n..] == times[1..][n - 1..];
    }
  }

  /** Over any stretch of calls, two selectable nodes are served equally often, up to one. */
  lemma {:induction false} FairOverAnyStretch(lb: Balancer, times: seq<Time>, a: Addr, b: Addr)
    requires NoDup(lb.enabled)
    requires a in lb.enabled && Selectable(lb.nodes, a) && b in lb.enabled && Selectable(lb.nodes, b)
    ensures -1 <= Count(Calls(lb, times), a) - Count(Calls(lb, times), b) <= 1
    decreases |times|
  {
    hide Queue, Calls;
    QueueIs(lb);
    var picks, q := Calls(lb, times), Queue(lb);
    if |times| >= |q| {
      var lb' := CallsSplit(lb, times, |q|);
      FullRoundServesEachOnce(lb, times[..|q|], a);
      FullRoundServesEachOnce(lb, times[..|q|], b);
      FairOverAnyStretch(lb', times[|q|..], a, b);
      CountConcat(Calls(lb, times[..|q|]), Calls(lb', times[|q|..]), a);
      CountConcat(Calls(lb, times[..|q|]), Calls(lb', times[|q|..]), b);
    } else {
      forall i | 0 <= i < |times| ensures picks[i] == Some(q[i]) {
        CallsCycle(lb, times, i);
        SmallMod(i, |q|);
      }
      CountOnce(picks, a);
      CountOnce(picks, b);
    }
  }

  /** The first calls, up to the number of selectable nodes, go to pairwise different nodes. */
  lemma DistinctPicks(lb: Balancer, times: seq<Time>, i: nat, j: nat)
    requires NoDup(lb.enabled) && i < j < |times| <= |Queue(lb)|
    ensures Calls(lb, times)[i].Some? && Calls(lb, times)[i] != Calls(lb, times)[j]
  {
    hide Queue, Calls;
    QueueIs(lb);
    CallsCycle(lb, times, i);
    CallsCycle(lb, times, j);
    SmallMod(i, |Queue(lb)|);
    SmallMod(j, |Queue(lb)|);
  }
}
