/** Exactly-once, order, panics and termination over whole runs of the job executor. */
module JobRuns {
  import opened Jobs
  import opened JobLaws

  /** No job is lost, repeated or made up; and no nested generic job appears or disappears. */
  ghost predicate Conserves(s: State, s': State) {
    && Total(s') == Total(s)
    && (HotPending(s') <==> HotPending(s))
    && Load(s') <= Load(s)
  }

  // ---------- gathering ----------

  lemma GatherConserves(s: State)
    requires Good(s, [])
    ensures Good(Gather(s), []) && Conserves(s, Gather(s))
    ensures Gather(s).group == [] <==> s.group == [] && s.async == []
    ensures Gather(s).group == [] ==> Gather(s) == s
  {
    hide Ids, Weight, Hot, GroupIds, GroupWeight, GroupHot, Start;
    StartMeasures(s.async);
    GroupConcat(s.group, Start(s.async));
    assert Ids([]) == multiset{} && Weight([]) == 0 && !Hot([]) by { Nothing(); }
    assert Pending(Gather(s)) == Pending(s);
  }

  lemma Nothing()
    ensures Ids([]) == multiset{} && Weight([]) == 0 && !Hot([])
    ensures GroupIds([]) == multiset{} && GroupWeight([]) == 0 && !GroupHot([])
  {
  }

  // ---------- polling ----------

  lemma GroupSplit(group: seq<Task>, i: nat, t: Task)
    requires i < |group|
    ensures GroupIds(group[i := t]) == TaskIds(t) + GroupIds(Remove(group, i))
    ensures GroupWeight(group[i := t]) == FutureWeight(t.work) + GroupWeight(Remove(group, i))
    ensures GroupHot(group[i := t]) <==> FutureHot(t.work) || GroupHot(Remove(group, i))
  {
    hide GroupIds, GroupWeight, GroupHot, FutureWeight, FutureHot, TaskIds;
    GroupConcat(group[..i], [t] + group[i + 1..]);
    GroupConcat([t], group[i + 1..]);
    GroupOne(t);
    GroupConcat(group[..i], group[i + 1..]);
    assert group[i := t] == group[..i] + ([t] + group[i + 1..]);
  }

  /** Exchanging the group of a state. */
  lemma Regroup(s: State, group: seq<Task>, whole: multiset<nat>, part: multiset<nat>)
    requires GroupIds(s.group) + part == GroupIds(group) + whole
    ensures Pending(s) + part == Pending(s.(group := group)) + whole
  {
    hide Ids, GroupIds;
    var base := Ids(s.promise) + Ids(s.async) + Ids(s.generic);
    assert base + GroupIds(s.group) + part == base + (GroupIds(s.group) + part);
    assert base + GroupIds(group) + whole == base + (GroupIds(group) + whole);
  }

  lemma TaskIdsAre(t: Task)
    ensures t.work.More? ==> TaskIds(t) == TaskIds(Task(t.id, t.work.rest)) + Ids(t.work.spawns)
    ensures t.work.Last? ==> TaskIds(t) == multiset{t.id} + Ids(t.work.spawns)
  {
    hide Ids;
  }

  /** What the group has left after a poll of the future in place `i`. */
  function Regrouped(group: seq<Task>, i: nat): seq<Task>
    requires i < |group|
  {
    var t := group[i];
    if t.work.More? then group[i := Task(t.id, t.work.rest)] else Remove(group, i)
  }

  function Finishes(t: Task): seq<nat> {
    if t.work.More? then [] else [t.id]
  }

  lemma RegroupedIds(group: seq<Task>, i: nat)
    requires i < |group|
    ensures GroupIds(group) ==
            GroupIds(Regrouped(group, i)) + (multiset(Finishes(group[i])) + Ids(group[i].work.spawns))
  {
    hide GroupIds, TaskIds, Ids, Remove;
    var t := group[i];
    assert group[i := t] == group;
    GroupSplit(group, i, t);
    TaskIdsAre(t);
    if t.work.More? {
      GroupSplit(group, i, Task(t.id, t.work.rest));
    }
  }

  lemma PollIs(s: State, i: nat)
    requires i < |s.group|
    ensures var t := s.group[i];
            var s1 := EnqueueAll(s, t.work.spawns);
            Poll(s, i) == s1.(group := Regrouped(s.group, i), completed := s1.completed + Finishes(t))
  {
    hide EnqueueAll, Remove;
  }

  lemma PollIds(s: State, i: nat)
    requires Good(s, []) && i < |s.group|
    ensures Total(Poll(s, i)) == Total(s)
  {
    hide Ids, GroupIds, EnqueueAll, Pending, Executed, Poll, Regrouped, Finishes, Good;
    var t := s.group[i];
    var spawns, done := t.work.spawns, multiset(Finishes(t));
    var s1 := EnqueueAll(s, spawns);
    EnqueueAllGrows(s, spawns, []);
    RegroupedIds(s.group, i);
    PollIs(s, i);
    Regroup(s1, Regrouped(s.group, i), done + Ids(spawns), multiset{});
    Reframe(s1.(group := Regrouped(s.group, i)), Poll(s, i));
    assert Pending(s1) + multiset{} == Pending(s1);
    Cancel(Pending(s), Pending(Poll(s, i)), Ids(spawns), done);
    MoreCompleted(s, Poll(s, i), Finishes(t));
    Reorder(Executed(s), Pending(Poll(s, i)), done);
  }

  lemma Reorder(x: multiset<nat>, y: multiset<nat>, z: multiset<nat>)
    ensures x + (y + z) == x + z + y
  {
  }

  lemma MoreCompleted(s: State, s': State, done: seq<nat>)
    requires s'.ranPromises == s.ranPromises && s'.ranGenerics == s.ranGenerics && s'.completed == s.completed + done
    ensures Executed(s') == Executed(s) + multiset(done)
  {
    assert multiset(s.completed + done) == multiset(s.completed) + multiset(done);
  }

  lemma Cancel(m: multiset<nat>, m': multiset<nat>, common: multiset<nat>, extra: multiset<nat>)
    requires m + common == m' + (extra + common)
    ensures m == m' + extra
  {
    assert m == m + common - common;
    assert m' + extra == m' + (extra + common) - common;
  }

  lemma Reframe(s: State, s': State)
    requires s.promise == s'.promise && s.async == s'.async && s.generic == s'.generic && s.group == s'.group
    ensures Pending(s) == Pending(s')
  {
  }

  lemma OnePoll(f: Future)
    ensures FutureWeight(f) == 1 + Weight(f.spawns) + (if f.More? then FutureWeight(f.rest) else 0)
    ensures FutureHot(f) <==> Hot(f.spawns) || (f.More? && FutureHot(f.rest))
  {
  }

  lemma RegroupedWeight(group: seq<Task>, i: nat)
    requires i < |group|
    ensures GroupWeight(group) == GroupWeight(Regrouped(group, i)) + 1 + Weight(group[i].work.spawns)
    ensures GroupHot(group) <==> GroupHot(Regrouped(group, i)) || Hot(group[i].work.spawns)
  {
    hide GroupWeight, GroupHot, Weight, Hot, Remove, GroupIds, TaskIds;
    var t := group[i];
    OnePoll(t.work);
    assert group[i := t] == group;
    GroupSplit(group, i, t);
    if t.work.More? {
      GroupSplit(group, i, Task(t.id, t.work.rest));
    }
  }

  lemma PollConserves(s: State, i: nat)
    requires Good(s, []) && i < |s.group|
    ensures Good(Poll(s, i), []) && Conserves(s, Poll(s, i))
    ensures Load(Poll(s, i)) < Load(s) && Poll(s, i).panicked == s.panicked
    ensures Poll(s, i).ranPromises == s.ranPromises && Poll(s, i).ranGenerics == s.ranGenerics
  {
    hide Total, Pending, Weight, Hot, GroupWeight, GroupHot, EnqueueAll, Poll, Regrouped, Finishes;
    PollIds(s, i);
    EnqueueAllGrows(s, s.group[i].work.spawns, []);
    PollIs(s, i);
    RegroupedWeight(s.group, i);
  }

  lemma {:induction false} PollOnceConserves(s: State, picks: seq<nat>)
    requires Good(s, [])
    ensures Good(PollOnce(s, picks), []) && Conserves(s, PollOnce(s, picks))
    ensures picks != [] && s.group != [] ==> Load(PollOnce(s, picks)) < Load(s)
    ensures PollOnce(s, picks).ranPromises == s.ranPromises && PollOnce(s, picks).ranGenerics == s.ranGenerics
    ensures PollOnce(s, picks).panicked == s.panicked
    decreases |picks|
  {
    hide Good, Total, HotPending, Load, Poll;
    if picks != [] && s.group != [] {
      var i := picks[0] % |s.group|;
      PollConserves(s, i);
      if !s.group[i].work.Last? {
        PollOnceConserves(Poll(s, i), picks[1..]);
      }
    }
  }

  // ---------- draining ----------

  /** The job at the head of the generic queue enqueues a generic job. */
  predicate HeadNests(s: State) {
    s.generic != [] && s.generic[0].GenericJob? && HasGeneric(s.generic[0].spawns)
  }

  lemma GenericHead(jobs: seq<Job>)
    requires jobs != [] && jobs[0].GenericJob?
    ensures Ids(jobs) == multiset{jobs[0].id} + Ids(jobs[0].spawns) + Ids(jobs[1..])
    ensures Weight(jobs) == 1 + Weight(jobs[0].spawns) + Weight(jobs[1..])
    ensures Hot(jobs) <==> Hot(jobs[0].spawns) || HasGeneric(jobs[0].spawns) || Hot(jobs[1..])
  {
    assert JobIds(jobs[0]) == multiset{jobs[0].id} + Ids(jobs[0].spawns);
  }

  lemma PopGeneric(s: State)
    requires Good(s, []) && s.generic != []
    ensures var job := s.generic[0];
            var s' := s.(generic := s.generic[1..], ranGenerics := s.ranGenerics + [job.id]);
            && Good(s', [])
            && Executed(s') == Executed(s) + multiset{job.id}
            && Pending(s) == Pending(s') + multiset{job.id} + Ids(job.spawns)
            && Load(s) == Load(s') + 1 + Weight(job.spawns)
            && (HotPending(s) <==> HotPending(s') || Hot(job.spawns) || HasGeneric(job.spawns))
  {
    hide GroupIds, GroupWeight, GroupHot, HasGeneric, Ids, Weight, Hot;
    var job := s.generic[0];
    GenericHead(s.generic);
    assert Names(s.generic) == [job.id] + Names(s.generic[1..]);
    assert multiset(s.ranGenerics + [job.id]) == multiset(s.ranGenerics) + multiset{job.id};
  }

  /** The generic job of a turn panics exactly when it enqueues a generic job; in any case the order is kept. */
  lemma RunGenericConserves(s: State)
    requires Good(s, []) && !s.panicked
    ensures Good(RunGeneric(s), [])
    ensures RunGeneric(s).panicked <==> HeadNests(s)
    ensures RunGeneric(s).panicked ==> HotPending(s)
    ensures !RunGeneric(s).panicked ==> Conserves(s, RunGeneric(s))
    ensures !RunGeneric(s).panicked && s.generic != [] ==> Load(RunGeneric(s)) < Load(s)
    ensures Executed(RunGeneric(s)) <= Total(s)
    ensures RunGeneric(s).ranPromises == s.ranPromises
    ensures RunGeneric(s).ranGenerics == s.ranGenerics + (if s.generic == [] then [] else [s.generic[0].id])
  {
    hide Good, Executed, Pending, Load, HotQueues, GroupHot, HasGeneric, Ids, Weight, Hot;
    if s.generic != [] {
      PopGeneric(s);
      var job := s.generic[0];
      assert job.GenericJob? by { HeadIsGeneric(s); }
      var s' := s.(generic := s.generic[1..], ranGenerics := s.ranGenerics + [job.id]);
      EnqueueHeldGrows(s', job.spawns);
      SameLogs(s', RunGeneric(s));
    }
  }

  lemma HeadIsGeneric(s: State)
    requires Good(s, []) && s.generic != []
    ensures s.generic[0].GenericJob?
  {
  }

  lemma SameLogs(s: State, s': State)
    requires s'.ranPromises == s.ranPromises && s'.ranGenerics == s.ranGenerics && s'.completed == s.completed
    ensures Executed(s') == Executed(s)
  {
  }

  lemma PromiseHead(jobs: seq<Job>)
    requires jobs != [] && jobs[0].PromiseJob?
    ensures Ids(jobs) == multiset{jobs[0].id} + Ids(jobs[0].spawns) + Ids(jobs[1..])
    ensures Weight(jobs) == 1 + Weight(jobs[0].spawns) + Weight(jobs[1..])
    ensures Hot(jobs) <==> Hot(jobs[0].spawns) || Hot(jobs[1..])
  {
    assert JobIds(jobs[0]) == multiset{jobs[0].id} + Ids(jobs[0].spawns);
  }

  /** Noting that the first of the jobs taken has run. */
  lemma NotePromise(s: State, jobs: seq<Job>)
    requires Good(s, jobs) && jobs != []
    ensures var s1 := s.(ranPromises := s.ranPromises + [jobs[0].id]);
            && jobs[0].PromiseJob? && Good(s1, jobs[1..])
            && Executed(s1) == Executed(s) + multiset{jobs[0].id}
            && Pending(s1) == Pending(s) && Load(s1) == Load(s) && (HotQueues(s1) <==> HotQueues(s))
  {
    hide Ids, Weight, Hot, GroupIds, GroupWeight;
    assert Names(jobs) == [jobs[0].id] + Names(jobs[1..]);
    assert multiset(s.ranPromises + [jobs[0].id]) == multiset(s.ranPromises) + multiset{jobs[0].id};
  }

  lemma RunOnePromise(s: State, jobs: seq<Job>)
    requires Good(s, jobs) && jobs != []
    ensures var s' := EnqueueAll(s.(ranPromises := s.ranPromises + [jobs[0].id]), jobs[0].spawns);
            && Good(s', jobs[1..])
            && Total(s') + Ids(jobs[1..]) == Total(s) + Ids(jobs)
            && Load(s') + Weight(jobs[1..]) + 1 == Load(s) + Weight(jobs)
            && (HotPending(s') || Hot(jobs[1..]) <==> HotPending(s) || Hot(jobs))
            && s'.ranPromises == s.ranPromises + [jobs[0].id] && s'.ranGenerics == s.ranGenerics
            && s'.panicked == s.panicked && s'.group == s.group
  {
    hide Good, Pending, Executed, Load, HotQueues, GroupHot, EnqueueAll, Ids, Weight, Hot;
    var s1 := s.(ranPromises := s.ranPromises + [jobs[0].id]);
    NotePromise(s, jobs);
    PromiseHead(jobs);
    EnqueueAllGrows(s1, jobs[0].spawns, jobs[1..]);
    SameLogs(s1, EnqueueAll(s1, jobs[0].spawns));
    Rearrange(Executed(s), Pending(s), multiset{jobs[0].id}, Ids(jobs[0].spawns), Ids(jobs[1..]));
  }

  lemma Rearrange(x: multiset<nat>, y: multiset<nat>, u: multiset<nat>, v: multiset<nat>, w: multiset<nat>)
    ensures x + u + (y + v) + w == x + y + (u + v + w)
  {
  }

  /** The jobs taken from the queue run in order, each once. */
  lemma {:induction false} RunPromisesConserves(s: State, jobs: seq<Job>)
    requires Good(s, jobs)
    ensures Good(RunPromises(s, jobs), [])
    ensures Total(RunPromises(s, jobs)) == Total(s) + Ids(jobs)
    ensures Load(RunPromises(s, jobs)) + |jobs| == Load(s) + Weight(jobs)
    ensures HotPending(RunPromises(s, jobs)) <==> HotPending(s) || Hot(jobs)
    ensures RunPromises(s, jobs).ranPromises == s.ranPromises + Names(jobs)
    ensures RunPromises(s, jobs).ranGenerics == s.ranGenerics && RunPromises(s, jobs).panicked == s.panicked
    decreases |jobs|
  {
    hide Good, Total, Load, HotPending, EnqueueAll, Ids, Weight, Hot;
    if jobs == [] {
      assert s.ranPromises + Names(jobs) == s.ranPromises;
      Nothing();
    } else {
      assert jobs[0].PromiseJob? by { HeadIsPromise(s, jobs); }
      var s' := EnqueueAll(s.(ranPromises := s.ranPromises + [jobs[0].id]), jobs[0].spawns);
      RunOnePromise(s, jobs);
      RunPromisesConserves(s', jobs[1..]);
      assert Names(jobs) == [jobs[0].id] + Names(jobs[1..]);
    }
  }

  lemma HeadIsPromise(s: State, jobs: seq<Job>)
    requires Good(s, jobs) && jobs != []
    ensures jobs[0].PromiseJob?
  {
  }

  /** Emptying the promise queue into a local list. */
  lemma TakePromises(s: State)
    requires Good(s, [])
    ensures Good(s.(promise := []), s.promise)
    ensures Total(s.(promise := [])) + Ids(s.promise) == Total(s)
    ensures Load(s.(promise := [])) + Weight(s.promise) == Load(s)
    ensures HotPending(s) <==> HotPending(s.(promise := [])) || Hot(s.promise)
    ensures s.promised == s.ranPromises + Names(s.promise)
  {
    Nothing();
    assert Names([]) == [];
    assert s.ranPromises + Names([]) + Names(s.promise) == s.ranPromises + Names(s.promise) + Names([]);
  }

  /** One drain runs the oldest generic job and then exactly the promise jobs enqueued by then, in order; promise
      jobs enqueued by those wait for the next turn, behind its generic job. */
  lemma DrainRunsSnapshot(s: State)
    requires Good(s, []) && !s.panicked
    ensures Good(Drain(s), [])
    ensures Drain(s).panicked <==> HeadNests(s)
    ensures Drain(s).panicked ==> HotPending(s)
    ensures Executed(Drain(s)) <= Total(s)
    ensures Drain(s).ranGenerics == s.ranGenerics + (if s.generic == [] then [] else [s.generic[0].id])
    ensures !Drain(s).panicked ==> Conserves(s, Drain(s)) && Drain(s).ranPromises == RunGeneric(s).promised
    ensures !Drain(s).panicked && (s.generic != [] || s.promise != []) ==> Load(Drain(s)) < Load(s)
    ensures Drain(s).panicked ==> Drain(s).ranPromises == s.ranPromises
  {
    hide Good, Total, Load, HotPending, HeadNests, RunGeneric, RunPromises, Ids, Weight, Hot, Names;
    RunGenericConserves(s);
    var s1 := RunGeneric(s);
    ExecutedWithin(Drain(s));
    if !s1.panicked {
      TakePromises(s1);
      RunPromisesConserves(s1.(promise := []), s1.promise);
      if s.generic == [] {
        assert s1 == s by { NoGeneric(s); }
      }
    }
  }

  lemma ExecutedWithin(s: State)
    ensures Executed(s) <= Total(s)
  {
  }

  lemma NoGeneric(s: State)
    requires s.generic == []
    ensures RunGeneric(s) == s
  {
  }

  // ---------- what a drain leaves waiting ----------

  function Promises(jobs: seq<Job>): seq<Job> {
    if jobs == [] then [] else (if jobs[0].PromiseJob? then [jobs[0]] else []) + Promises(jobs[1..])
  }

  /** The promise jobs that promise jobs enqueue. */
  function Chained(jobs: seq<Job>): seq<Job> {
    if jobs == [] then []
    else (if jobs[0].PromiseJob? then Promises(jobs[0].spawns) else []) + Chained(jobs[1..])
  }

  lemma {:induction false} EnqueueAllPromises(s: State, jobs: seq<Job>)
    ensures EnqueueAll(s, jobs).promise == s.promise + Promises(jobs)
    decreases |jobs|
  {
    if jobs != [] {
      EnqueueAllPromises(Enqueue(s, jobs[0]), jobs[1..]);
    }
  }

  lemma {:induction false} RunPromisesLeaves(s: State, jobs: seq<Job>)
    ensures RunPromises(s, jobs).promise == s.promise + Chained(jobs)
    decreases |jobs|
  {
    hide Promises, EnqueueAll;
    if jobs != [] {
      var s' := s.(ranPromises := s.ranPromises + [jobs[0].id]);
      if jobs[0].PromiseJob? {
        EnqueueAllPromises(s', jobs[0].spawns);
        RunPromisesLeaves(EnqueueAll(s', jobs[0].spawns), jobs[1..]);
      } else {
        RunPromisesLeaves(s', jobs[1..]);
      }
    }
  }

  /** A drain does not finish the microtasks: those enqueued by the microtasks it runs are exactly what it leaves, and
      the next turn runs a generic job before them. */
  lemma DrainLeavesChained(s: State)
    requires !RunGeneric(s).panicked
    ensures Drain(s).promise == Chained(RunGeneric(s).promise)
  {
    hide RunGeneric;
    RunPromisesLeaves(RunGeneric(s).(promise := []), RunGeneric(s).promise);
  }

  /** One promise job enqueues another and a generic job. The generic job, enqueued last, runs in the next turn before
      the promise job that was waiting for it. */
  lemma MacrotaskOvertakesMicrotask()
    ensures var s := Turn(EnqueueAll(Fresh, [PromiseJob(1, [PromiseJob(2, []), GenericJob(3, [])])]), []);
            && s.ranPromises == [1] && s.promised == [1, 2] && s.promise == [PromiseJob(2, [])]
            && RunGeneric(s).ranGenerics == [3] && RunGeneric(s).promise == [PromiseJob(2, [])]
  {
    var inner := [PromiseJob(2, []), GenericJob(3, [])];
    var jobs := [PromiseJob(1, inner)];
    assert inner[1..] == [GenericJob(3, [])] && inner[1..][1..] == [] && jobs[1..] == [];
    var s0 := Fresh.(promise := jobs, promised := [1]);
    assert Enqueue(Fresh, jobs[0]) == s0;
    assert EnqueueAll(Fresh, jobs) == EnqueueAll(s0, []) == s0;
    var s1 := s0.(promise := [], ranPromises := [1]);
    var s2 := s1.(promise := [PromiseJob(2, [])], promised := [1, 2]);
    var s3 := s2.(generic := [GenericJob(3, [])], posted := [3]);
    assert Enqueue(s1, inner[0]) == s2 && Enqueue(s2, inner[1]) == s3;
    assert EnqueueAll(s2, inner[1..]) == EnqueueAll(s3, []) == s3;
    assert EnqueueAll(s1, inner) == s3;
    assert RunPromises(s0.(promise := []), jobs) == RunPromises(s3, []) == s3;
    assert Gather(s0) == s0;
    assert Turn(s0, []) == s3;
  }

  // ---------- turns ----------

  /** A turn in which the group only waits: nothing is ready and nothing is queued. */
  predicate Idle(s: State, picks: seq<nat>) {
    picks == [] && s.promise == [] && s.generic == []
  }

  lemma TurnConserves(s: State, picks: seq<nat>)
    requires Good(s, []) && !Stops(s)
    ensures Good(Turn(s, picks), [])
    ensures Turn(s, picks).panicked ==> HotPending(s)
    ensures !Turn(s, picks).panicked ==> Conserves(s, Turn(s, picks))
    ensures !Turn(s, picks).panicked && !Idle(s, picks) ==> Load(Turn(s, picks)) < Load(s)
    ensures Executed(Turn(s, picks)) <= Total(s)
    ensures |Turn(s, picks).ranGenerics| <= |s.ranGenerics| + 1
  {
    hide Good, Total, Load, HotPending, HeadNests, Drain;
    GatherConserves(s);
    var g := Gather(s);
    PollOnceConserves(g, picks);
    DrainRunsSnapshot(PollOnce(g, picks));
    if picks == [] {
      assert PollOnce(g, picks) == g;
    }
  }

  /** Idle turns of a run. */
  function Waits(s: State, polls: seq<seq<nat>>): nat
    decreases |polls|
  {
    if polls == [] || Stops(s) then 0
    else (if Idle(s, polls[0]) then 1 else 0) + Waits(Turn(s, polls[0]), polls[1..])
  }

  /** Every other turn lowers the load. */
  lemma {:induction false} TurnsConserve(s: State, polls: seq<seq<nat>>)
    requires Good(s, []) && !s.panicked
    ensures Good(Turns(s, polls), [])
    ensures Turns(s, polls).panicked ==> HotPending(s)
    ensures !Turns(s, polls).panicked ==> Conserves(s, Turns(s, polls))
    ensures Executed(Turns(s, polls)) <= Total(s)
    ensures !Stops(Turns(s, polls)) ==> Load(Turns(s, polls)) + |polls| <= Load(s) + Waits(s, polls)
    decreases |polls|
  {
    hide Good, Executed, Total, Load, HotPending, Turn, Finished, Idle;
    ExecutedWithin(s);
    if polls != [] && !Stops(s) {
      TurnConserves(s, polls[0]);
      var s' := Turn(s, polls[0]);
      if s'.panicked {
        assert Turns(s', polls[1..]) == s';
      } else {
        TurnsConserve(s', polls[1..]);
      }
    }
  }

  lemma StoppedMeansDone(s: State)
    requires Good(s, []) && Stops(s) && !s.panicked
    ensures s.promise == [] && s.async == [] && s.generic == [] && s.group == []
    ensures Pending(s) == multiset{} && !HotPending(s)
    ensures s.ranPromises == s.promised && s.ranGenerics == s.posted
  {
    StartMeasures(s.async);
    Nothing();
    assert Names([]) == [];
    assert s.ranPromises + Names([]) + Names([]) == s.ranPromises;
    assert s.ranGenerics + Names([]) == s.ranGenerics;
  }

  lemma UnfinishedHasLoad(s: State)
    requires Good(s, []) && !Stops(s)
    ensures Load(s) >= 1
  {
    hide Ids, Hot;
    if s.group == [] && s.promise == [] && s.generic == [] {
      assert s.async != [];
      assert JobWeight(s.async[0]) >= 1;
    } else if s.group != [] {
      assert FutureWeight(s.group[0].work) >= 1;
    } else if s.promise != [] {
      assert JobWeight(s.promise[0]) >= 1;
    } else {
      assert JobWeight(s.generic[0]) >= 1;
    }
  }

  /** How a sufficiently long run ends, from any state between turns. */
  lemma Outcome(s: State, polls: seq<seq<nat>>)
    requires Good(s, []) && !s.panicked && |polls| >= Load(s) + Waits(s, polls)
    ensures var e := Turns(s, polls);
            && Stops(e)
            && (e.panicked <==> HotPending(s))
            && (!e.panicked ==>
                  && e.promise == [] && e.async == [] && e.generic == [] && e.group == []
                  && Executed(e) == Total(s)
                  && e.ranPromises == e.promised && e.ranGenerics == e.posted)
  {
    hide Executed, Load, HotPending, Turns, Stops, Good;
    TurnsConserve(s, polls);
    var e := Turns(s, polls);
    if !Stops(e) {
      UnfinishedHasLoad(e);
      assert false;
    }
    if !e.panicked {
      StoppedMeansDone(e);
      assert Executed(e) + multiset{} == Executed(e);
    }
  }

  // ---------- whole runs ----------

  /** `run_jobs_async` on a fresh executor holding `jobs`. */
  function Run(jobs: seq<Job>, polls: seq<seq<nat>>): State {
    Turns(EnqueueAll(Fresh, jobs), polls)
  }

  lemma Begin(jobs: seq<Job>)
    ensures Good(EnqueueAll(Fresh, jobs), []) && Total(EnqueueAll(Fresh, jobs)) == Ids(jobs)
    ensures Load(EnqueueAll(Fresh, jobs)) == Weight(jobs) && !EnqueueAll(Fresh, jobs).panicked
    ensures HotPending(EnqueueAll(Fresh, jobs)) <==> Hot(jobs)
  {
    hide EnqueueAll;
    Nothing();
    assert Names([]) == [];
    EnqueueAllGrows(Fresh, jobs, []);
    assert Executed(Fresh) == multiset{} && Pending(Fresh) == multiset{};
    assert Load(Fresh) == 0 && !HotQueues(Fresh);
    SameLogs(Fresh, EnqueueAll(Fresh, jobs));
  }

  lemma PrefixOfSum(a: seq<nat>, b: seq<nat>, c: seq<nat>, whole: seq<nat>)
    requires whole == a + b + c
    ensures a <= whole
  {
  }

  /** Safety at every moment of every run, whichever futures are polled when, and even if it has panicked: no job has
      run that is not in the forest of jobs, or more often than there. Until it panics, what has run and what is still
      to run make up the forest; and both queues serve in order. */
  lemma EachJobAtMostOnceInOrder(jobs: seq<Job>, polls: seq<seq<nat>>)
    ensures var s := Run(jobs, polls);
            && Executed(s) <= Ids(jobs)
            && (!s.panicked ==> Executed(s) + Pending(s) == Ids(jobs))
            && s.ranPromises <= s.promised && s.ranGenerics <= s.posted
  {
    hide Pending, Executed, Load, HotPending, Turns;
    Begin(jobs);
    TurnsConserve(EnqueueAll(Fresh, jobs), polls);
    var s := Run(jobs, polls);
    PrefixOfSum(s.ranPromises, Names([]), Names(s.promise), s.promised);
    PrefixOfSum(s.ranGenerics, Names(s.generic), [], s.posted);
  }

  /** If the loop returns, nothing is queued or under way, every job of the forest has run exactly once, and the
      promise and generic jobs ran in the order in which they were enqueued. */
  lemma ReturnsOnlyWhenDone(jobs: seq<Job>, polls: seq<seq<nat>>)
    requires Stops(Run(jobs, polls)) && !Run(jobs, polls).panicked
    ensures var s := Run(jobs, polls);
            && s.promise == [] && s.async == [] && s.generic == [] && s.group == []
            && Executed(s) == Ids(jobs)
            && s.ranPromises == s.promised && s.ranGenerics == s.posted
            && !Hot(jobs)
  {
    hide Executed, Load, HotPending, Turns, Stops, Good;
    Begin(jobs);
    TurnsConserve(EnqueueAll(Fresh, jobs), polls);
    StoppedMeansDone(Run(jobs, polls));
    assert Executed(Run(jobs, polls)) + multiset{} == Executed(Run(jobs, polls));
  }

  /** A run that has not stopped has taken at most as many turns as the forest has jobs and polls, besides the turns in
      which the group only waited. It panics if and only if some generic job of the forest enqueues a generic job. */
  lemma EveryRunStops(jobs: seq<Job>, polls: seq<seq<nat>>)
    requires |polls| >= Weight(jobs) + Waits(EnqueueAll(Fresh, jobs), polls)
    ensures Stops(Run(jobs, polls))
    ensures Run(jobs, polls).panicked <==> Hot(jobs)
  {
    hide Load, HotPending, Turns, Stops, Good, Total, Executed, Waits;
    Begin(jobs);
    Outcome(EnqueueAll(Fresh, jobs), polls);
  }

  // ---------- generic jobs that overtake promise jobs ----------

  /** The drain runs a generic job while a promise job that was enqueued before the drain has still to run. */
  predicate Overtakes(s: State) {
    RunGeneric(s).ranGenerics != s.ranGenerics && RunGeneric(s).ranPromises != s.promised
  }

  lemma OvertakesWhen(s: State)
    requires Good(s, []) && !s.panicked
    ensures Overtakes(s) <==> s.generic != [] && s.promise != []
  {
    hide EnqueueHeld, HotPending, Load, Total, Executed;
    RunGenericConserves(s);
    assert s.promised == s.ranPromises + Names(s.promise) by {
      assert Names([]) == [];
      assert s.ranPromises + Names([]) == s.ranPromises;
    }
  }

  /** In every turn of every run a generic job overtakes a promise job exactly when, after the poll, a job of each kind
      is queued. */
  lemma OvertakesIff(jobs: seq<Job>, polls: seq<seq<nat>>, picks: seq<nat>)
    requires !Stops(Run(jobs, polls))
    ensures var s := PollOnce(Gather(Run(jobs, polls)), picks);
            Overtakes(s) <==> s.generic != [] && s.promise != []
  {
    hide Good, Total, Load, HotPending, Turns, Executed, Overtakes, Finished;
    Begin(jobs);
    TurnsConserve(EnqueueAll(Fresh, jobs), polls);
    var s := Run(jobs, polls);
    RunningIsSound(s);
    GatherConserves(s);
    PollOnceConserves(Gather(s), picks);
    OvertakesWhen(PollOnce(Gather(s), picks));
  }

  /** No chain of promise jobs is needed: a promise job and a generic job, enqueued in this order, run the other way
      round. */
  lemma LaterGenericRunsFirst()
    ensures var s := EnqueueAll(Fresh, [PromiseJob(1, []), GenericJob(2, [])]);
            && s.promised == [1] && s.posted == [2] && Overtakes(PollOnce(Gather(s), []))
            && RunGeneric(s).ranGenerics == [2] && RunGeneric(s).ranPromises == []
  {
    var jobs := [PromiseJob(1, []), GenericJob(2, [])];
    assert jobs[1..] == [jobs[1]] && jobs[1..][1..] == [];
    var s0 := Enqueue(Fresh, jobs[0]);
    var s1 := Enqueue(s0, jobs[1]);
    assert EnqueueAll(s0, jobs[1..]) == EnqueueAll(s1, []) == s1;
    assert EnqueueAll(Fresh, jobs) == s1;
    assert Gather(s1) == s1;
    assert RunGeneric(s1) == s1.(generic := [], ranGenerics := [2]);
  }

  // ---------- infinite schedules ----------

  function Prefix(schedule: nat -> seq<nat>, n: nat): seq<seq<nat>> {
    seq(n, i requires 0 <= i < n => schedule(i))
  }

  /** The state after `n` turns. */
  function StateAt(jobs: seq<Job>, schedule: nat -> seq<nat>, n: nat): State {
    Run(jobs, Prefix(schedule, n))
  }

  lemma {:induction false} TurnsAppend(s: State, polls: seq<seq<nat>>, p: seq<nat>)
    ensures Turns(s, polls + [p]) == if Stops(Turns(s, polls)) then Turns(s, polls) else Turn(Turns(s, polls), p)
    decreases |polls|
  {
    hide Turn, Stops;
    if polls == [] {
      assert polls + [p] == [p] && [p][1..] == [];
    } else if !Stops(s) {
      TurnsAppend(Turn(s, polls[0]), polls[1..], p);
      assert (polls + [p])[1..] == polls[1..] + [p];
    }
  }

  lemma NextState(jobs: seq<Job>, schedule: nat -> seq<nat>, n: nat)
    ensures var s := StateAt(jobs, schedule, n);
            StateAt(jobs, schedule, n + 1) == if Stops(s) then s else Turn(s, schedule(n))
  {
    hide Turn, Turns, Stops;
    assert Prefix(schedule, n + 1) == Prefix(schedule, n) + [schedule(n)];
    TurnsAppend(EnqueueAll(Fresh, jobs), Prefix(schedule, n), schedule(n));
  }

  ghost predicate BusyAfter(jobs: seq<Job>, schedule: nat -> seq<nat>, n: nat) {
    exists n': nat ::
      n <= n' && (Stops(StateAt(jobs, schedule, n')) || !Idle(StateAt(jobs, schedule, n'), schedule(n')))
  }

  /** The group never waits for ever: as long as the loop runs, a turn comes in which something is ready or queued. */
  ghost predicate Fair(jobs: seq<Job>, schedule: nat -> seq<nat>) {
    forall n: nat :: BusyAfter(jobs, schedule, n)
  }

  lemma StateIsGood(jobs: seq<Job>, schedule: nat -> seq<nat>, n: nat)
    ensures Good(StateAt(jobs, schedule, n), [])
  {
    hide Turns, Good;
    Begin(jobs);
    TurnsConserve(EnqueueAll(Fresh, jobs), Prefix(schedule, n));
  }

  lemma RunningIsSound(s: State)
    ensures !Stops(s) ==> !s.panicked
  {
  }

  /** Turns never raise the load. */
  lemma {:induction false} LoadFalls(jobs: seq<Job>, schedule: nat -> seq<nat>, m: nat, n: nat)
    requires m <= n && !Stops(StateAt(jobs, schedule, n))
    ensures Load(StateAt(jobs, schedule, n)) <= Load(StateAt(jobs, schedule, m))
    decreases n
  {
    hide Load, Turn, StateAt, Stops, Good, Total, HotPending, Executed, Idle;
    if m < n {
      var s := StateAt(jobs, schedule, n - 1);
      NextState(jobs, schedule, n - 1);
      RunningIsSound(StateAt(jobs, schedule, n));
      StateIsGood(jobs, schedule, n - 1);
      TurnConserves(s, schedule(n - 1));
      LoadFalls(jobs, schedule, m, n - 1);
    }
  }

  lemma {:induction false} FairStops(jobs: seq<Job>, schedule: nat -> seq<nat>, m: nat) returns (n: nat)
    requires Fair(jobs, schedule)
    ensures Stops(StateAt(jobs, schedule, n))
    decreases Load(StateAt(jobs, schedule, m))
  {
    hide Load, Turn, StateAt, Idle, Stops, Good, Total, HotPending, Executed;
    assert BusyAfter(jobs, schedule, m);
    n :| m <= n && (Stops(StateAt(jobs, schedule, n)) || !Idle(StateAt(jobs, schedule, n), schedule(n)));
    if !Stops(StateAt(jobs, schedule, n)) {
      LoadFalls(jobs, schedule, m, n);
      NextState(jobs, schedule, n);
      StateIsGood(jobs, schedule, n);
      TurnConserves(StateAt(jobs, schedule, n), schedule(n));
      if Stops(StateAt(jobs, schedule, n + 1)) {
        n := n + 1;
      } else {
        RunningIsSound(StateAt(jobs, schedule, n + 1));
        n := FairStops(jobs, schedule, n + 1);
      }
    }
  }

  /** Liveness: under every fair schedule the loop stops, having run every job exactly once unless some generic job
      enqueues a generic job. */
  lemma FairRunsComplete(jobs: seq<Job>, schedule: nat -> seq<nat>)
    requires Fair(jobs, schedule)
    ensures exists n: nat ::
              var s := StateAt(jobs, schedule, n);
              Stops(s) && (s.panicked <==> Hot(jobs)) && (!Hot(jobs) ==> Executed(s) == Ids(jobs))
  {
    hide Turns, Stops, Executed, Fair, Load, HotPending, Good;
    var n := FairStops(jobs, schedule, 0);
    var s := StateAt(jobs, schedule, n);
    Begin(jobs);
    TurnsConserve(EnqueueAll(Fresh, jobs), Prefix(schedule, n));
    if !s.panicked {
      ReturnsOnlyWhenDone(jobs, Prefix(schedule, n));
    }
  }
}
