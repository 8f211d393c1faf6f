/** In which order jobs run, against what was enqueued when. */
module JobOrder {
  import opened Arith
  import opened Jobs
  import opened JobLaws
  import opened JobRuns

  // ---------- the queues ----------

  function Generics(jobs: seq<Job>): seq<Job> {
    if jobs == [] then [] else (if jobs[0].GenericJob? then [jobs[0]] else []) + Generics(jobs[1..])
  }

  function Asyncs(jobs: seq<Job>): seq<Job> {
    if jobs == [] then [] else (if jobs[0].AsyncJob? then [jobs[0]] else []) + Asyncs(jobs[1..])
  }

  /** Each queue receives the jobs of its kind at its back, in order; nothing else changes. */
  ghost predicate Queued(s: State, s': State, jobs: seq<Job>) {
    && s'.promise == s.promise + Promises(jobs)
    && s'.generic == s.generic + Generics(jobs)
    && s'.async == s.async + Asyncs(jobs)
    && s'.promised == s.promised + Names(Promises(jobs))
    && s'.posted == s.posted + Names(Generics(jobs))
    && SameWork(s, s')
  }

  /** Nothing has run or been polled. */
  ghost predicate SameWork(s: State, s': State) {
    && s'.group == s.group && s'.completed == s.completed
    && s'.ranPromises == s.ranPromises && s'.ranGenerics == s.ranGenerics
  }

  lemma NamesConcat(a: seq<Job>, b: seq<Job>)
    ensures Names(a + b) == Names(a) + Names(b)
  {
  }

  lemma Reassociate(a: seq<Job>, b: seq<Job>, c: seq<Job>)
    ensures a + (b + c) == (a + b) + c
  {
  }

  lemma {:induction false} PromisesConcat(a: seq<Job>, b: seq<Job>)
    ensures Promises(a + b) == Promises(a) + Promises(b)
  {
    if a == [] {
      assert a + b == b;
    } else {
      PromisesConcat(a[1..], b);
      var first := if a[0].PromiseJob? then [a[0]] else [];
      assert (a + b)[0] == a[0] && (a + b)[1..] == a[1..] + b;
      Reassociate(first, Promises(a[1..]), Promises(b));
    }
  }

  lemma {:induction false} GenericsConcat(a: seq<Job>, b: seq<Job>)
    ensures Generics(a + b) == Generics(a) + Generics(b)
  {
    if a == [] {
      assert a + b == b;
    } else {
      GenericsConcat(a[1..], b);
      var first := if a[0].GenericJob? then [a[0]] else [];
      assert (a + b)[0] == a[0] && (a + b)[1..] == a[1..] + b;
      Reassociate(first, Generics(a[1..]), Generics(b));
    }
  }

  lemma {:induction false} AsyncsConcat(a: seq<Job>, b: seq<Job>)
    ensures Asyncs(a + b) == Asyncs(a) + Asyncs(b)
  {
    if a == [] {
      assert a + b == b;
    } else {
      AsyncsConcat(a[1..], b);
      var first := if a[0].AsyncJob? then [a[0]] else [];
      assert (a + b)[0] == a[0] && (a + b)[1..] == a[1..] + b;
      Reassociate(first, Asyncs(a[1..]), Asyncs(b));
    }
  }

  lemma KindsConcat(a: seq<Job>, b: seq<Job>)
    ensures Promises(a + b) == Promises(a) + Promises(b)
    ensures Generics(a + b) == Generics(a) + Generics(b)
    ensures Asyncs(a + b) == Asyncs(a) + Asyncs(b)
  {
    hide *;
    PromisesConcat(a, b);
    GenericsConcat(a, b);
    AsyncsConcat(a, b);
  }

  lemma NothingQueued(s: State)
    ensures Queued(s, s, [])
  {
    assert Names([]) == [];
  }

  lemma OneQueued(s: State, job: Job)
    ensures Queued(s, Enqueue(s, job), [job])
  {
    assert [job][1..] == [];
    assert Names([]) == [] && Names([job]) == [job.id];
  }

  lemma QueuedTrans(s: State, s1: State, s2: State, a: seq<Job>, b: seq<Job>)
    requires Queued(s, s1, a) && Queued(s1, s2, b)
    ensures Queued(s, s2, a + b)
  {
    hide Promises, Generics, Asyncs, Names;
    KindsConcat(a, b);
    NamesConcat(Promises(a), Promises(b));
    NamesConcat(Generics(a), Generics(b));
  }

  /** Enqueueing a list of jobs, from any state. */
  lemma {:induction false} EnqueueAllQueues(s: State, jobs: seq<Job>)
    ensures Queued(s, EnqueueAll(s, jobs), jobs) && EnqueueAll(s, jobs).panicked == s.panicked
    decreases |jobs|
  {
    hide Queued, Promises, Generics, Asyncs;
    if jobs == [] {
      NothingQueued(s);
    } else {
      OneQueued(s, jobs[0]);
      EnqueueAllQueues(Enqueue(s, jobs[0]), jobs[1..]);
      QueuedTrans(s, Enqueue(s, jobs[0]), EnqueueAll(s, jobs), [jobs[0]], jobs[1..]);
      assert [jobs[0]] + jobs[1..] == jobs;
    }
  }

  /** The jobs before the first generic one: all, if there is none. */
  function UpToGeneric(jobs: seq<Job>): seq<Job> {
    if jobs == [] || jobs[0].GenericJob? then [] else [jobs[0]] + UpToGeneric(jobs[1..])
  }

  lemma PanicQueuesNothing(s: State)
    ensures Queued(s, s.(panicked := true), [])
  {
    NothingQueued(s);
  }

  lemma {:induction false} EnqueueHeldQueues(s: State, jobs: seq<Job>)
    ensures Queued(s, EnqueueHeld(s, jobs), UpToGeneric(jobs))
    decreases |jobs|
  {
    hide Queued, Promises, Generics, Asyncs;
    if jobs == [] {
      NothingQueued(s);
    } else if jobs[0].GenericJob? {
      PanicQueuesNothing(s);
    } else {
      OneQueued(s, jobs[0]);
      EnqueueHeldQueues(Enqueue(s, jobs[0]), jobs[1..]);
      QueuedTrans(s, Enqueue(s, jobs[0]), EnqueueHeld(s, jobs), [jobs[0]], UpToGeneric(jobs[1..]));
    }
  }

  // ---------- what a run enqueues ----------

  /** What the generic job of a turn enqueues, up to a panic. */
  function ByGeneric(s: State): seq<Job> {
    if s.generic == [] || !s.generic[0].GenericJob? then [] else UpToGeneric(s.generic[0].spawns)
  }

  /** What promise jobs enqueue, one after the other. */
  function Spawned(jobs: seq<Job>): seq<Job> {
    if jobs == [] then [] else (if jobs[0].PromiseJob? then jobs[0].spawns else []) + Spawned(jobs[1..])
  }

  /** What the polls of a turn enqueue. */
  function ByPolls(s: State, picks: seq<nat>): seq<Job>
    decreases |picks|
  {
    if picks == [] || s.group == [] then [] else
      var i := picks[0] % |s.group|;
      s.group[i].work.spawns + (if s.group[i].work.Last? then [] else ByPolls(Poll(s, i), picks[1..]))
  }

  function ByDrain(s: State): seq<Job> {
    var s1 := RunGeneric(s);
    ByGeneric(s) + (if s1.panicked then [] else Spawned(s1.promise))
  }

  function ByTurn(s: State, picks: seq<nat>): seq<Job> {
    ByPolls(Gather(s), picks) + ByDrain(PollOnce(Gather(s), picks))
  }

  /** Everything a run enqueues, in the order in which it is enqueued. */
  function ByTurns(s: State, polls: seq<seq<nat>>): seq<Job>
    decreases |polls|
  {
    if polls == [] || Stops(s) then [] else ByTurn(s, polls[0]) + ByTurns(Turn(s, polls[0]), polls[1..])
  }

  /** The promise and generic jobs among `jobs` have been noted, in order. */
  ghost predicate Noted(s: State, s': State, jobs: seq<Job>) {
    && s'.promised == s.promised + Names(Promises(jobs))
    && s'.posted == s.posted + Names(Generics(jobs))
  }

  lemma NothingNoted(s: State, s': State)
    requires s'.promised == s.promised && s'.posted == s.posted
    ensures Noted(s, s', [])
  {
    assert Names([]) == [];
  }

  lemma NotedTrans(s: State, s1: State, s2: State, a: seq<Job>, b: seq<Job>)
    requires Noted(s, s1, a) && Noted(s1, s2, b)
    ensures Noted(s, s2, a + b)
  {
    hide Promises, Generics, Names;
    KindsConcat(a, b);
    NamesConcat(Promises(a), Promises(b));
    NamesConcat(Generics(a), Generics(b));
  }

  lemma GenericNotes(s: State)
    ensures Noted(s, RunGeneric(s), ByGeneric(s))
  {
    hide EnqueueHeld, UpToGeneric, Promises, Generics, Asyncs, Names;
    NothingNoted(s, s);
    if s.generic != [] {
      var job := s.generic[0];
      var s' := s.(generic := s.generic[1..], ranGenerics := s.ranGenerics + [job.id]);
      NothingNoted(s, s');
      if job.GenericJob? {
        EnqueueHeldQueues(s', job.spawns);
      }
    }
  }

  lemma {:induction false} PromisesNote(s: State, jobs: seq<Job>)
    ensures Noted(s, RunPromises(s, jobs), Spawned(jobs))
    decreases |jobs|
  {
    hide Noted, EnqueueAll, Promises, Generics, Asyncs, Names;
    if jobs == [] {
      NothingNoted(s, s);
    } else {
      var s' := s.(ranPromises := s.ranPromises + [jobs[0].id]);
      if jobs[0].PromiseJob? {
        var s1 := EnqueueAll(s', jobs[0].spawns);
        EnqueueAllQueues(s', jobs[0].spawns);
        QueuedNotes(s, s', s1, jobs[0].spawns);
        PromisesNote(s1, jobs[1..]);
        NotedTrans(s, s1, RunPromises(s, jobs), jobs[0].spawns, Spawned(jobs[1..]));
      } else {
        PromisesNote(s', jobs[1..]);
        NothingNoted(s, s');
        NotedTrans(s, s', RunPromises(s, jobs), [], Spawned(jobs[1..]));
      }
    }
  }

  lemma QueuedNotes(s: State, s1: State, s': State, jobs: seq<Job>)
    requires s1.promised == s.promised && s1.posted == s.posted && Queued(s1, s', jobs)
    ensures Noted(s, s', jobs)
  {
  }

  lemma DrainNotes(s: State)
    ensures Noted(s, Drain(s), ByDrain(s))
  {
    hide Noted, RunGeneric, RunPromises, ByGeneric, Spawned;
    GenericNotes(s);
    var s1 := RunGeneric(s);
    if s1.panicked {
      assert ByGeneric(s) + [] == ByGeneric(s);
    } else {
      var s2 := s1.(promise := []);
      PromisesNote(s2, s1.promise);
      NothingNoted(s1, s2);
      NotedTrans(s, s1, s2, ByGeneric(s), []);
      assert ByGeneric(s) + [] == ByGeneric(s);
      NotedTrans(s, s2, Drain(s), ByGeneric(s), Spawned(s1.promise));
    }
  }

  lemma PollNotes(s: State, i: nat)
    requires i < |s.group|
    ensures Noted(s, Poll(s, i), s.group[i].work.spawns)
  {
    hide EnqueueAll, Remove, Promises, Generics, Asyncs, Names;
    EnqueueAllQueues(s, s.group[i].work.spawns);
  }

  lemma {:induction false} PollsNote(s: State, picks: seq<nat>)
    ensures Noted(s, PollOnce(s, picks), ByPolls(s, picks))
    decreases |picks|
  {
    hide Noted, Poll;
    if picks == [] || s.group == [] {
      NothingNoted(s, s);
    } else {
      var i := picks[0] % |s.group|;
      PollNotes(s, i);
      if s.group[i].work.Last? {
        assert s.group[i].work.spawns + [] == s.group[i].work.spawns;
      } else {
        PollsNote(Poll(s, i), picks[1..]);
        NotedTrans(s, Poll(s, i), PollOnce(s, picks), s.group[i].work.spawns, ByPolls(Poll(s, i), picks[1..]));
      }
    }
  }

  lemma TurnNotes(s: State, picks: seq<nat>)
    ensures Noted(s, Turn(s, picks), ByTurn(s, picks))
  {
    hide Noted, PollOnce, Drain, ByPolls, ByDrain, Start;
    var g := Gather(s);
    NothingNoted(s, g);
    PollsNote(g, picks);
    DrainNotes(PollOnce(g, picks));
    NotedTrans(s, g, PollOnce(g, picks), [], ByPolls(g, picks));
    assert [] + ByPolls(g, picks) == ByPolls(g, picks);
    NotedTrans(s, PollOnce(g, picks), Turn(s, picks), ByPolls(g, picks), ByDrain(PollOnce(g, picks)));
  }

  lemma {:induction false} TurnsNote(s: State, polls: seq<seq<nat>>)
    ensures Noted(s, Turns(s, polls), ByTurns(s, polls))
    decreases |polls|
  {
    hide Noted, Turn, ByTurn, Stops;
    if polls == [] || Stops(s) {
      NothingNoted(s, s);
    } else {
      TurnNotes(s, polls[0]);
      TurnsNote(Turn(s, polls[0]), polls[1..]);
      NotedTrans(s, Turn(s, polls[0]), Turns(s, polls), ByTurn(s, polls[0]), ByTurns(Turn(s, polls[0]), polls[1..]));
    }
  }

  /** The jobs given to a fresh executor and all that its run enqueues, in order. */
  function Enqueued(jobs: seq<Job>, polls: seq<seq<nat>>): seq<Job> {
    jobs + ByTurns(EnqueueAll(Fresh, jobs), polls)
  }

  /** At every moment of every run, even after a panic, the promise jobs that have run are the first of the promise
      jobs enqueued so far, in the order in which they were enqueued, and likewise the generic jobs; when the loop
      returns they are all of them. */
  lemma RunsInOrderEnqueued(jobs: seq<Job>, polls: seq<seq<nat>>)
    ensures var s, all := Run(jobs, polls), Enqueued(jobs, polls);
            && s.ranPromises <= Names(Promises(all)) && s.ranGenerics <= Names(Generics(all))
            && (Stops(s) && !s.panicked ==>
                  s.ranPromises == Names(Promises(all)) && s.ranGenerics == Names(Generics(all)))
  {
    hide Turns, Stops, Executed, Pending, Ids, Hot, ByTurns, EnqueueAll, Promises, Generics, Asyncs, Names;
    var s0 := EnqueueAll(Fresh, jobs);
    EnqueueAllQueues(Fresh, jobs);
    assert Noted(Fresh, s0, jobs) by { QueuedNotes(Fresh, Fresh, s0, jobs); }
    TurnsNote(s0, polls);
    NotedTrans(Fresh, s0, Run(jobs, polls), jobs, ByTurns(s0, polls));
    EachJobAtMostOnceInOrder(jobs, polls);
    assert [] + Names(Promises(Enqueued(jobs, polls))) == Names(Promises(Enqueued(jobs, polls)));
    assert [] + Names(Generics(Enqueued(jobs, polls))) == Names(Generics(Enqueued(jobs, polls)));
    if Stops(Run(jobs, polls)) && !Run(jobs, polls).panicked {
      ReturnsOnlyWhenDone(jobs, polls);
    }
  }

  // ---------- promise jobs alone run breadth first ----------

  /** Nothing but promise jobs in the whole forest. */
  predicate AllPromises(jobs: seq<Job>) {
    jobs == [] || (IsPromises(jobs[0]) && AllPromises(jobs[1..]))
  }

  predicate IsPromises(job: Job) {
    job.PromiseJob? && AllPromises(job.spawns)
  }

  /** The ids of the first `depth` levels of a forest, level by level. */
  function BreadthFirst(jobs: seq<Job>, depth: nat): seq<nat>
    decreases depth
  {
    if depth == 0 then [] else Names(jobs) + BreadthFirst(Spawned(jobs), depth - 1)
  }

  lemma {:induction false} NothingBelow(depth: nat)
    ensures BreadthFirst([], depth) == []
  {
    if depth > 0 {
      NothingBelow(depth - 1);
      assert Names([]) == [];
    }
  }

  lemma {:induction false} AllPromisesConcat(a: seq<Job>, b: seq<Job>)
    requires AllPromises(a) && AllPromises(b)
    ensures AllPromises(a + b)
  {
    if a == [] {
      assert a + b == b;
    } else {
      AllPromisesConcat(a[1..], b);
      assert (a + b)[1..] == a[1..] + b;
    }
  }

  lemma {:induction false} SpawnedAllPromises(jobs: seq<Job>)
    requires AllPromises(jobs)
    ensures AllPromises(Spawned(jobs))
  {
    if jobs != [] {
      SpawnedAllPromises(jobs[1..]);
      assert IsPromises(jobs[0]);
      AllPromisesConcat(jobs[0].spawns, Spawned(jobs[1..]));
    }
  }

  lemma {:induction false} OnlyPromises(jobs: seq<Job>)
    requires AllPromises(jobs)
    ensures Promises(jobs) == jobs && Generics(jobs) == [] && Asyncs(jobs) == []
  {
    if jobs != [] {
      OnlyPromises(jobs[1..]);
      assert IsPromises(jobs[0]);
    }
  }

  /** The promise jobs `jobs` wait, and nothing else does. */
  predicate OnlyWaiting(s: State, jobs: seq<Job>) {
    s.promise == jobs && s.generic == [] && s.async == [] && s.group == [] && !s.panicked
  }

  /** The queue after some of the promise jobs taken have run. */
  lemma {:induction false} PromisesAlone(s: State, jobs: seq<Job>, queue: seq<Job>)
    requires OnlyWaiting(s, queue) && AllPromises(jobs)
    ensures OnlyWaiting(RunPromises(s, jobs), queue + Spawned(jobs))
    ensures RunPromises(s, jobs).ranPromises == s.ranPromises + Names(jobs)
    decreases |jobs|
  {
    hide EnqueueAll, Promises, Generics, Asyncs, AllPromises;
    if jobs == [] {
      assert queue + [] == queue && s.ranPromises + Names([]) == s.ranPromises;
    } else {
      FirstIsPromise(jobs);
      var s' := s.(ranPromises := s.ranPromises + [jobs[0].id]);
      var s1 := EnqueueAll(s', jobs[0].spawns);
      EnqueueAllQueues(s', jobs[0].spawns);
      OnlyPromises(jobs[0].spawns);
      assert s.ranPromises + [jobs[0].id] + Names(jobs[1..]) == s.ranPromises + Names(jobs);
      PromisesAlone(s1, jobs[1..], queue + jobs[0].spawns);
      assert queue + jobs[0].spawns + Spawned(jobs[1..]) == queue + (jobs[0].spawns + Spawned(jobs[1..]));
    }
  }

  lemma FirstIsPromise(jobs: seq<Job>)
    requires AllPromises(jobs) && jobs != []
    ensures jobs[0].PromiseJob? && AllPromises(jobs[0].spawns) && AllPromises(jobs[1..])
  {
    assert IsPromises(jobs[0]);
  }

  lemma TurnAlone(s: State, picks: seq<nat>, jobs: seq<Job>)
    requires OnlyWaiting(s, jobs) && AllPromises(jobs)
    ensures OnlyWaiting(Turn(s, picks), Spawned(jobs))
    ensures Turn(s, picks).ranPromises == s.ranPromises + Names(jobs)
  {
    hide RunPromises, AllPromises, Names, Spawned;
    assert Gather(s) == s by { assert s.group + Start(s.async) == s.group; }
    assert PollOnce(s, picks) == s;
    PromisesAlone(s.(promise := []), jobs, []);
    assert [] + Spawned(jobs) == Spawned(jobs);
  }

  lemma {:induction false} LevelsFrom(s: State, polls: seq<seq<nat>>, jobs: seq<Job>)
    requires OnlyWaiting(s, jobs) && AllPromises(jobs)
    ensures !Turns(s, polls).panicked
    ensures Turns(s, polls).ranPromises == s.ranPromises + BreadthFirst(jobs, |polls|)
    decreases |polls|
  {
    hide Turn, AllPromises, Spawned, Names;
    if polls == [] {
      assert s.ranPromises + [] == s.ranPromises;
    } else if Stops(s) {
      NothingBelow(|polls|);
      assert jobs == [] && s.ranPromises + [] == s.ranPromises;
    } else {
      TurnAlone(s, polls[0], jobs);
      SpawnedAllPromises(jobs);
      LevelsFrom(Turn(s, polls[0]), polls[1..], Spawned(jobs));
      assert s.ranPromises + Names(jobs) + BreadthFirst(Spawned(jobs), |polls| - 1)
          == s.ranPromises + (Names(jobs) + BreadthFirst(Spawned(jobs), |polls| - 1));
    }
  }

  /** A forest of promise jobs runs breadth first, one level a turn, each level in the order of its jobs, whatever the
      runtime does; and never panics. */
  lemma PromisesRunBreadthFirst(jobs: seq<Job>, polls: seq<seq<nat>>)
    requires AllPromises(jobs)
    ensures Run(jobs, polls).ranPromises == BreadthFirst(jobs, |polls|)
    ensures !Run(jobs, polls).panicked
  {
    hide EnqueueAll, Turns, BreadthFirst, Names, AllPromises;
    EnqueueAllQueues(Fresh, jobs);
    OnlyPromises(jobs);
    assert [] + jobs == jobs;
    LevelsFrom(EnqueueAll(Fresh, jobs), polls, jobs);
    assert [] + BreadthFirst(jobs, |polls|) == BreadthFirst(jobs, |polls|);
  }

  // ---------- futures ----------

  lemma {:induction false} RunPromisesCompletes(s: State, jobs: seq<Job>)
    ensures RunPromises(s, jobs).completed == s.completed
    decreases |jobs|
  {
    hide EnqueueAll, Promises, Generics, Asyncs, Names;
    if jobs != [] {
      var s' := s.(ranPromises := s.ranPromises + [jobs[0].id]);
      EnqueueAllQueues(s', if jobs[0].PromiseJob? then jobs[0].spawns else []);
      RunPromisesCompletes(if jobs[0].PromiseJob? then EnqueueAll(s', jobs[0].spawns) else s', jobs[1..]);
    }
  }

  lemma DrainCompletesNothing(s: State)
    ensures Drain(s).completed == s.completed
  {
    hide RunPromises, EnqueueHeld, Promises, Generics, Asyncs, Names, UpToGeneric;
    if s.generic != [] && s.generic[0].GenericJob? {
      var job := s.generic[0];
      EnqueueHeldQueues(s.(generic := s.generic[1..], ranGenerics := s.ranGenerics + [job.id]), job.spawns);
    }
    var s1 := RunGeneric(s);
    RunPromisesCompletes(s1.(promise := []), s1.promise);
  }

  /** What one round of polling may complete: one of the futures, or none. */
  ghost predicate CompletesOne(done: seq<nat>, done': seq<nat>, group: seq<Task>) {
    done' == done || exists i :: 0 <= i < |group| && done' == done + [group[i].id]
  }

  lemma PollCompletes(s: State, i: nat)
    requires i < |s.group|
    ensures Poll(s, i).completed == s.completed + (if s.group[i].work.Last? then [s.group[i].id] else [])
    ensures s.group[i].work.More? ==>
              && |Poll(s, i).group| == |s.group|
              && forall j :: 0 <= j < |s.group| ==> Poll(s, i).group[j].id == s.group[j].id
  {
    hide EnqueueAll, Remove, Promises, Generics, Asyncs, Names;
    EnqueueAllQueues(s, s.group[i].work.spawns);
  }

  lemma {:induction false} PollOnceCompletes(s: State, picks: seq<nat>)
    ensures CompletesOne(s.completed, PollOnce(s, picks).completed, s.group)
    decreases |picks|
  {
    hide Poll;
    if picks != [] && s.group != [] {
      var i := picks[0] % |s.group|;
      PollCompletes(s, i);
      if s.group[i].work.More? {
        PollOnceCompletes(Poll(s, i), picks[1..]);
        assert s.completed + [] == s.completed;
      }
    }
  }

  /** A turn completes at most one async job, one that is under way; and it may be any of those whose future is at its
      last poll, whenever it was enqueued: async jobs complete in no particular order. */
  lemma OneCompletionPerTurn(s: State, picks: seq<nat>, i: nat)
    ensures CompletesOne(s.completed, Turn(s, picks).completed, Gather(s).group)
    ensures i < |Gather(s).group| && Gather(s).group[i].work.Last? ==>
              Turn(s, [i]).completed == s.completed + [Gather(s).group[i].id]
  {
    hide PollOnce, Drain, Start, CompletesOne;
    PollOnceCompletes(Gather(s), picks);
    DrainCompletesNothing(PollOnce(Gather(s), picks));
    if i < |Gather(s).group| && Gather(s).group[i].work.Last? {
      ReadyCompletes(Gather(s), i);
      DrainCompletesNothing(PollOnce(Gather(s), [i]));
    }
  }

  lemma ReadyCompletes(s: State, i: nat)
    requires i < |s.group| && s.group[i].work.Last?
    ensures PollOnce(s, [i]).completed == s.completed + [s.group[i].id]
  {
    hide Poll;
    SmallMod(i, |s.group|);
    PollCompletes(s, i);
  }
}
