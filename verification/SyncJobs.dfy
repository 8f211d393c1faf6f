/** Forests without async jobs: they need nothing from the runtime. */
module SyncJobs {
  import opened Jobs
  import opened JobLaws
  import opened JobRuns

  /** No job of the forest is async. */
  predicate Sync(jobs: seq<Job>) {
    jobs == [] || (JobSync(jobs[0]) && Sync(jobs[1..]))
  }

  predicate JobSync(job: Job) {
    match job
    case PromiseJob(_, spawns) => Sync(spawns)
    case GenericJob(_, spawns) => Sync(spawns)
    case AsyncJob(_, _) => false
    case OtherJob(_) => true
  }

  predicate SyncState(s: State) {
    Sync(s.promise) && Sync(s.generic) && s.async == [] && s.group == []
  }

  lemma {:induction false} SyncAppend(jobs: seq<Job>, job: Job)
    requires Sync(jobs) && JobSync(job)
    ensures Sync(jobs + [job])
  {
    hide JobSync;
    if jobs == [] {
      assert jobs + [job] == [job] && [job][1..] == [];
    } else {
      SyncAppend(jobs[1..], job);
      assert (jobs + [job])[1..] == jobs[1..] + [job];
    }
  }

  lemma EnqueueStaysSync(s: State, job: Job)
    requires SyncState(s) && JobSync(job)
    ensures SyncState(Enqueue(s, job))
  {
    hide Sync;
    match job
    case PromiseJob(_, _) => SyncAppend(s.promise, job);
    case GenericJob(_, _) => SyncAppend(s.generic, job);
    case OtherJob(_) =>
  }

  lemma {:induction false} EnqueueAllStaysSync(s: State, jobs: seq<Job>)
    requires SyncState(s) && Sync(jobs)
    ensures SyncState(EnqueueAll(s, jobs))
    decreases |jobs|
  {
    hide SyncState, JobSync, Enqueue;
    if jobs != [] {
      EnqueueStaysSync(s, jobs[0]);
      EnqueueAllStaysSync(Enqueue(s, jobs[0]), jobs[1..]);
    }
  }

  lemma {:induction false} EnqueueHeldStaysSync(s: State, jobs: seq<Job>)
    requires SyncState(s) && Sync(jobs)
    ensures SyncState(EnqueueHeld(s, jobs))
    decreases |jobs|
  {
    hide JobSync, Enqueue;
    if jobs != [] && !jobs[0].GenericJob? {
      EnqueueStaysSync(s, jobs[0]);
      EnqueueHeldStaysSync(Enqueue(s, jobs[0]), jobs[1..]);
    }
  }

  lemma SpawnsSync(jobs: seq<Job>)
    requires Sync(jobs) && jobs != []
    ensures Sync(jobs[1..])
    ensures jobs[0].PromiseJob? || jobs[0].GenericJob? ==> Sync(jobs[0].spawns)
  {
    assert JobSync(jobs[0]);
  }

  lemma {:induction false} RunPromisesStaysSync(s: State, jobs: seq<Job>)
    requires SyncState(s) && Sync(jobs)
    ensures SyncState(RunPromises(s, jobs))
    decreases |jobs|
  {
    hide Sync, EnqueueAll;
    if jobs != [] {
      SpawnsSync(jobs);
      var s' := s.(ranPromises := s.ranPromises + [jobs[0].id]);
      if jobs[0].PromiseJob? {
        EnqueueAllStaysSync(s', jobs[0].spawns);
        RunPromisesStaysSync(EnqueueAll(s', jobs[0].spawns), jobs[1..]);
      } else {
        RunPromisesStaysSync(s', jobs[1..]);
      }
    }
  }

  lemma RunGenericStaysSync(s: State)
    requires SyncState(s)
    ensures SyncState(RunGeneric(s))
  {
    hide Sync, EnqueueHeld;
    if s.generic != [] {
      SpawnsSync(s.generic);
      var job := s.generic[0];
      var s' := s.(generic := s.generic[1..], ranGenerics := s.ranGenerics + [job.id]);
      if job.GenericJob? {
        EnqueueHeldStaysSync(s', job.spawns);
      }
    }
  }

  lemma NothingToPoll(s: State, picks: seq<nat>)
    requires s.async == [] && s.group == []
    ensures Gather(s) == s && PollOnce(s, picks) == s
  {
    assert s.group + Start(s.async) == s.group;
  }

  lemma TurnStaysSync(s: State, picks: seq<nat>)
    requires SyncState(s)
    ensures SyncState(Turn(s, picks))
  {
    hide Sync, RunGeneric, RunPromises, Gather, PollOnce;
    NothingToPoll(s, picks);
    RunGenericStaysSync(s);
    var s1 := RunGeneric(s);
    if !s1.panicked {
      NoJobs();
      RunPromisesStaysSync(s1.(promise := []), s1.promise);
    }
  }

  lemma NoJobs()
    ensures Sync([])
  {
  }

  lemma {:induction false} NeverWaits(s: State, polls: seq<seq<nat>>)
    requires SyncState(s)
    ensures Waits(s, polls) == 0
    decreases |polls|
  {
    hide Sync, Turn;
    if polls != [] && !Stops(s) {
      NothingToPoll(s, polls[0]);
      TurnStaysSync(s, polls[0]);
      NeverWaits(Turn(s, polls[0]), polls[1..]);
    }
  }

  /** Without async jobs the loop stops within as many turns as the forest has jobs, whatever the runtime does. */
  lemma SyncRunsStop(jobs: seq<Job>, polls: seq<seq<nat>>)
    requires Sync(jobs) && |polls| >= Weight(jobs)
    ensures Stops(Run(jobs, polls)) && (Run(jobs, polls).panicked <==> Hot(jobs))
  {
    hide EnqueueAll, Waits, Sync, Stops;
    NoJobs();
    assert SyncState(Fresh);
    EnqueueAllStaysSync(Fresh, jobs);
    NeverWaits(EnqueueAll(Fresh, jobs), polls);
    EveryRunStops(jobs, polls);
  }
}
