/** The job executor over its queues, updated in place. */
module JobExecutors {
  import opened Jobs
  import opened JobLaws
  import opened JobRuns

  /** A job is called by enqueueing what it spawns. The ghost fields record the run. */
  class TokioJobExecutor {
    var promiseJobs: seq<Job>
    var asyncJobs: seq<Job>
    var genericJobs: seq<Job>
    ghost var promised: seq<nat>
    ghost var ranPromises: seq<nat>
    ghost var posted: seq<nat>
    ghost var ranGenerics: seq<nat>
    ghost var completed: seq<nat>

    ghost function Value(group: seq<Task>, panicked: bool): State
      reads this
    {
      State(promiseJobs, asyncJobs, genericJobs, group, promised, ranPromises, posted, ranGenerics, completed, panicked)
    }

    constructor ()
      ensures Value([], false) == Fresh
    {
      promiseJobs, asyncJobs, genericJobs := [], [], [];
      promised, ranPromises, posted, ranGenerics, completed := [], [], [], [], [];
    }

    /** False exactly when a run would return at once. */
    method HasPendingJobs() returns (pending: bool)
      requires Good(Value([], false), [])
      ensures pending <==> !Stops(Value([], false))
    {
      StartMeasures(asyncJobs);
      pending := promiseJobs != [] || asyncJobs != [] || genericJobs != [];
    }

    method EnqueueJob(job: Job)
      modifies this
      ensures forall group, panicked :: Value(group, panicked) == Enqueue(old(Value(group, panicked)), job)
    {
      match job
      case PromiseJob(id, _) =>
        promiseJobs, promised := promiseJobs + [job], promised + [id];
      case AsyncJob(_, _) =>
        asyncJobs := asyncJobs + [job];
      case GenericJob(id, _) =>
        genericJobs, posted := genericJobs + [job], posted + [id];
      case OtherJob(_) =>
    }

    /** A job or a poll runs: it enqueues `jobs`. */
    method Call(jobs: seq<Job>, ghost group: seq<Task>)
      modifies this
      ensures Value(group, false) == EnqueueAll(old(Value(group, false)), jobs)
    {
      var i := 0;
      while i < |jobs|
        invariant 0 <= i <= |jobs|
        invariant EnqueueAll(Value(group, false), jobs[i..]) == EnqueueAll(old(Value(group, false)), jobs)
      {
        EnqueueJob(jobs[i]);
        assert jobs[i..][1..] == jobs[i + 1..];
        i := i + 1;
      }
    }

    /** The same under a borrow of the generic queue. */
    method CallHeld(jobs: seq<Job>, ghost group: seq<Task>) returns (panicked: bool)
      modifies this
      ensures Value(group, panicked) == EnqueueHeld(old(Value(group, false)), jobs)
    {
      var i := 0;
      panicked := false;
      while i < |jobs|
        invariant 0 <= i <= |jobs|
        invariant EnqueueHeld(Value(group, false), jobs[i..]) == EnqueueHeld(old(Value(group, false)), jobs)
      {
        if jobs[i].GenericJob? {
          panicked := true;
          return;
        }
        EnqueueJob(jobs[i]);
        assert jobs[i..][1..] == jobs[i + 1..];
        i := i + 1;
      }
    }

    /** `drain_jobs`: one generic job, then the promise jobs that were waiting. */
    method DrainJobs(ghost group: seq<Task>) returns (panicked: bool)
      requires Sorted(Value(group, false))
      modifies this
      ensures Value(group, panicked) == Drain(old(Value(group, false)))
    {
      panicked := false;
      if genericJobs != [] {
        var generic := genericJobs[0];
        genericJobs, ranGenerics := genericJobs[1..], ranGenerics + [generic.id];
        panicked := CallHeld(generic.spawns, group);
      }
      assert Value(group, panicked) == RunGeneric(old(Value(group, false)));
      if panicked {
        return;
      }
      var jobs := promiseJobs;
      promiseJobs := [];
      RunAll(jobs, group);
    }

    method RunAll(jobs: seq<Job>, ghost group: seq<Task>)
      modifies this
      ensures Value(group, false) == RunPromises(old(Value(group, false)), jobs)
    {
      var i := 0;
      while i < |jobs|
        invariant 0 <= i <= |jobs|
        invariant RunPromises(Value(group, false), jobs[i..]) == RunPromises(old(Value(group, false)), jobs)
      {
        ranPromises := ranPromises + [jobs[i].id];
        if jobs[i].PromiseJob? {
          Call(jobs[i].spawns, group);
        }
        assert jobs[i..][1..] == jobs[i + 1..];
        i := i + 1;
      }
    }

    /** One future is polled. */
    method PollAt(group: seq<Task>, i: nat) returns (group': seq<Task>)
      requires i < |group|
      modifies this
      ensures Value(group', false) == Poll(old(Value(group, false)), i)
    {
      var t := group[i];
      Call(t.work.spawns, group);
      match t.work
      case Last(_) =>
        completed := completed + [t.id];
        group' := Remove(group, i);
      case More(_, rest) =>
        group' := group[i := Task(t.id, rest)];
    }

    /** `poll_once(group.next())`. */
    method PollGroup(group: seq<Task>, picks: seq<nat>) returns (group': seq<Task>)
      modifies this
      ensures Value(group', false) == PollOnce(old(Value(group, false)), picks)
    {
      group' := group;
      var k := 0;
      while k < |picks| && group' != []
        invariant 0 <= k <= |picks|
        invariant PollOnce(Value(group', false), picks[k..]) == PollOnce(old(Value(group, false)), picks)
      {
        var i := picks[k] % |group'|;
        var done := group'[i].work.Last?;
        group' := PollAt(group', i);
        if done {
          return;
        }
        assert picks[k..][1..] == picks[k + 1..];
        k := k + 1;
      }
    }

    /** The queued async jobs join the group. */
    method GatherJobs(group: seq<Task>) returns (group': seq<Task>)
      requires Sorted(Value(group, false))
      modifies this
      ensures Value(group', false) == Gather(old(Value(group, false)))
    {
      var jobs := asyncJobs;
      asyncJobs := [];
      group' := group;
      var i := 0;
      assert jobs[..] == jobs;
      while i < |jobs|
        invariant 0 <= i <= |jobs|
        invariant group' + Start(jobs[i..]) == group + Start(jobs)
        invariant Value(group, false) == old(Value(group, false)).(async := [])
      {
        group' := group' + [Task(jobs[i].id, jobs[i].work)];
        assert jobs[i..][1..] == jobs[i + 1..];
        i := i + 1;
      }
      assert group' + [] == group';
    }

    /** `run_jobs_async`: it returns with every queue and the group empty and every job run exactly once, or it
        panics because some generic job enqueues a generic job. `polls[r]` is what the runtime finds ready in turn
        `r`; the schedule must be long enough for the jobs and polls to come and the turns in which the group waits. */
    method RunJobsAsync(polls: seq<seq<nat>>) returns (panicked: bool, ghost group': seq<Task>)
      requires Good(Value([], false), [])
      requires |polls| >= Load(Value([], false)) + Waits(Value([], false), polls)
      modifies this
      ensures Value(group', panicked) == Turns(old(Value([], false)), polls)
      ensures panicked <==> old(HotPending(Value([], false)))
      ensures !panicked ==> promiseJobs == [] && asyncJobs == [] && genericJobs == [] && group' == []
      ensures !panicked ==> Executed(Value([], false)) == old(Total(Value([], false)))
      ensures !panicked ==> ranPromises == promised && ranGenerics == posted
    {
      hide Total, Load, HotPending, Executed, Drain, PollOnce, Fifo, Start;
      ghost var s0 := Value([], false);
      ghost var outcome := Turns(s0, polls);
      Outcome(s0, polls);
      var group: seq<Task> := [];
      var r := 0;
      while true
        invariant 0 <= r <= |polls|
        invariant Good(Value(group, false), [])
        invariant Turns(Value(group, false), polls[r..]) == outcome
        invariant |polls| - r >= Load(Value(group, false)) + Waits(Value(group, false), polls[r..])
        decreases |polls| - r
      {
        ghost var s := Value(group, false);
        group := GatherJobs(group);
        if group == [] && promiseJobs == [] && genericJobs == [] {
          return false, group;
        }
        assert !Stops(s);
        UnfinishedHasLoad(s);
        GatherConserves(s);
        PollOnceConserves(Gather(s), polls[r]);
        group := PollGroup(group, polls[r]);
        panicked := DrainJobs(group);
        TurnConserves(s, polls[r]);
        assert polls[r..][1..] == polls[r + 1..];
        r := r + 1;
        if panicked {
          return true, group;
        }
      }
    }
  }
}
