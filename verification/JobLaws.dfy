/** Exactly-once, order, panics and termination of the job executor. */
module JobLaws {
  import opened Jobs

  // ---------- three measures of a forest of jobs ----------

  /** Ids of all jobs that running the forest will run. */
  function Ids(jobs: seq<Job>): multiset<nat> {
    if jobs == [] then multiset{} else JobIds(jobs[0]) + Ids(jobs[1..])
  }

  function JobIds(job: Job): multiset<nat> {
    match job
    case PromiseJob(id, spawns) => multiset{id} + Ids(spawns)
    case GenericJob(id, spawns) => multiset{id} + Ids(spawns)
    case AsyncJob(id, work) => multiset{id} + FutureIds(work)
    case OtherJob(_) => multiset{}
  }

  function FutureIds(f: Future): multiset<nat> {
    match f
    case Last(spawns) => Ids(spawns)
    case More(spawns, rest) => Ids(spawns) + FutureIds(rest)
  }

  /** Jobs still to start, plus polls still to make. */
  function Weight(jobs: seq<Job>): nat {
    if jobs == [] then 0 else JobWeight(jobs[0]) + Weight(jobs[1..])
  }

  function JobWeight(job: Job): nat {
    match job
    case PromiseJob(_, spawns) => 1 + Weight(spawns)
    case GenericJob(_, spawns) => 1 + Weight(spawns)
    case AsyncJob(_, work) => 1 + FutureWeight(work)
    case OtherJob(_) => 0
  }

  function FutureWeight(f: Future): nat {
    match f
    case Last(spawns) => 1 + Weight(spawns)
    case More(spawns, rest) => 1 + Weight(spawns) + FutureWeight(rest)
  }

  /** Somewhere in the forest a generic job enqueues a generic job. */
  predicate Hot(jobs: seq<Job>) {
    jobs != [] && (JobHot(jobs[0]) || Hot(jobs[1..]))
  }

  predicate JobHot(job: Job) {
    match job
    case PromiseJob(_, spawns) => Hot(spawns)
    case GenericJob(_, spawns) => Hot(spawns) || HasGeneric(spawns)
    case AsyncJob(_, work) => FutureHot(work)
    case OtherJob(_) => false
  }

  predicate FutureHot(f: Future) {
    match f
    case Last(spawns) => Hot(spawns)
    case More(spawns, rest) => Hot(spawns) || FutureHot(rest)
  }

  predicate HasGeneric(jobs: seq<Job>) {
    jobs != [] && (jobs[0].GenericJob? || HasGeneric(jobs[1..]))
  }

  function GroupIds(group: seq<Task>): multiset<nat> {
    if group == [] then multiset{} else TaskIds(group[0]) + GroupIds(group[1..])
  }

  function TaskIds(t: Task): multiset<nat> {
    multiset{t.id} + FutureIds(t.work)
  }

  function GroupWeight(group: seq<Task>): nat {
    if group == [] then 0 else FutureWeight(group[0].work) + GroupWeight(group[1..])
  }

  predicate GroupHot(group: seq<Task>) {
    group != [] && (FutureHot(group[0].work) || GroupHot(group[1..]))
  }

  lemma {:induction false} ConcatIds(a: seq<Job>, b: seq<Job>)
    ensures Ids(a + b) == Ids(a) + Ids(b)
  {
    hide JobIds, FutureIds;
    if a == [] {
      assert a + b == b;
    } else {
      ConcatIds(a[1..], b);
      assert (a + b)[1..] == a[1..] + b;
    }
  }

  lemma {:induction false} ConcatWeight(a: seq<Job>, b: seq<Job>)
    ensures Weight(a + b) == Weight(a) + Weight(b)
  {
    hide JobWeight, FutureWeight;
    if a == [] {
      assert a + b == b;
    } else {
      ConcatWeight(a[1..], b);
      assert (a + b)[1..] == a[1..] + b;
    }
  }

  lemma {:induction false} ConcatHot(a: seq<Job>, b: seq<Job>)
    ensures Hot(a + b) <==> Hot(a) || Hot(b)
  {
    hide JobHot, FutureHot;
    if a == [] {
      assert a + b == b;
    } else {
      ConcatHot(a[1..], b);
      assert (a + b)[1..] == a[1..] + b;
    }
  }

  lemma Concat(a: seq<Job>, b: seq<Job>)
    ensures Ids(a + b) == Ids(a) + Ids(b)
    ensures Weight(a + b) == Weight(a) + Weight(b)
    ensures Hot(a + b) <==> Hot(a) || Hot(b)
  {
    ConcatIds(a, b);
    ConcatWeight(a, b);
    ConcatHot(a, b);
  }

  lemma One(job: Job)
    ensures Ids([job]) == JobIds(job) && Weight([job]) == JobWeight(job) && (Hot([job]) <==> JobHot(job))
  {
    hide JobIds, JobWeight, JobHot;
    assert [job][1..] == [];
  }

  lemma {:induction false} GroupConcatIds(a: seq<Task>, b: seq<Task>)
    ensures GroupIds(a + b) == GroupIds(a) + GroupIds(b)
  {
    hide TaskIds;
    if a == [] {
      assert a + b == b;
    } else {
      GroupConcatIds(a[1..], b);
      assert (a + b)[1..] == a[1..] + b;
    }
  }

  lemma {:induction false} GroupConcat(a: seq<Task>, b: seq<Task>)
    ensures GroupIds(a + b) == GroupIds(a) + GroupIds(b)
    ensures GroupWeight(a + b) == GroupWeight(a) + GroupWeight(b)
    ensures GroupHot(a + b) <==> GroupHot(a) || GroupHot(b)
  {
    hide FutureIds, FutureWeight, FutureHot, GroupIds;
    GroupConcatIds(a, b);
    if a == [] {
      assert a + b == b;
    } else {
      GroupConcat(a[1..], b);
      assert (a + b)[1..] == a[1..] + b;
    }
  }

  lemma GroupOne(t: Task)
    ensures GroupIds([t]) == TaskIds(t)
    ensures GroupWeight([t]) == FutureWeight(t.work)
    ensures GroupHot([t]) <==> FutureHot(t.work)
  {
    hide FutureIds, FutureWeight, FutureHot;
    assert [t][1..] == [];
  }

  lemma {:induction false} StartMeasures(jobs: seq<Job>)
    requires forall i :: 0 <= i < |jobs| ==> jobs[i].AsyncJob?
    ensures GroupIds(Start(jobs)) == Ids(jobs)
    ensures GroupWeight(Start(jobs)) + |jobs| == Weight(jobs)
    ensures GroupHot(Start(jobs)) <==> Hot(jobs)
    ensures |Start(jobs)| == |jobs|
  {
    hide FutureIds, FutureWeight, FutureHot;
    if jobs != [] {
      StartMeasures(jobs[1..]);
      GroupConcat([Task(jobs[0].id, jobs[0].work)], Start(jobs[1..]));
      GroupOne(Task(jobs[0].id, jobs[0].work));
    }
  }

  // ---------- the whole state ----------

  /** Everything still to be run. */
  function Pending(s: State): multiset<nat> {
    Ids(s.promise) + Ids(s.async) + Ids(s.generic) + GroupIds(s.group)
  }

  function Executed(s: State): multiset<nat> {
    multiset(s.ranPromises) + multiset(s.ranGenerics) + multiset(s.completed)
  }

  function Total(s: State): multiset<nat> {
    Executed(s) + Pending(s)
  }

  function Load(s: State): nat {
    Weight(s.promise) + Weight(s.async) + Weight(s.generic) + GroupWeight(s.group)
  }

  predicate HotQueues(s: State) {
    Hot(s.promise) || Hot(s.async) || Hot(s.generic)
  }

  predicate HotPending(s: State) {
    HotQueues(s) || GroupHot(s.group)
  }

  function Names(jobs: seq<Job>): seq<nat> {
    seq(|jobs|, i requires 0 <= i < |jobs| => jobs[i].id)
  }

  /** Both queues serve in the order of enqueueing; `taken` are promise jobs taken from the queue but not yet run. */
  ghost predicate Fifo(s: State, taken: seq<Job>) {
    && s.promised == s.ranPromises + Names(taken) + Names(s.promise)
    && s.posted == s.ranGenerics + Names(s.generic)
  }

  ghost predicate Good(s: State, taken: seq<Job>) {
    Sorted(s) && (forall i :: 0 <= i < |taken| ==> taken[i].PromiseJob?) && Fifo(s, taken)
  }

  /** What enqueueing `jobs` does to a state. */
  ghost predicate Grows(s: State, s': State, jobs: seq<Job>) {
    && Pending(s') == Pending(s) + Ids(jobs)
    && Load(s') == Load(s) + Weight(jobs)
    && (HotQueues(s') <==> HotQueues(s) || Hot(jobs))
    && s'.ranPromises == s.ranPromises && s'.ranGenerics == s.ranGenerics && s'.completed == s.completed
    && s'.group == s.group && s'.panicked == s.panicked
  }

  lemma EnqueueKeepsGood(s: State, job: Job, taken: seq<Job>)
    requires Good(s, taken)
    ensures Good(Enqueue(s, job), taken)
  {
    match job
    case PromiseJob(id, _) =>
      assert Names(s.promise + [job]) == Names(s.promise) + [id];
    case AsyncJob(_, _) =>
    case GenericJob(id, _) =>
      assert Names(s.generic + [job]) == Names(s.generic) + [id];
    case OtherJob(_) =>
  }

  lemma Ignored(job: Job)
    requires job.OtherJob?
    ensures Ids([job]) == multiset{} && Weight([job]) == 0 && !Hot([job])
  {
    One(job);
  }

  lemma EnqueueGrows(s: State, job: Job)
    ensures Grows(s, Enqueue(s, job), [job])
  {
    hide Ids, Weight, Hot, JobIds, JobWeight, JobHot, GroupIds, GroupWeight, GroupHot;
    match job
    case PromiseJob(_, _) => Concat(s.promise, [job]);
    case AsyncJob(_, _) => Concat(s.async, [job]);
    case GenericJob(_, _) => Concat(s.generic, [job]);
    case OtherJob(_) => Ignored(job);
  }

  /** One job, then the rest. */
  lemma GrowsTrans(s: State, s1: State, s2: State, jobs: seq<Job>)
    requires jobs != [] && Grows(s, s1, [jobs[0]]) && Grows(s1, s2, jobs[1..])
    ensures Grows(s, s2, jobs)
  {
    hide Pending, Load, HotQueues, Ids, Weight, Hot;
    assert jobs == [jobs[0]] + jobs[1..];
    Concat([jobs[0]], jobs[1..]);
  }

  lemma {:induction false} EnqueueAllGrows(s: State, jobs: seq<Job>, taken: seq<Job>)
    requires Good(s, taken)
    ensures Good(EnqueueAll(s, jobs), taken) && Grows(s, EnqueueAll(s, jobs), jobs)
    decreases |jobs|
  {
    hide Good, Pending, Load, HotQueues, Enqueue;
    if jobs == [] {
      assert Ids(jobs) == multiset{};
    } else {
      EnqueueKeepsGood(s, jobs[0], taken);
      EnqueueGrows(s, jobs[0]);
      EnqueueAllGrows(Enqueue(s, jobs[0]), jobs[1..], taken);
      GrowsTrans(s, Enqueue(s, jobs[0]), EnqueueAll(s, jobs), jobs);
    }
  }

  /** Under the borrow the same happens, unless one of the jobs is generic: then it panics, and only then. */
  lemma {:induction false} EnqueueHeldGrows(s: State, jobs: seq<Job>)
    requires Good(s, []) && !s.panicked
    ensures Good(EnqueueHeld(s, jobs), [])
    ensures EnqueueHeld(s, jobs).panicked <==> HasGeneric(jobs)
    ensures !HasGeneric(jobs) ==> Grows(s, EnqueueHeld(s, jobs), jobs)
    ensures EnqueueHeld(s, jobs).ranGenerics == s.ranGenerics && EnqueueHeld(s, jobs).ranPromises == s.ranPromises
    ensures EnqueueHeld(s, jobs).completed == s.completed
    decreases |jobs|
  {
    hide Pending, Load, HotQueues;
    if jobs == [] {
      assert Ids(jobs) == multiset{};
    } else if !jobs[0].GenericJob? {
      EnqueueKeepsGood(s, jobs[0], []);
      EnqueueGrows(s, jobs[0]);
      EnqueueHeldGrows(Enqueue(s, jobs[0]), jobs[1..]);
      if !HasGeneric(jobs) {
        GrowsTrans(s, Enqueue(s, jobs[0]), EnqueueHeld(s, jobs), jobs);
      }
    }
  }
}
