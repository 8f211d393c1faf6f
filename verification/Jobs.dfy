/** The job executor as values: jobs that spawn jobs, three queues, and the group of futures under way. */
module Jobs {
  /** A job is known by what it enqueues when it runs. Jobs of other kinds are not supported and are dropped. */
  datatype Job =
    | PromiseJob(id: nat, spawns: seq<Job>)
    | GenericJob(id: nat, spawns: seq<Job>)
    | AsyncJob(id: nat, work: Future)
    | OtherJob(id: nat)

  /** An async job's future: what each poll enqueues, up to the poll that completes it. */
  datatype Future =
    | Last(spawns: seq<Job>)
    | More(spawns: seq<Job>, rest: Future)

  datatype Task = Task(id: nat, work: Future)

  datatype State = State(
    promise: seq<Job>, async: seq<Job>, generic: seq<Job>, // the executor's queues
    group: seq<Task>,                                      // futures under way
    promised: seq<nat>, ranPromises: seq<nat>,             // promise jobs in the order enqueued, and run
    posted: seq<nat>, ranGenerics: seq<nat>,               // generic jobs likewise
    completed: seq<nat>,                                   // async jobs in the order completed
    panicked: bool
  )

  const Fresh := State([], [], [], [], [], [], [], [], [], false)

  function Enqueue(s: State, job: Job): State {
    match job
    case PromiseJob(id, _) => s.(promise := s.promise + [job], promised := s.promised + [id])
    case AsyncJob(_, _) => s.(async := s.async + [job])
    case GenericJob(id, _) => s.(generic := s.generic + [job], posted := s.posted + [id])
    case OtherJob(_) => s
  }

  function EnqueueAll(s: State, jobs: seq<Job>): State
    decreases |jobs|
  {
    if jobs == [] then s else EnqueueAll(Enqueue(s, jobs[0]), jobs[1..])
  }

  /** Enqueueing while the generic queue is still borrowed: a second borrow of it panics. */
  function EnqueueHeld(s: State, jobs: seq<Job>): State
    decreases |jobs|
  {
    if jobs == [] then s
    else if jobs[0].GenericJob? then s.(panicked := true)
    else EnqueueHeld(Enqueue(s, jobs[0]), jobs[1..])
  }

  /** At most one generic job. The queue stays borrowed while the job runs. */
  function RunGeneric(s: State): State {
    if s.generic == [] then s else
      var job := s.generic[0];
      var s' := s.(generic := s.generic[1..], ranGenerics := s.ranGenerics + [job.id]);
      if job.GenericJob? then EnqueueHeld(s', job.spawns) else s'
  }

  /** The promise jobs taken from the queue, in order; what they enqueue goes to the emptied queue. */
  function RunPromises(s: State, jobs: seq<Job>): State
    decreases |jobs|
  {
    if jobs == [] then s else
      var s' := s.(ranPromises := s.ranPromises + [jobs[0].id]);
      RunPromises(if jobs[0].PromiseJob? then EnqueueAll(s', jobs[0].spawns) else s', jobs[1..])
  }

  /** `drain_jobs`. */
  function Drain(s: State): State {
    var s1 := RunGeneric(s);
    if s1.panicked then s1 else RunPromises(s1.(promise := []), s1.promise)
  }

  function Remove(group: seq<Task>, i: nat): seq<Task>
    requires i < |group|
  {
    group[..i] + group[i + 1..]
  }

  /** One poll of the future in place `i`; a completed future leaves the group. */
  function Poll(s: State, i: nat): State
    requires i < |s.group|
  {
    var t := s.group[i];
    var s' := EnqueueAll(s, t.work.spawns);
    match t.work
    case Last(_) => s'.(group := Remove(s.group, i), completed := s'.completed + [t.id])
    case More(_, rest) => s'.(group := s.group[i := Task(t.id, rest)])
  }

  /** `poll_once` on the group: the runtime polls some futures (`picks`, taken modulo the group's size) until one
      completes, or until none of them is ready. */
  function PollOnce(s: State, picks: seq<nat>): State
    decreases |picks|
  {
    if picks == [] || s.group == [] then s else
      var i := picks[0] % |s.group|;
      if s.group[i].work.Last? then Poll(s, i) else PollOnce(Poll(s, i), picks[1..])
  }

  function Start(jobs: seq<Job>): seq<Task> {
    if jobs == [] then []
    else (if jobs[0].AsyncJob? then [Task(jobs[0].id, jobs[0].work)] else []) + Start(jobs[1..])
  }

  /** The head of the loop: all queued async jobs join the group. */
  function Gather(s: State): State {
    s.(group := s.group + Start(s.async), async := [])
  }

  predicate Finished(s: State) {
    s.group == [] && s.promise == [] && s.generic == []
  }

  /** The loop stops here: it returns, or it has panicked. */
  predicate Stops(s: State) {
    s.panicked || Finished(Gather(s))
  }

  /** One turn of the loop of `run_jobs_async`. */
  function Turn(s: State, picks: seq<nat>): State {
    Drain(PollOnce(Gather(s), picks))
  }

  /** A run of the loop, `polls[r]` being what the runtime finds ready in turn `r`. */
  function Turns(s: State, polls: seq<seq<nat>>): State
    decreases |polls|
  {
    if polls == [] || Stops(s) then s else Turns(Turn(s, polls[0]), polls[1..])
  }

  /** The queues hold jobs of their own kind. */
  ghost predicate Sorted(s: State) {
    && (forall i :: 0 <= i < |s.promise| ==> s.promise[i].PromiseJob?)
    && (forall i :: 0 <= i < |s.async| ==> s.async[i].AsyncJob?)
    && (forall i :: 0 <= i < |s.generic| ==> s.generic[i].GenericJob?)
  }
}
