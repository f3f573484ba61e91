/** The dispatch protocol: one scheduler, a bounded channel, any number of workers and of cancel
    handlers, all over the shared store. A step is one store call or one channel operation, so
    every interleaving of the goroutines is a sequence of events. */
module OrcDispatch {
  import opened Options
  import opened OrcJobs
  import opened OrcStore
  import opened Counting
  import opened Ordering

  /** How a subprocess ended. Which one is up to the environment. */
  datatype Outcome = Interrupted | TimedOut | Errored(message: string) | Succeeded

  /** Where a worker stands between two store or channel operations. */
  datatype Worker =
    | Idle
    | Stopped
    | Received(job: Job)                    // dequeued, RUNNING not yet requested
    | Executing(job: Job)                   // RUNNING stored, subprocess alive
    | Finished(job: Job, outcome: Outcome)  // output stored
    | Failing(job: Job)                     // FAILED stored
    | Deciding(job: Job, current: Job)      // record reloaded

  /** Where the scheduler stands in a tick. `sent` holds the positions of `ready` that
      this tick has put on the channel. */
  datatype Scheduler =
    | Waiting
    | Listing(seen: set<string>, found: seq<Job>)
    | Dispatching(ready: seq<Job>, next: nat, sent: seq<nat>)
    | Sending(ready: seq<Job>, next: nat, sent: seq<nat>)    // QUEUED stored for ready[next]
    | Reverting(ready: seq<Job>, next: nat, sent: seq<nat>)  // the channel was full

  /** A cancel request: it reads once and may write later, on what it read. */
  datatype Handler = Asked(id: string) | Saw(id: string, state: State) | Answered

  /** `starts` counts, per job, how often the store accepted its move to RUNNING. */
  datatype System = System(
    jobs: Jobs, queue: seq<Job>, capacity: nat, scheduler: Scheduler, workers: seq<Worker>,
    handlers: seq<Handler>, clock: Time, starts: map<string, nat>)

  datatype Event =
    | Submit(id: string, work: Work, priority: int, maxRetries: int)
    | TickBegin
    | TickRead(id: string)
    | TickReady(ready: seq<Job>)
    | TickQueue
    | TickSend
    | TickHand(w: nat)
    | TickRevert
    | TickEnd
    | Dequeue(w: nat)
    | Start(w: nat)
    | Finish(w: nat, output: string, outcome: Outcome)
    | Conclude(w: nat)
    | Reload(w: nat)
    | Decide(w: nat)
    | Stop(w: nat)
    | CancelAsk(id: string)
    | CancelRead(h: nat)
    | CancelWrite(h: nat)
    | Advance(elapsed: nat)

  function Filter(s: seq<Job>, now: Time): seq<Job> {
    if s == [] then []
    else Filter(s[..|s| - 1], now) + (if Ready(s[|s| - 1], now) then [s[|s| - 1]] else [])
  }

  function Submitted(id: string, work: Work, priority: int, maxRetries: int, now: Time): Job {
    Job(id, work, Pending, priority, maxRetries, 0, None, now, None, None, "", "")
  }

  ghost predicate Enabled(s: System, e: Event) {
    match e
    case Submit(_, _, _, _) | CancelAsk(_) | Advance(_) => true
    case TickBegin => s.scheduler.Waiting?
    case TickRead(id) => s.scheduler.Listing? && id in s.jobs && id !in s.scheduler.seen
    case TickReady(ready) =>
      s.scheduler.Listing? && IsSortOf(ready, Filter(s.scheduler.found, s.clock), DispatchesBefore)
    case TickQueue => s.scheduler.Dispatching? && s.scheduler.next < |s.scheduler.ready|
    case TickSend => s.scheduler.Sending? && s.scheduler.next < |s.scheduler.ready|
    case TickHand(w) =>
      && s.scheduler.Sending? && s.scheduler.next < |s.scheduler.ready|
      && s.queue == [] && w < |s.workers| && s.workers[w].Idle?
    case TickRevert => s.scheduler.Reverting? && s.scheduler.next < |s.scheduler.ready|
    case TickEnd => s.scheduler.Dispatching? && s.scheduler.next == |s.scheduler.ready|
    case Dequeue(w) => w < |s.workers| && s.workers[w].Idle? && s.queue != []
    case Start(w) => w < |s.workers| && s.workers[w].Received?
    case Finish(w, _, _) => w < |s.workers| && s.workers[w].Executing?
    case Conclude(w) => w < |s.workers| && s.workers[w].Finished?
    case Reload(w) => w < |s.workers| && s.workers[w].Failing?
    case Decide(w) => w < |s.workers| && s.workers[w].Deciding? && s.workers[w].current.retryCount >= 0
    case Stop(w) => w < |s.workers| && s.workers[w].Idle?
    case CancelRead(h) => h < |s.handlers| && s.handlers[h].Asked?
    case CancelWrite(h) => h < |s.handlers| && s.handlers[h].Saw?
  }

  /** The store after a worker acts on how its subprocess ended. */
  function Concluded(jobs: Jobs, job: Job, outcome: Outcome, now: Time): Jobs {
    match outcome
    case Interrupted => AfterTransition(jobs, job.id, State.Cancelled, "cancelled by user", now)
    case TimedOut => AfterTransition(jobs, job.id, State.Failed, "timeout", now)
    case Errored(message) => AfterTransition(jobs, job.id, State.Failed, message, now)
    case Succeeded => AfterTransition(jobs, job.id, State.Completed, "", now)
  }

  /** The store after a worker settles a failed run: the retry overwrites the whole record with
      a bumped copy of what was read. */
  function Decided(jobs: Jobs, job: Job, current: Job, now: Time): Jobs
    requires current.retryCount >= 0
  {
    if current.retryCount < current.maxRetries then AfterUpdate(jobs, ScheduleRetry(current, now))
    else AfterTransition(jobs, job.id, State.Exhausted, "", now)
  }

  /** The store after a cancel handler acts on the state it read. */
  function CancelWritten(jobs: Jobs, id: string, saw: State, now: Time): Jobs {
    if saw == State.Pending || saw == State.Queued
    then AfterTransition(jobs, id, State.Cancelled, "cancelled by user", now)
    else jobs
  }

  function Apply(s: System, e: Event): System
    requires Enabled(s, e)
  {
    match e
    case Submit(id, work, priority, maxRetries) =>
      if id in s.jobs then s
      else s.(jobs := AfterCreate(s.jobs, Submitted(id, work, priority, maxRetries, s.clock)),
              starts := s.starts[id := 0])
    case TickBegin => s.(scheduler := Listing({}, []))
    case TickRead(id) =>
      var found := s.scheduler.found + if s.jobs[id].state == State.Pending then [s.jobs[id]] else [];
      s.(scheduler := Listing(s.scheduler.seen + {id}, found))
    case TickReady(ready) => s.(scheduler := Dispatching(ready, 0, []))
    case TickQueue =>
      var Dispatching(ready, next, sent) := s.scheduler;
      if CanTransition(s.jobs, ready[next].id, State.Queued)
      then s.(jobs := AfterTransition(s.jobs, ready[next].id, State.Queued, "", s.clock),
              scheduler := Sending(ready, next, sent))
      else s.(scheduler := Dispatching(ready, next + 1, sent))
    case TickSend =>
      var Sending(ready, next, sent) := s.scheduler;
      if |s.queue| < s.capacity
      then s.(queue := s.queue + [ready[next]], scheduler := Dispatching(ready, next + 1, sent + [next]))
      else s.(scheduler := Reverting(ready, next, sent))
    case TickHand(w) =>
      var Sending(ready, next, sent) := s.scheduler;
      s.(workers := s.workers[w := Received(ready[next])],
         scheduler := Dispatching(ready, next + 1, sent + [next]))
    case TickRevert =>
      var Reverting(ready, next, sent) := s.scheduler;
      s.(jobs := AfterTransition(s.jobs, ready[next].id, State.Pending, "", s.clock),
         scheduler := Dispatching(ready, next + 1, sent))
    case TickEnd => s.(scheduler := Waiting)
    case Dequeue(w) => s.(queue := s.queue[1..], workers := s.workers[w := Received(s.queue[0])])
    case Start(w) =>
      var job := s.workers[w].job;
      if CanTransition(s.jobs, job.id, State.Running)
      then s.(jobs := AfterTransition(s.jobs, job.id, State.Running, "", s.clock),
              workers := s.workers[w := Executing(job)],
              starts := s.starts[job.id := StartsOf(s, job.id) + 1])
      else s.(workers := s.workers[w := Idle])
    case Finish(w, output, outcome) =>
      var job := s.workers[w].job;
      s.(jobs := AfterOutput(s.jobs, job.id, output), workers := s.workers[w := Finished(job, outcome)])
    case Conclude(w) =>
      var Finished(job, outcome) := s.workers[w];
      var failed := (outcome.TimedOut? || outcome.Errored?) && CanTransition(s.jobs, job.id, State.Failed);
      s.(jobs := Concluded(s.jobs, job, outcome, s.clock),
         workers := s.workers[w := if failed then Failing(job) else Idle])
    case Reload(w) =>
      var job := s.workers[w].job;
      s.(workers := s.workers[w := if job.id in s.jobs then Deciding(job, s.jobs[job.id]) else Idle])
    case Decide(w) =>
      var Deciding(job, current) := s.workers[w];
      s.(jobs := Decided(s.jobs, job, current, s.clock), workers := s.workers[w := Idle])
    case Stop(w) => s.(workers := s.workers[w := Stopped])
    case CancelAsk(id) => s.(handlers := s.handlers + [Asked(id)])
    case CancelRead(h) =>
      var id := s.handlers[h].id;
      s.(handlers := s.handlers[h := if id in s.jobs then Saw(id, s.jobs[id].state) else Answered])
    case CancelWrite(h) =>
      var Saw(id, saw) := s.handlers[h];
      s.(jobs := CancelWritten(s.jobs, id, saw, s.clock), handlers := s.handlers[h := Answered])
    case Advance(elapsed) => s.(clock := s.clock + elapsed)
  }

  function StartsOf(s: System, id: string): nat {
    if id in s.starts then s.starts[id] else 0
  }

  /** A process just started: nothing stored, nothing queued, every worker idle. */
  ghost predicate Initial(s: System) {
    && s.jobs == map[] && s.starts == map[] && s.queue == [] && s.scheduler.Waiting?
    && s.handlers == [] && (forall w :: 0 <= w < |s.workers| ==> s.workers[w].Idle?)
  }

  /** `es` can happen from `s`, one event after the other. */
  ghost predicate Runs(s: System, es: seq<Event>)
    decreases |es|
  {
    es == [] || (Enabled(s, es[0]) && Runs(Apply(s, es[0]), es[1..]))
  }

  ghost function After(s: System, es: seq<Event>): System
    requires Runs(s, es)
    decreases |es|
  {
    if es == [] then s else After(Apply(s, es[0]), es[1..])
  }

  // ----- who holds a job

  function IsFor(id: string): Job -> bool {
    (j: Job) => j.id == id
  }

  /** The worker is between an accepted start and the last store call of that run. */
  predicate InRun(w: Worker) {
    w.Executing? || w.Finished? || w.Failing? || w.Deciding?
  }

  function Holds(id: string): Worker -> bool {
    (w: Worker) => w.Received? && w.job.id == id
  }

  function Executes(id: string): Worker -> bool {
    (w: Worker) => InRun(w) && w.job.id == id
  }

  function SchedulerToken(sc: Scheduler, id: string): nat {
    if (sc.Sending? || sc.Reverting?) && sc.next < |sc.ready| && sc.ready[sc.next].id == id then 1 else 0
  }

  /** The copies of a job on their way to a worker: mid-dispatch, in the channel, or received
      but not yet started. */
  function Tokens(s: System, id: string): nat {
    SchedulerToken(s.scheduler, id) + Count(s.queue, IsFor(id)) + Count(s.workers, Holds(id))
  }

  /** The workers inside an accepted run of the job. */
  function Executions(s: System, id: string): nat {
    Count(s.workers, Executes(id))
  }
}
