/** The invariant the dispatch order establishes, and that every step of every interleaving keeps. */
module OrcInvariant {
  import opened Options
  import opened OrcJobs
  import opened OrcStore
  import opened OrcDispatch
  import opened Counting
  import opened Ordering

  /** What a job's state says about who holds it. */
  ghost predicate HeldAsStored(s: System, id: string)
    requires id in s.jobs
  {
    match s.jobs[id].state
    case Pending | Completed | Exhausted => Tokens(s, id) == 0 && Executions(s, id) == 0
    case Queued => Tokens(s, id) == 1 && Executions(s, id) == 0
    case Running | Failed => Tokens(s, id) == 0 && Executions(s, id) == 1
    case Cancelled => Tokens(s, id) + Executions(s, id) <= 1
  }

  /** How many runs were started, against the retries used. */
  ghost predicate RunsCounted(s: System, id: string)
    requires id in s.jobs
  {
    var j, n := s.jobs[id], StartsOf(s, id);
    && id in s.starts
    && 0 <= j.retryCount <= Budget(j)
    && match j.state
       case Pending | Queued => n == j.retryCount
       case Running | Failed | Completed => n == j.retryCount + 1
       case Exhausted => n == j.retryCount + 1 && j.retryCount == Budget(j)
       case Cancelled => j.retryCount <= n <= j.retryCount + 1
  }

  /** A job past the gate was let through after its RunAfter. */
  ghost predicate GateRespected(s: System, id: string)
    requires id in s.jobs
  {
    s.jobs[id].state in {State.Queued, State.Running, State.Failed, State.Completed, State.Exhausted}
    ==> Ready(s.jobs[id], s.clock)
  }

  ghost predicate JobInv(s: System, id: string) {
    if id in s.jobs
    then s.jobs[id].id == id && HeldAsStored(s, id) && RunsCounted(s, id) && GateRespected(s, id)
    else Tokens(s, id) == 0 && Executions(s, id) == 0
  }

  /** What a worker inside a run may assume about the stored record. */
  ghost predicate WorkerInv(s: System, w: Worker) {
    match w
    case Executing(job) => job.id in s.jobs && s.jobs[job.id].state in {State.Running, State.Cancelled}
    case Finished(job, _) => job.id in s.jobs && s.jobs[job.id].state in {State.Running, State.Cancelled}
    case Failing(job) => job.id in s.jobs && s.jobs[job.id].state == State.Failed
    case Deciding(job, current) => job.id in s.jobs && s.jobs[job.id] == current && current.state == State.Failed
    case _ => true
  }

  /** A job the scheduler listed is still exactly as listed, unless it was cancelled since. */
  ghost predicate StillListed(s: System, j: Job) {
    && j.id in s.jobs && j.state == State.Pending
    && (s.jobs[j.id] == j || s.jobs[j.id].state == State.Cancelled)
  }

  ghost predicate DistinctIds(js: seq<Job>) {
    forall i, j :: 0 <= i < j < |js| ==> js[i].id != js[j].id
  }

  /** `sent` picks some of the first `next` positions, in order. */
  ghost predicate InOrder(sent: seq<nat>, next: nat) {
    && (forall i :: 0 <= i < |sent| ==> sent[i] < next)
    && (forall i, j :: 0 <= i < j < |sent| ==> sent[i] < sent[j])
  }

  ghost predicate SchedulerInv(s: System) {
    match s.scheduler
    case Waiting => true
    case Listing(seen, found) =>
      && DistinctIds(found)
      && (forall i :: 0 <= i < |found| ==> found[i].id in seen && StillListed(s, found[i]))
    case Dispatching(ready, next, sent) =>
      next <= |ready| && TickInv(s, ready, next, sent) && ListedFrom(s, ready, next)
    case Sending(ready, next, sent) =>
      next < |ready| && TickInv(s, ready, next, sent) && ListedFrom(s, ready, next + 1)
    case Reverting(ready, next, sent) =>
      next < |ready| && TickInv(s, ready, next, sent) && ListedFrom(s, ready, next + 1)
  }

  /** The part of a tick already dealt with: what was sent keeps the dispatch order. */
  ghost predicate TickInv(s: System, ready: seq<Job>, next: nat, sent: seq<nat>)
    requires next <= |ready|
  {
    && Sorted(ready, DispatchesBefore) && DistinctIds(ready)
    && (forall i :: 0 <= i < |ready| ==> Ready(ready[i], s.clock))
    && InOrder(sent, next)
  }

  ghost predicate ListedFrom(s: System, ready: seq<Job>, from: nat) {
    forall i :: from <= i < |ready| ==> StillListed(s, ready[i])
  }

  ghost predicate Inv(s: System) {
    && (forall id :: JobInv(s, id))
    && (forall w :: 0 <= w < |s.workers| ==> WorkerInv(s, s.workers[w]))
    && SchedulerInv(s)
    && |s.queue| <= s.capacity
  }

  // ----- how the counts move

  lemma WorkerMoves(s: System, w: nat, next: Worker, id: string)
    requires w < |s.workers|
    ensures Count(s.workers[w := next], Holds(id))
         == Count(s.workers, Holds(id)) - (if Holds(id)(s.workers[w]) then 1 else 0) + (if Holds(id)(next) then 1 else 0)
    ensures Count(s.workers[w := next], Executes(id))
         == Count(s.workers, Executes(id)) - (if Executes(id)(s.workers[w]) then 1 else 0) + (if Executes(id)(next) then 1 else 0)
  {
    CountUpdate(s.workers, w, next, Holds(id));
    CountUpdate(s.workers, w, next, Executes(id));
  }

  /** Nobody else is inside a run of the job that worker `w` is running. */
  lemma SoleExecutor(s: System, w: nat, v: nat)
    requires Inv(s) && w < |s.workers| && v < |s.workers| && w != v
    requires InRun(s.workers[w]) && InRun(s.workers[v])
    ensures s.workers[w].job.id != s.workers[v].job.id
  {
    var id := s.workers[w].job.id;
    assert JobInv(s, id);
    if s.workers[v].job.id == id {
      CountAtLeastTwo(s.workers, if w < v then w else v, if w < v then v else w, Executes(id));
    }
  }

  /** A worker holding or running a job is counted. */
  lemma WorkerCounted(s: System, w: nat)
    requires w < |s.workers|
    ensures s.workers[w].Received? ==> Tokens(s, s.workers[w].job.id) >= 1
    ensures InRun(s.workers[w]) ==> Executions(s, s.workers[w].job.id) >= 1
  {
    if s.workers[w].Received? {
      CountAtLeastOne(s.workers, w, Holds(s.workers[w].job.id));
    } else if InRun(s.workers[w]) {
      CountAtLeastOne(s.workers, w, Executes(s.workers[w].job.id));
    }
  }
}
