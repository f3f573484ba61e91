/** The orchestrator's job record, its transition table and its retry policy. */
module OrcJobs {
  import opened Options
  import Backoff

  type Time = int

  datatype State = Pending | Queued | Running | Completed | Failed | Exhausted | Cancelled

  /** What the client asked to run; no operation changes it. */
  datatype Work = Work(name: string, kind: string, command: string, args: seq<string>, timeoutSeconds: int)

  datatype Job = Job(
    id: string, work: Work, state: State, priority: int, maxRetries: int, retryCount: int,
    runAfter: Option<Time>, createdAt: Time, startedAt: Option<Time>, finishedAt: Option<Time>,
    output: string, errorMessage: string)

  /** The table of legal moves. */
  predicate Allowed(from: State, to: State) {
    match from
    case Pending => to == Queued || to == Cancelled
    case Queued => to == Running || to == Cancelled || to == Pending
    case Running => to == Completed || to == Failed || to == Cancelled
    case Failed => to == Pending || to == Exhausted
    case Completed | Exhausted | Cancelled => false
  }

  /** The states with no way out of the table. FAILED is not one of them. */
  predicate Absorbing(state: State) {
    state == Completed || state == Exhausted || state == Cancelled
  }

  /** The states on which the store stamps FinishedAt. */
  predicate StampsFinish(state: State) {
    Absorbing(state) || state == Failed
  }

  /** The record after a validated move to `to` at time `now`. */
  function Entered(job: Job, to: State, message: string, now: Time): Job {
    job.(state := to,
         errorMessage := if message != "" then message else job.errorMessage,
         startedAt := if to == Running && job.startedAt == None then Some(now) else job.startedAt,
         finishedAt := if StampsFinish(to) && job.finishedAt == None then Some(now) else job.finishedAt)
  }

  /** A copy of the job bumped for another attempt. */
  function ScheduleRetry(job: Job, now: Time): Job
    requires job.retryCount >= 0
  {
    job.(retryCount := job.retryCount + 1,
         runAfter := Some(now + Backoff.Delay(job.retryCount + 1)),
         state := Pending,
         startedAt := None,
         finishedAt := None)
  }

  /** How many retries a job may ever use. */
  function Budget(job: Job): nat {
    if job.maxRetries > 0 then job.maxRetries else 0
  }

  /** The backoff gate, a strict comparison. */
  predicate Ready(job: Job, now: Time) {
    job.runAfter == None || job.runAfter.value < now
  }

  /** Higher priority first, then earlier creation. */
  predicate DispatchesBefore(a: Job, b: Job) {
    a.priority > b.priority || (a.priority == b.priority && a.createdAt <= b.createdAt)
  }
}
