/** What holds in every interleaving of scheduler, workers and cancel handlers. */
module OrcTheorems {
  import opened Options
  import opened OrcJobs
  import opened OrcStore
  import opened OrcDispatch
  import opened OrcInvariant
  import opened OrcSteps
  import opened Counting
  import opened Ordering

  lemma {:induction false} RunKeepsInv(s: System, es: seq<Event>)
    requires Inv(s) && Runs(s, es)
    ensures Inv(After(s, es))
    decreases |es|
  {
    if es == [] {
    } else {
      StepKeepsInv(s, es[0]);
      RunKeepsInv(Apply(s, es[0]), es[1..]);
    }
  }

  ghost predicate Reachable(t: System) {
    exists s, es :: Initial(s) && Runs(s, es) && After(s, es) == t
  }

  lemma ReachableInv(t: System)
    requires Reachable(t)
    ensures Inv(t)
  {
    var s, es :| Initial(s) && Runs(s, es) && After(s, es) == t;
    InitialInv(s);
    RunKeepsInv(s, es);
  }

  // ----- tokens

  /** Whatever the interleaving, a job has at most one copy on its way to a worker and at most one
      worker inside its run, never both; a QUEUED job has exactly one copy, so it is not stranded;
      and a copy belongs to a job that is QUEUED or was cancelled on the way. */
  lemma DispatchTokens(t: System, id: string)
    requires Reachable(t)
    ensures Tokens(t, id) + Executions(t, id) <= 1
    ensures id in t.jobs && t.jobs[id].state == State.Queued ==> Tokens(t, id) == 1
    ensures Tokens(t, id) == 1 ==> id in t.jobs && t.jobs[id].state in {State.Queued, State.Cancelled}
    ensures id in t.jobs && t.jobs[id].state == State.Running ==> Executions(t, id) == 1
    ensures Executions(t, id) == 1
            ==> id in t.jobs && t.jobs[id].state in {State.Running, State.Failed, State.Cancelled}
  {
    ReachableInv(t);
    assert JobInv(t, id);
  }

  /** No two workers are ever inside runs of the same job. */
  lemma NoDoubleExecution(t: System, v: nat, w: nat)
    requires Reachable(t) && v < |t.workers| && w < |t.workers| && v != w
    requires InRun(t.workers[v]) && InRun(t.workers[w])
    ensures t.workers[v].job.id != t.workers[w].job.id
  {
    ReachableInv(t);
    SoleExecutor(t, v, w);
  }

  /** A worker that dequeues a QUEUED job is never refused: the start is skipped exactly when the
      job was cancelled in between. */
  lemma StartRefusedOnlyIfCancelled(t: System, w: nat)
    requires Reachable(t) && Enabled(t, Start(w))
    ensures var id := t.workers[w].job.id;
            && id in t.jobs
            && (Apply(t, Start(w)).workers[w].Idle? <==> t.jobs[id].state == State.Cancelled)
            && (Apply(t, Start(w)).workers[w].Executing? <==> t.jobs[id].state == State.Queued)
  {
    ReachableInv(t);
    WorkerCounted(t, w);
    assert JobInv(t, t.workers[w].job.id);
  }

  // ----- legal moves

  /** What a client fixed when submitting. */
  ghost predicate SameRequest(a: Job, b: Job) {
    a.id == b.id && a.work == b.work && a.priority == b.priority && a.maxRetries == b.maxRetries && a.createdAt == b.createdAt
  }

  /** `after` is `before`, or `before` moved along one of the table's ten edges. The request never changes,
      and the retry count only on the way from FAILED back to PENDING, within the budget. */
  ghost predicate LegalRecord(before: Job, after: Job) {
    && SameRequest(before, after)
    && (after.state == before.state
        || (before.state, after.state) in {
             (State.Pending, State.Queued), (State.Pending, State.Cancelled),
             (State.Queued, State.Running), (State.Queued, State.Cancelled), (State.Queued, State.Pending),
             (State.Running, State.Completed), (State.Running, State.Failed), (State.Running, State.Cancelled),
             (State.Failed, State.Pending), (State.Failed, State.Exhausted)})
    && (if before.state == State.Failed && after.state == State.Pending
        then after.retryCount == before.retryCount + 1 <= Budget(before)
        else after.retryCount == before.retryCount)
    && (before.state == State.Failed && after.state == State.Exhausted ==> before.retryCount >= before.maxRetries)
  }

  ghost predicate LegalStep(before: Jobs, after: Jobs) {
    forall id :: id in before ==> id in after && LegalRecord(before[id], after[id])
  }

  /** The overwrite of a whole record on retry acts on exactly what the store holds at that
      moment, so it loses no write; and it is the table's FAILED to PENDING edge. */
  lemma RetryOverwriteIsAtomic(t: System, w: nat)
    requires Inv(t) && Enabled(t, Decide(w))
    ensures var Deciding(job, current) := t.workers[w];
            && job.id in t.jobs && current == t.jobs[job.id]
            && (if current.retryCount < current.maxRetries
                then && Apply(t, Decide(w)).jobs == t.jobs[job.id := ScheduleRetry(t.jobs[job.id], t.clock)]
                     && t.jobs[job.id].state == State.Failed
                     && Allowed(t.jobs[job.id].state, Apply(t, Decide(w)).jobs[job.id].state)
                else Apply(t, Decide(w)).jobs[job.id].state == State.Exhausted)
  {
    assert WorkerInv(t, t.workers[w]);
    assert JobInv(t, t.workers[w].job.id);
  }

  lemma TransitionIsLegal(jobs: Jobs, id: string, to: State, message: string, now: Time)
    requires id in jobs && jobs[id].state == State.Failed ==> to != State.Pending && to != State.Exhausted
    ensures LegalStep(jobs, AfterTransition(jobs, id, to, message, now))
  {
  }

  /** Every stored change, by any of the concurrent writers, is legal. */
  lemma StepIsLegal(s: System, e: Event)
    requires Inv(s) && Enabled(s, e)
    ensures LegalStep(s.jobs, Apply(s, e).jobs)
  {
    if e.TickQueue? || e.TickRevert? {
      DispatchIsLegal(s, e);
    } else if e.Start? || e.Conclude? || e.Decide? {
      RunIsLegal(s, e);
    } else if e.CancelWrite? {
      TransitionIsLegal(s.jobs, s.handlers[e.h].id, State.Cancelled, "cancelled by user", s.clock);
    }
  }

  lemma DispatchIsLegal(s: System, e: Event)
    requires Inv(s) && Enabled(s, e) && (e.TickQueue? || e.TickRevert?)
    ensures LegalStep(s.jobs, Apply(s, e).jobs)
  {
    var id := s.scheduler.ready[s.scheduler.next].id;
    if e.TickQueue? {
      TransitionIsLegal(s.jobs, id, State.Queued, "", s.clock);
    } else {
      assert JobInv(s, id);
      TransitionIsLegal(s.jobs, id, State.Pending, "", s.clock);
    }
  }

  lemma RunIsLegal(s: System, e: Event)
    requires Inv(s) && Enabled(s, e) && (e.Start? || e.Conclude? || e.Decide?)
    ensures LegalStep(s.jobs, Apply(s, e).jobs)
  {
    match e
    case Start(w) => TransitionIsLegal(s.jobs, s.workers[w].job.id, State.Running, "", s.clock);
    case Conclude(w) => ConclusionIsLegal(s.jobs, s.workers[w].job, s.workers[w].outcome, s.clock);
    case Decide(w) => DecisionIsLegal(s, w);
  }

  lemma DecisionIsLegal(s: System, w: nat)
    requires Inv(s) && Enabled(s, Decide(w))
    ensures LegalStep(s.jobs, Apply(s, Decide(w)).jobs)
  {
    assert WorkerInv(s, s.workers[w]);
    assert JobInv(s, s.workers[w].job.id);
    SettlingIsLegal(s.jobs, s.workers[w].job, s.clock);
  }

  /** Settling a failed run on its stored record. */
  lemma SettlingIsLegal(jobs: Jobs, job: Job, now: Time)
    requires job.id in jobs && jobs[job.id].id == job.id && jobs[job.id].state == State.Failed && jobs[job.id].retryCount >= 0
    ensures LegalStep(jobs, Decided(jobs, job, jobs[job.id], now))
  {
  }

  lemma ConclusionIsLegal(jobs: Jobs, job: Job, outcome: Outcome, now: Time)
    ensures LegalStep(jobs, Concluded(jobs, job, outcome, now))
  {
    match outcome
    case Interrupted => TransitionIsLegal(jobs, job.id, State.Cancelled, "cancelled by user", now);
    case TimedOut => TransitionIsLegal(jobs, job.id, State.Failed, "timeout", now);
    case Errored(message) => TransitionIsLegal(jobs, job.id, State.Failed, message, now);
    case Succeeded => TransitionIsLegal(jobs, job.id, State.Completed, "", now);
  }

  /** The three states without a way out absorb, over whole runs and against every stale writer:
      once there, a job's state, retry count and number of starts never change again. */
  lemma {:induction false} AbsorbedForever(s: System, es: seq<Event>, id: string)
    requires Inv(s) && Runs(s, es) && id in s.jobs && s.jobs[id].state in {State.Completed, State.Exhausted, State.Cancelled}
    ensures id in After(s, es).jobs && After(s, es).jobs[id].state == s.jobs[id].state
    ensures After(s, es).jobs[id].retryCount == s.jobs[id].retryCount
    ensures StartsOf(After(s, es), id) == StartsOf(s, id)
    decreases |es|
  {
    if es == [] {
    } else {
      AbsorbedOneStep(s, es[0], id);
      StepKeepsInv(s, es[0]);
      AbsorbedForever(Apply(s, es[0]), es[1..], id);
    }
  }

  lemma AbsorbedOneStep(s: System, e: Event, id: string)
    requires Inv(s) && Enabled(s, e) && id in s.jobs && Absorbing(s.jobs[id].state)
    ensures var t := Apply(s, e);
            && id in t.jobs && t.jobs[id].state == s.jobs[id].state
            && t.jobs[id].retryCount == s.jobs[id].retryCount && StartsOf(t, id) == StartsOf(s, id)
  {
    StepIsLegal(s, e);
    assert LegalRecord(s.jobs[id], Apply(s, e).jobs[id]);
    OnlyQueuedStart(s, e, id);
  }

  /** Only a job that can become RUNNING is started. */
  lemma OnlyQueuedStart(s: System, e: Event, id: string)
    requires Enabled(s, e) && id in s.jobs && !Allowed(s.jobs[id].state, State.Running)
    ensures StartsOf(Apply(s, e), id) == StartsOf(s, id)
  {
  }

  /** Over a whole run a job keeps its request and never loses a retry it used. */
  lemma {:induction false} RequestKept(s: System, es: seq<Event>, id: string)
    requires Inv(s) && Runs(s, es) && id in s.jobs
    ensures id in After(s, es).jobs
    ensures SameRequest(s.jobs[id], After(s, es).jobs[id])
    ensures s.jobs[id].retryCount <= After(s, es).jobs[id].retryCount
    decreases |es|
  {
    if es == [] {
    } else {
      StepIsLegal(s, es[0]);
      StepKeepsInv(s, es[0]);
      RequestKept(Apply(s, es[0]), es[1..], id);
    }
  }

  // ----- counting runs

  /** Executions started against retries used, in every reachable state. */
  lemma RunCount(t: System, id: string)
    requires Reachable(t) && id in t.jobs
    ensures var j, n := t.jobs[id], StartsOf(t, id);
            && (j.state in {State.Pending, State.Queued} ==> n == j.retryCount)
            && (j.state in {State.Running, State.Failed, State.Completed, State.Exhausted} ==> n == j.retryCount + 1)
            && (j.state == State.Exhausted ==> n == Budget(j) + 1)
            && n <= Budget(j) + 1
  {
    ReachableInv(t);
    assert JobInv(t, id);
  }

  /** A job let through the gate was past its RunAfter. */
  lemma NeverBeforeRunAfter(t: System, id: string)
    requires Reachable(t) && id in t.jobs
    requires t.jobs[id].state in {State.Queued, State.Running, State.Failed, State.Completed, State.Exhausted}
    ensures t.jobs[id].runAfter == None || t.jobs[id].runAfter.value < t.clock
  {
    ReachableInv(t);
    assert JobInv(t, id);
  }

  // ----- how long a job can go on

  /** Steps left in the lifecycle. PENDING and QUEUED rank alike: the scheduler may move a job back
      and forth between them any number of times. */
  function Rank(state: State): nat {
    match state
    case Pending | Queued => 3
    case Running => 2
    case Failed => 1
    case Completed | Exhausted | Cancelled => 0
  }

  /** Retries left, then rank. */
  function Measure(j: Job): int {
    3 * (Budget(j) - j.retryCount) + Rank(j.state)
  }

  predicate Progresses(from: State, to: State) {
    from != to && !(from == State.Pending && to == State.Queued) && !(from == State.Queued && to == State.Pending)
  }

  /** 1 if the event moves job `id` to another state, the dispatch and revert pair aside. */
  ghost function Moved(s: System, e: Event, id: string): nat
    requires Enabled(s, e)
  {
    var t := Apply(s, e);
    if id in s.jobs && id in t.jobs && Progresses(s.jobs[id].state, t.jobs[id].state) then 1 else 0
  }

  ghost function Moves(s: System, es: seq<Event>, id: string): nat
    requires Runs(s, es)
    decreases |es|
  {
    if es == [] then 0 else Moved(s, es[0], id) + Moves(Apply(s, es[0]), es[1..], id)
  }

  lemma StepSpendsMeasure(s: System, e: Event, id: string)
    requires Inv(s) && Enabled(s, e) && id in s.jobs
    ensures id in Apply(s, e).jobs
    ensures Measure(Apply(s, e).jobs[id]) + Moved(s, e, id) <= Measure(s.jobs[id])
  {
    StepIsLegal(s, e);
    LegalSpends(s.jobs[id], Apply(s, e).jobs[id]);
  }

  lemma LegalSpends(before: Job, after: Job)
    requires LegalRecord(before, after)
    ensures Measure(after) + (if Progresses(before.state, after.state) then 1 else 0) <= Measure(before)
  {
  }

  /** In any run, of any length, a job makes no more than three moves per allowed execution. */
  lemma {:induction false} MovesSpendMeasure(s: System, es: seq<Event>, id: string)
    requires Inv(s) && Runs(s, es) && id in s.jobs
    ensures id in After(s, es).jobs
    ensures Moves(s, es, id) + Measure(After(s, es).jobs[id]) <= Measure(s.jobs[id])
    decreases |es|
  {
    if es == [] {
    } else {
      StepSpendsMeasure(s, es[0], id);
      StepKeepsInv(s, es[0]);
      MovesSpendMeasure(Apply(s, es[0]), es[1..], id);
    }
  }

  lemma BoundedMoves(s: System, es: seq<Event>, id: string)
    requires Reachable(s) && Runs(s, es) && id in s.jobs
    ensures Moves(s, es, id) <= 3 * (Budget(s.jobs[id]) + 1)
  {
    ReachableInv(s);
    MovesSpendMeasure(s, es, id);
    RunKeepsInv(s, es);
    assert JobInv(s, id);
    assert JobInv(After(s, es), id);
  }

  // ----- what a tick sends

  /** What a tick has sent so far, in the order it was sent. */
  function Sent(sc: Scheduler): seq<Job>
    requires sc.Dispatching? || sc.Sending? || sc.Reverting?
    requires forall i :: 0 <= i < |sc.sent| ==> sc.sent[i] < |sc.ready|
  {
    seq(|sc.sent|, i requires 0 <= i < |sc.sent| => sc.ready[sc.sent[i]])
  }

  /** Whatever else happens during it, a tick sends in priority-then-age order, each job at most
      once, and only jobs past their gate. */
  lemma TickOrder(t: System)
    requires Reachable(t) && (t.scheduler.Dispatching? || t.scheduler.Sending? || t.scheduler.Reverting?)
    ensures InOrder(t.scheduler.sent, t.scheduler.next) && t.scheduler.next <= |t.scheduler.ready|
    ensures var sent := Sent(t.scheduler);
            forall i, j :: 0 <= i < j < |sent| ==>
              && sent[i].id != sent[j].id
              && (sent[i].priority > sent[j].priority
                  || (sent[i].priority == sent[j].priority && sent[i].createdAt <= sent[j].createdAt))
    ensures forall j :: j in Sent(t.scheduler) ==> j.runAfter == None || j.runAfter.value < t.clock
  {
    ReachableInv(t);
  }
}
