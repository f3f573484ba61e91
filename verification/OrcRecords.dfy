/** What each process writes to a job's record, field by field, and what a client's request comes to
    over whole runs. Nothing here is stated through the transition table or the store's functions. */
module OrcRecords {
  import opened Options
  import opened OrcJobs
  import opened OrcStore
  import opened OrcDispatch
  import opened OrcInvariant
  import opened OrcSteps
  import opened OrcTheorems
  import opened Ordering
  import Backoff

  // ----- submitting

  /** A job submitted under a new id is stored as asked for, with nothing run yet. Over every further run
      it keeps what was asked for, and it never starts more often than its retries allow. */
  lemma SubmittedJob(s: System, id: string, work: Work, priority: int, maxRetries: int, es: seq<Event>)
    requires Inv(s) && id !in s.jobs && Runs(Apply(s, Submit(id, work, priority, maxRetries)), es)
    ensures var t := Apply(s, Submit(id, work, priority, maxRetries));
            && id in t.jobs && t.jobs == s.jobs[id := t.jobs[id]] && StartsOf(t, id) == 0
            && t.jobs[id] == Job(id, work, State.Pending, priority, maxRetries, 0, None, s.clock, None, None, "", "")
    ensures var t := After(Apply(s, Submit(id, work, priority, maxRetries)), es);
            && id in t.jobs && t.jobs[id].id == id && t.jobs[id].work == work && t.jobs[id].priority == priority
            && t.jobs[id].maxRetries == maxRetries && t.jobs[id].createdAt == s.clock
            && StartsOf(t, id) <= (if maxRetries > 0 then maxRetries else 0) + 1
  {
    var t := Apply(s, Submit(id, work, priority, maxRetries));
    StepKeepsInv(s, Submit(id, work, priority, maxRetries));
    RequestKept(t, es, id);
    RunKeepsInv(t, es);
    assert JobInv(After(t, es), id);
  }

  /** An id that is taken changes nothing. */
  lemma SubmittedTwice(s: System, id: string, work: Work, priority: int, maxRetries: int)
    requires id in s.jobs
    ensures Apply(s, Submit(id, work, priority, maxRetries)) == s
  {
  }

  // ----- cancelling

  /** A handler that read PENDING or QUEUED cancels a job that has not ended, wherever it is by then; and
      over every further run the job stays CANCELLED and is not started again. */
  lemma CancelTakesEffect(s: System, h: nat, id: string, es: seq<Event>)
    requires Inv(s) && Enabled(s, CancelWrite(h)) && s.handlers[h].id == id
    requires s.handlers[h].state == State.Pending || s.handlers[h].state == State.Queued
    requires id in s.jobs && s.jobs[id].state in {State.Pending, State.Queued, State.Running}
    requires Runs(Apply(s, CancelWrite(h)), es)
    ensures var t := Apply(s, CancelWrite(h));
            && id in t.jobs && t.jobs == s.jobs[id := t.jobs[id]]
            && t.jobs[id] == s.jobs[id].(state := State.Cancelled, errorMessage := "cancelled by user",
                                         finishedAt := Some(s.jobs[id].finishedAt.GetOr(s.clock)))
    ensures var t := After(Apply(s, CancelWrite(h)), es);
            id in t.jobs && t.jobs[id].state == State.Cancelled && StartsOf(t, id) == StartsOf(s, id)
  {
    var t := Apply(s, CancelWrite(h));
    StepKeepsInv(s, CancelWrite(h));
    assert StartsOf(t, id) == StartsOf(s, id);
    AbsorbedForever(t, es, id);
  }

  /** A handler that read any other state, or came after the job ended, changes no record. */
  lemma CancelTooLate(s: System, h: nat, id: string)
    requires Enabled(s, CancelWrite(h)) && s.handlers[h].id == id && id in s.jobs
    requires s.handlers[h].state !in {State.Pending, State.Queued}
             || s.jobs[id].state in {State.Failed, State.Completed, State.Exhausted, State.Cancelled}
    ensures Apply(s, CancelWrite(h)).jobs == s.jobs
  {
  }

  /** The handler's read is the state stored at that moment. */
  lemma CancelReads(s: System, h: nat)
    requires Enabled(s, CancelRead(h))
    ensures var id, t := s.handlers[h].id, Apply(s, CancelRead(h));
            && t.jobs == s.jobs && |t.handlers| == |s.handlers|
            && t.handlers[h] == if id in s.jobs then Saw(id, s.jobs[id].state) else Answered
  {
  }

  /** A cancel request that nothing comes in between of: a waiting job is cancelled by it, and a job in
      any other state is left to its executor. */
  lemma CancelAtOnce(s: System, id: string)
    requires Inv(s) && id in s.jobs
    ensures var h := |s.handlers|;
            var es := [CancelAsk(id), CancelRead(h), CancelWrite(h)];
            && Runs(s, es) && id in After(s, es).jobs
            && (if s.jobs[id].state in {State.Pending, State.Queued}
                then After(s, es).jobs[id].state == State.Cancelled
                else After(s, es).jobs == s.jobs)
  {
    var h := |s.handlers|;
    var asked := Apply(s, CancelAsk(id));
    assert asked.handlers[h] == Asked(id);
    CancelReads(asked, h);
    var read := Apply(asked, CancelRead(h));
    var done := Apply(read, CancelWrite(h));
    assert [CancelWrite(h)][1..] == [];
    assert [CancelRead(h), CancelWrite(h)][1..] == [CancelWrite(h)];
    assert [CancelAsk(id), CancelRead(h), CancelWrite(h)][1..] == [CancelRead(h), CancelWrite(h)];
    assert Runs(done, []) && After(done, []) == done;
    assert Runs(read, [CancelWrite(h)]) && After(read, [CancelWrite(h)]) == done;
    assert Runs(asked, [CancelRead(h), CancelWrite(h)]) && After(asked, [CancelRead(h), CancelWrite(h)]) == done;
  }

  // ----- running

  /** A start that is not refused stamps the first start. */
  lemma StartWrites(s: System, w: nat)
    requires Inv(s) && Enabled(s, Start(w))
    ensures var id, t := s.workers[w].job.id, Apply(s, Start(w));
            && id in s.jobs
            && (if s.jobs[id].state == State.Queued
                then && t.jobs == s.jobs[id := s.jobs[id].(state := State.Running, startedAt := Some(s.jobs[id].startedAt.GetOr(s.clock)))]
                     && StartsOf(t, id) == StartsOf(s, id) + 1
                else t.jobs == s.jobs && StartsOf(t, id) == StartsOf(s, id))
  {
    WorkerCounted(s, w);
    assert JobInv(s, s.workers[w].job.id);
  }

  /** The end of the subprocess stores its output and nothing else, even for a job cancelled meanwhile. */
  lemma FinishWrites(s: System, w: nat, output: string, outcome: Outcome)
    requires Inv(s) && Enabled(s, Finish(w, output, outcome))
    ensures var id, t := s.workers[w].job.id, Apply(s, Finish(w, output, outcome));
            && id in s.jobs && t.jobs == s.jobs[id := s.jobs[id].(output := output)]
            && t.workers[w] == Finished(s.workers[w].job, outcome)
  {
    assert WorkerInv(s, s.workers[w]);
  }

  /** The state, message and finish a conclusion leaves on a RUNNING record; a cancelled one is not touched. */
  lemma ConcludeWrites(s: System, w: nat)
    requires Inv(s) && Enabled(s, Conclude(w))
    ensures var id, t, outcome := s.workers[w].job.id, Apply(s, Conclude(w)), s.workers[w].outcome;
            && id in s.jobs && id in t.jobs
            && (if s.jobs[id].state == State.Running
                then && t.jobs == s.jobs[id := t.jobs[id]]
                     && t.jobs[id] == s.jobs[id].(state := t.jobs[id].state, errorMessage := t.jobs[id].errorMessage,
                                                  finishedAt := Some(s.jobs[id].finishedAt.GetOr(s.clock)))
                     && (match outcome
                         case Succeeded => t.jobs[id].state == State.Completed && t.jobs[id].errorMessage == s.jobs[id].errorMessage
                         case Interrupted => t.jobs[id].state == State.Cancelled && t.jobs[id].errorMessage == "cancelled by user"
                         case TimedOut => t.jobs[id].state == State.Failed && t.jobs[id].errorMessage == "timeout"
                         case Errored(message) =>
                           && t.jobs[id].state == State.Failed
                           && t.jobs[id].errorMessage == (if message == "" then s.jobs[id].errorMessage else message))
                else s.jobs[id].state == State.Cancelled && t.jobs == s.jobs)
  {
    assert WorkerInv(s, s.workers[w]);
    ConcludedRecord(s.jobs, s.workers[w].job, s.workers[w].outcome, s.clock);
  }

  /** A failed run is settled: back to PENDING with one retry more, a gate and both stamps cleared, or
      EXHAUSTED. */
  lemma DecideWrites(s: System, w: nat)
    requires Inv(s) && Enabled(s, Decide(w))
    ensures var id, t := s.workers[w].job.id, Apply(s, Decide(w));
            && id in s.jobs && s.jobs[id].state == State.Failed && s.jobs[id].retryCount >= 0
            && (if s.jobs[id].retryCount < s.jobs[id].maxRetries
                then t.jobs == s.jobs[id := s.jobs[id].(state := State.Pending, retryCount := s.jobs[id].retryCount + 1,
                                                        runAfter := Some(s.clock + Backoff.Delay(s.jobs[id].retryCount + 1)),
                                                        startedAt := None, finishedAt := None)]
                else t.jobs == s.jobs[id := s.jobs[id].(state := State.Exhausted,
                                                        finishedAt := Some(s.jobs[id].finishedAt.GetOr(s.clock)))])
  {
    assert WorkerInv(s, s.workers[w]);
    assert JobInv(s, s.workers[w].job.id);
  }

  // ----- what a tick considers

  /** Of the jobs a tick listed, it considers exactly those without a gate or past it, the highest priority
      first and the oldest first among equals. */
  lemma ReadyAre(s: System, ready: seq<Job>)
    requires Inv(s) && Enabled(s, TickReady(ready))
    ensures forall j :: j in ready <==> j in s.scheduler.found && (j.runAfter == None || j.runAfter.value < s.clock)
    ensures forall i, j :: 0 <= i < j < |ready| ==>
              && ready[i].id != ready[j].id
              && (ready[i].priority > ready[j].priority
                  || (ready[i].priority == ready[j].priority && ready[i].createdAt <= ready[j].createdAt))
    ensures Apply(s, TickReady(ready)).scheduler == Dispatching(ready, 0, [])
  {
    FilterKeeps(s.scheduler.found, s.clock);
    SortHasSameElements(ready, Filter(s.scheduler.found, s.clock), DispatchesBefore);
    ReadyList(s, s.scheduler.found, ready);
  }

  /** A tick lists a job it reads exactly when it is PENDING then. */
  lemma ReadLists(s: System, id: string, j: Job)
    requires Inv(s) && Enabled(s, TickRead(id))
    ensures var t := Apply(s, TickRead(id));
            && t.scheduler.Listing? && t.scheduler.seen == s.scheduler.seen + {id} && t.jobs == s.jobs
            && (j in t.scheduler.found <==> j in s.scheduler.found || (j == s.jobs[id] && j.state == State.Pending))
  {
  }
}
