/** Every event keeps the invariant, one lemma per kind of event. */
module OrcSteps {
  import opened Options
  import opened OrcJobs
  import opened OrcStore
  import opened OrcDispatch
  import opened OrcInvariant
  import opened Counting
  import opened Ordering

  // ----- parts of the invariant that survive a change to one record

  /** Every record but `id`'s is as before. */
  ghost predicate OnlyTouches(before: Jobs, after: Jobs, id: string) {
    forall k :: k != id ==> (k in before <==> k in after) && (k in before ==> after[k] == before[k])
  }

  /** Who holds `k`, and how often it ran, is as before. */
  ghost predicate SameHolders(s: System, t: System, k: string) {
    && Tokens(t, k) == Tokens(s, k) && Executions(t, k) == Executions(s, k)
    && (k in t.starts <==> k in s.starts) && StartsOf(t, k) == StartsOf(s, k)
  }

  /** A step that touches one job need only be checked for that job. */
  lemma OtherJobsKeep(s: System, t: System, id: string)
    requires Inv(s) && OnlyTouches(s.jobs, t.jobs, id) && t.clock == s.clock
    requires forall k :: k != id ==> SameHolders(s, t, k)
    requires JobInv(t, id)
    ensures forall k :: JobInv(t, k)
  {
    forall k ensures JobInv(t, k) {
      assert JobInv(s, k);
      assert k != id ==> SameHolders(s, t, k);
    }
  }

  /** A step that only passes a job from one holder to the next needs no check at all. */
  lemma HandoverKeeps(s: System, t: System)
    requires Inv(s) && t.jobs == s.jobs && t.clock == s.clock
    requires forall k :: SameHolders(s, t, k)
    ensures forall k :: JobInv(t, k)
  {
    forall k ensures JobInv(t, k) {
      assert JobInv(s, k);
      assert SameHolders(s, t, k);
    }
  }

  /** A worker that keeps to one job changes nobody else's counts. */
  lemma WorkerKeepsToJob(s: System, t: System, w: nat, id: string)
    requires w < |s.workers| && |t.workers| == |s.workers| && t.workers == s.workers[w := t.workers[w]]
    requires s.workers[w].Received? || InRun(s.workers[w])
    requires s.workers[w].job.id == id
    requires t.workers[w].Idle? || (InRun(t.workers[w]) && t.workers[w].job == s.workers[w].job)
    requires t.queue == s.queue && t.scheduler == s.scheduler
    requires forall k :: k != id ==> (k in t.starts <==> k in s.starts) && StartsOf(t, k) == StartsOf(s, k)
    ensures forall k :: k != id ==> SameHolders(s, t, k)
  {
    forall k | k != id ensures SameHolders(s, t, k) {
      WorkerMoves(s, w, t.workers[w], k);
    }
  }

  /** The scheduler's snapshot is unaffected by a change to a job that is not PENDING, or that
      is cancelled. */
  lemma SchedulerSurvives(s: System, t: System, id: string)
    requires SchedulerInv(s) && t.scheduler == s.scheduler && t.clock == s.clock
    requires OnlyTouches(s.jobs, t.jobs, id)
    requires id in s.jobs && id in t.jobs
    requires s.jobs[id].state == State.Pending ==> t.jobs[id] == s.jobs[id] || t.jobs[id].state == State.Cancelled
    requires s.jobs[id].state == State.Cancelled ==> t.jobs[id].state == State.Cancelled
    ensures SchedulerInv(t)
  {
  }

  /** A step inside a run needs only be checked for its own job and worker. */
  lemma RunStepKeeps(s: System, t: System, w: nat)
    requires Inv(s) && w < |s.workers| && InRun(s.workers[w])
    requires |t.workers| == |s.workers| && t == s.(jobs := t.jobs, workers := s.workers[w := t.workers[w]])
    requires t.workers[w].Idle? || (InRun(t.workers[w]) && t.workers[w].job == s.workers[w].job)
    requires OnlyTouches(s.jobs, t.jobs, s.workers[w].job.id) && s.workers[w].job.id in t.jobs
    requires s.jobs[s.workers[w].job.id].state == State.Cancelled
             ==> t.jobs[s.workers[w].job.id].state == State.Cancelled
    requires JobInv(t, s.workers[w].job.id) && WorkerInv(t, t.workers[w])
    ensures Inv(t)
  {
    var id := s.workers[w].job.id;
    assert WorkerInv(s, s.workers[w]);
    WorkerKeepsToJob(s, t, w, id);
    OtherJobsKeep(s, t, id);
    forall v | 0 <= v < |t.workers| ensures WorkerInv(t, t.workers[v]) {
      if v != w {
        assert WorkerInv(s, s.workers[v]);
        if InRun(s.workers[v]) {
          SoleExecutor(s, w, v);
        }
      }
    }
    SchedulerSurvives(s, t, id);
  }

  lemma KeepsSubmit(s: System, id: string, work: Work, priority: int, maxRetries: int)
    requires Inv(s)
    ensures Inv(Apply(s, Submit(id, work, priority, maxRetries)))
  {
    var t := Apply(s, Submit(id, work, priority, maxRetries));
    forall k ensures JobInv(t, k) {
      assert JobInv(s, k);
    }
    assert JobInv(s, id);
    forall w | 0 <= w < |t.workers| ensures WorkerInv(t, t.workers[w]) {
      assert WorkerInv(s, s.workers[w]);
      WorkerCounted(s, w);
    }
  }

  lemma KeepsTickBegin(s: System)
    requires Inv(s) && s.scheduler.Waiting?
    ensures Inv(Apply(s, TickBegin))
  {
    var t := Apply(s, TickBegin);
    assert forall k :: SameHolders(s, t, k);
    HandoverKeeps(s, t);
  }

  lemma KeepsTickRead(s: System, id: string)
    requires Inv(s) && Enabled(s, TickRead(id))
    ensures Inv(Apply(s, TickRead(id)))
  {
    var t := Apply(s, TickRead(id));
    assert forall k :: SameHolders(s, t, k);
    HandoverKeeps(s, t);
    assert JobInv(s, id);
  }

  lemma {:induction false} FilterKeeps(js: seq<Job>, now: Time)
    ensures forall j :: j in Filter(js, now) <==> j in js && Ready(j, now)
    ensures DistinctIds(js) ==> DistinctIds(Filter(js, now))
  {
    if js == [] {
    } else {
      var front, last := js[..|js| - 1], js[|js| - 1];
      FilterKeeps(front, now);
      assert js == front + [last];
      if DistinctIds(js) {
        var kept := Filter(front, now);
        forall i | 0 <= i < |kept| ensures kept[i].id != last.id {
          assert kept[i] in kept;
          assert kept[i] in front;
        }
      }
    }
  }

  /** Reordering keeps ids distinct. */
  lemma SortKeepsIdsDistinct(sorted: seq<Job>, js: seq<Job>)
    requires IsSortOf(sorted, js, DispatchesBefore) && DistinctIds(js)
    ensures DistinctIds(sorted)
  {
    SortHasSameElements(sorted, js, DispatchesBefore);
    SortKeepsDistinct(sorted, js, DispatchesBefore);
    forall i, j | 0 <= i < j < |sorted| ensures sorted[i].id != sorted[j].id {
      assert sorted[i] in sorted && sorted[j] in sorted;
      var a :| 0 <= a < |js| && js[a] == sorted[i];
      var b :| 0 <= b < |js| && js[b] == sorted[j];
      assert a != b;
    }
  }

  /** What passes the gate, once sorted, is a valid list to dispatch. */
  lemma ReadyList(s: System, found: seq<Job>, ready: seq<Job>)
    requires DistinctIds(found) && forall i :: 0 <= i < |found| ==> StillListed(s, found[i])
    requires IsSortOf(ready, Filter(found, s.clock), DispatchesBefore)
    ensures DistinctIds(ready)
    ensures forall i :: 0 <= i < |ready| ==> StillListed(s, ready[i]) && Ready(ready[i], s.clock)
  {
    FilterKeeps(found, s.clock);
    SortKeepsIdsDistinct(ready, Filter(found, s.clock));
    SortHasSameElements(ready, Filter(found, s.clock), DispatchesBefore);
    forall i | 0 <= i < |ready| ensures StillListed(s, ready[i]) && Ready(ready[i], s.clock) {
      assert ready[i] in ready;
      assert ready[i] in found;
    }
  }

  lemma KeepsTickReady(s: System, ready: seq<Job>)
    requires Inv(s) && Enabled(s, TickReady(ready))
    ensures Inv(Apply(s, TickReady(ready)))
  {
    var t := Apply(s, TickReady(ready));
    assert forall k :: SameHolders(s, t, k);
    HandoverKeeps(s, t);
    ReadyList(s, s.scheduler.found, ready);
  }

  /** No worker is inside a run of a job that is neither RUNNING nor FAILED nor cancelled. */
  lemma WorkersElsewhere(s: System, t: System, id: string)
    requires Inv(s) && t.workers == s.workers && OnlyTouches(s.jobs, t.jobs, id)
    requires Executions(s, id) == 0 && id in t.jobs
    ensures forall w :: 0 <= w < |t.workers| ==> WorkerInv(t, t.workers[w])
  {
    forall w | 0 <= w < |t.workers| ensures WorkerInv(t, t.workers[w]) {
      assert WorkerInv(s, s.workers[w]);
      WorkerCounted(s, w);
    }
  }

  lemma KeepsTickQueue(s: System)
    requires Inv(s) && Enabled(s, TickQueue)
    ensures Inv(Apply(s, TickQueue))
  {
    var t := Apply(s, TickQueue);
    var Dispatching(ready, next, sent) := s.scheduler;
    var id := ready[next].id;
    assert StillListed(s, ready[next]);
    assert JobInv(s, id);
    if CanTransition(s.jobs, id, State.Queued) {
      KeepsQueueing(s, t, id);
    } else {
      assert forall k :: SameHolders(s, t, k);
      HandoverKeeps(s, t);
    }
  }

  lemma KeepsQueueing(s: System, t: System, id: string)
    requires Inv(s) && Enabled(s, TickQueue) && t == Apply(s, TickQueue) && t.scheduler.Sending?
    requires id == s.scheduler.ready[s.scheduler.next].id && StillListed(s, s.scheduler.ready[s.scheduler.next])
    ensures Inv(t)
  {
    assert JobInv(s, id);
    assert forall k :: k != id ==> SameHolders(s, t, k);
    OtherJobsKeep(s, t, id);
    WorkersElsewhere(s, t, id);
  }

  /** Putting the job at hand on the channel, or into a waiting worker's hands, moves its token. */
  lemma SendMovesToken(s: System, k: string)
    requires Enabled(s, TickSend)
    ensures SameHolders(s, Apply(s, TickSend), k)
  {
    CountAppend(s.queue, s.scheduler.ready[s.scheduler.next], IsFor(k));
  }

  lemma HandMovesToken(s: System, w: nat, k: string)
    requires Enabled(s, TickHand(w))
    ensures SameHolders(s, Apply(s, TickHand(w)), k)
  {
    WorkerMoves(s, w, Received(s.scheduler.ready[s.scheduler.next]), k);
  }

  lemma KeepsTickSend(s: System)
    requires Inv(s) && Enabled(s, TickSend)
    ensures Inv(Apply(s, TickSend))
  {
    var t := Apply(s, TickSend);
    forall k ensures SameHolders(s, t, k) {
      SendMovesToken(s, k);
    }
    HandoverKeeps(s, t);
  }

  lemma KeepsTickHand(s: System, w: nat)
    requires Inv(s) && Enabled(s, TickHand(w))
    ensures Inv(Apply(s, TickHand(w)))
  {
    var t := Apply(s, TickHand(w));
    forall k ensures SameHolders(s, t, k) {
      HandMovesToken(s, w, k);
    }
    HandoverKeeps(s, t);
  }

  lemma KeepsTickRevert(s: System)
    requires Inv(s) && Enabled(s, TickRevert)
    ensures Inv(Apply(s, TickRevert))
  {
    var t := Apply(s, TickRevert);
    var Reverting(ready, next, sent) := s.scheduler;
    var id := ready[next].id;
    assert JobInv(s, id);
    assert forall k :: k != id ==> SameHolders(s, t, k);
    OtherJobsKeep(s, t, id);
    WorkersElsewhere(s, t, id);
  }

  lemma KeepsTickEnd(s: System)
    requires Inv(s) && Enabled(s, TickEnd)
    ensures Inv(Apply(s, TickEnd))
  {
    var t := Apply(s, TickEnd);
    assert forall k :: SameHolders(s, t, k);
    HandoverKeeps(s, t);
  }

  lemma KeepsDequeue(s: System, w: nat)
    requires Inv(s) && Enabled(s, Dequeue(w))
    ensures Inv(Apply(s, Dequeue(w)))
  {
    var t := Apply(s, Dequeue(w));
    forall k ensures SameHolders(s, t, k) {
      CountHead(s.queue, IsFor(k));
      WorkerMoves(s, w, Received(s.queue[0]), k);
    }
    HandoverKeeps(s, t);
  }

  lemma KeepsStart(s: System, w: nat)
    requires Inv(s) && Enabled(s, Start(w))
    ensures Inv(Apply(s, Start(w)))
  {
    var t := Apply(s, Start(w));
    var id := s.workers[w].job.id;
    assert JobInv(s, id);
    WorkerCounted(s, w);
    WorkerMoves(s, w, t.workers[w], id);
    WorkerKeepsToJob(s, t, w, id);
    OtherJobsKeep(s, t, id);
    forall v | 0 <= v < |t.workers| ensures WorkerInv(t, t.workers[v]) {
      assert WorkerInv(s, s.workers[v]);
      WorkerCounted(s, v);
    }
    SchedulerSurvives(s, t, id);
  }

  lemma KeepsFinish(s: System, w: nat, output: string, outcome: Outcome)
    requires Inv(s) && Enabled(s, Finish(w, output, outcome))
    ensures Inv(Apply(s, Finish(w, output, outcome)))
  {
    var t := Apply(s, Finish(w, output, outcome));
    var id := s.workers[w].job.id;
    assert WorkerInv(s, s.workers[w]) && JobInv(s, id);
    WorkerMoves(s, w, t.workers[w], id);
    RunStepKeeps(s, t, w);
  }

  /** Acting on an outcome moves a RUNNING job along the table and leaves a cancelled one alone. */
  lemma ConcludedRecord(jobs: Jobs, job: Job, outcome: Outcome, now: Time)
    requires job.id in jobs && jobs[job.id].state in {State.Running, State.Cancelled}
    ensures OnlyTouches(jobs, Concluded(jobs, job, outcome, now), job.id)
    ensures job.id in Concluded(jobs, job, outcome, now)
    ensures var before, after := jobs[job.id], Concluded(jobs, job, outcome, now)[job.id];
            if before.state == State.Cancelled then after == before
            else && after == before.(state := after.state, errorMessage := after.errorMessage, finishedAt := after.finishedAt)
                 && after.state == (match outcome
                                    case Interrupted => State.Cancelled
                                    case Succeeded => State.Completed
                                    case _ => State.Failed)
  {
  }

  lemma KeepsConclude(s: System, w: nat)
    requires Inv(s) && Enabled(s, Conclude(w))
    ensures Inv(Apply(s, Conclude(w)))
  {
    var t := Apply(s, Conclude(w));
    var Finished(job, outcome) := s.workers[w];
    assert WorkerInv(s, s.workers[w]) && JobInv(s, job.id);
    WorkerCounted(s, w);
    WorkerMoves(s, w, t.workers[w], job.id);
    ConcludedRecord(s.jobs, job, outcome, s.clock);
    RunStepKeeps(s, t, w);
  }

  lemma KeepsReload(s: System, w: nat)
    requires Inv(s) && Enabled(s, Reload(w))
    ensures Inv(Apply(s, Reload(w)))
  {
    var t := Apply(s, Reload(w));
    var id := s.workers[w].job.id;
    assert WorkerInv(s, s.workers[w]) && JobInv(s, id);
    WorkerMoves(s, w, t.workers[w], id);
    RunStepKeeps(s, t, w);
  }

  /** Settling a failed run on its stored record sends it back with one retry more, or exhausts it. */
  lemma DecidedRecord(jobs: Jobs, job: Job, now: Time)
    requires job.id in jobs && jobs[job.id].id == job.id && jobs[job.id].state == State.Failed && jobs[job.id].retryCount >= 0
    ensures OnlyTouches(jobs, Decided(jobs, job, jobs[job.id], now), job.id)
    ensures job.id in Decided(jobs, job, jobs[job.id], now)
    ensures var before, after := jobs[job.id], Decided(jobs, job, jobs[job.id], now)[job.id];
            && after.id == before.id && Budget(after) == Budget(before) && after.maxRetries == before.maxRetries
            && (if before.retryCount < before.maxRetries
                then after.state == State.Pending && after.retryCount == before.retryCount + 1
                else after.state == State.Exhausted && after.retryCount == before.retryCount && after.runAfter == before.runAfter)
  {
  }

  lemma KeepsDecide(s: System, w: nat)
    requires Inv(s) && Enabled(s, Decide(w))
    ensures Inv(Apply(s, Decide(w)))
  {
    var t := Apply(s, Decide(w));
    var id := s.workers[w].job.id;
    assert WorkerInv(s, s.workers[w]) && JobInv(s, id);
    DecidedRecord(s.jobs, s.workers[w].job, s.clock);
    WorkerCounted(s, w);
    WorkerMoves(s, w, t.workers[w], id);
    RunStepKeeps(s, t, w);
  }

  lemma KeepsStop(s: System, w: nat)
    requires Inv(s) && Enabled(s, Stop(w))
    ensures Inv(Apply(s, Stop(w)))
  {
    var t := Apply(s, Stop(w));
    forall k ensures SameHolders(s, t, k) {
      WorkerMoves(s, w, Stopped, k);
    }
    HandoverKeeps(s, t);
  }

  /** A cancellation touches no holder, whatever the job was doing. */
  lemma CancelKeepsJob(s: System, t: System, id: string)
    requires Inv(s) && t == s.(jobs := t.jobs, handlers := t.handlers) && OnlyTouches(s.jobs, t.jobs, id)
    requires id in s.jobs && id in t.jobs && Allowed(s.jobs[id].state, State.Cancelled)
    requires t.jobs[id] == Entered(s.jobs[id], State.Cancelled, "cancelled by user", s.clock)
    ensures Inv(t)
  {
    assert JobInv(s, id);
    assert SameHolders(s, t, id);
    assert JobInv(t, id);
    assert forall k :: SameHolders(s, t, k);
    OtherJobsKeep(s, t, id);
    forall v | 0 <= v < |t.workers| ensures WorkerInv(t, t.workers[v]) {
      assert WorkerInv(s, s.workers[v]);
    }
    SchedulerSurvives(s, t, id);
  }

  /** A cancel handler acting on a stale read still only makes a legal move. */
  lemma KeepsCancelWrite(s: System, h: nat)
    requires Inv(s) && Enabled(s, CancelWrite(h))
    ensures Inv(Apply(s, CancelWrite(h)))
  {
    var t := Apply(s, CancelWrite(h));
    var id := s.handlers[h].id;
    if t.jobs == s.jobs {
      assert forall k :: SameHolders(s, t, k);
      HandoverKeeps(s, t);
    } else {
      CancelKeepsJob(s, t, id);
    }
  }

  lemma KeepsHandlers(s: System, e: Event)
    requires Inv(s) && Enabled(s, e) && (e.CancelAsk? || e.CancelRead?)
    ensures Inv(Apply(s, e))
  {
    var t := Apply(s, e);
    assert forall k :: SameHolders(s, t, k);
    HandoverKeeps(s, t);
  }

  /** A gate that has opened stays open. */
  lemma KeepsAdvance(s: System, elapsed: nat)
    requires Inv(s)
    ensures Inv(Apply(s, Advance(elapsed)))
  {
    var t := Apply(s, Advance(elapsed));
    forall k ensures JobInv(t, k) {
      assert JobInv(s, k);
      assert SameHolders(s, t, k);
    }
  }

  lemma StepKeepsInv(s: System, e: Event)
    requires Inv(s) && Enabled(s, e)
    ensures Inv(Apply(s, e))
  {
    match e
    case Submit(id, work, priority, maxRetries) => KeepsSubmit(s, id, work, priority, maxRetries);
    case TickBegin => KeepsTickBegin(s);
    case TickRead(id) => KeepsTickRead(s, id);
    case TickReady(ready) => KeepsTickReady(s, ready);
    case TickQueue => KeepsTickQueue(s);
    case TickSend => KeepsTickSend(s);
    case TickHand(w) => KeepsTickHand(s, w);
    case TickRevert => KeepsTickRevert(s);
    case TickEnd => KeepsTickEnd(s);
    case Dequeue(w) => KeepsDequeue(s, w);
    case Start(w) => KeepsStart(s, w);
    case Finish(w, output, outcome) => KeepsFinish(s, w, output, outcome);
    case Conclude(w) => KeepsConclude(s, w);
    case Reload(w) => KeepsReload(s, w);
    case Decide(w) => KeepsDecide(s, w);
    case Stop(w) => KeepsStop(s, w);
    case CancelWrite(h) => KeepsCancelWrite(s, h);
    case CancelAsk(_) | CancelRead(_) => KeepsHandlers(s, e);
    case Advance(elapsed) => KeepsAdvance(s, elapsed);
  }

  lemma InitialInv(s: System)
    requires Initial(s)
    ensures Inv(s)
  {
    forall k ensures JobInv(s, k) {
      if Count(s.workers, Holds(k)) >= 1 {
        var w := CountWitness(s.workers, Holds(k));
      }
      if Count(s.workers, Executes(k)) >= 1 {
        var w := CountWitness(s.workers, Executes(k));
      }
    }
  }
}
