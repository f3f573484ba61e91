/** Where the code is weaker than its comment: the API says that the executor is the sole owner of
    a running job's terminal write. A cancel handler that read the job before it started is not
    bound by that. */
module OrcStaleCancel {
  import opened Options
  import opened OrcJobs
  import opened OrcStore
  import opened OrcDispatch
  import opened OrcInvariant
  import opened OrcSteps
  import opened OrcTheorems
  import opened Ordering

  /** The event is a handler writing on a read that is out of date: it saw the job before it ran. */
  ghost predicate LateWrite(s: System, e: Event, id: string) {
    && e.CancelWrite? && e.h < |s.handlers| && s.handlers[e.h].Saw? && s.handlers[e.h].id == id
    && s.handlers[e.h].state in {State.Pending, State.Queued}
  }

  /** The event is the job's own worker concluding its run. */
  ghost predicate OwnConclusion(s: System, e: Event, id: string) {
    e.Conclude? && e.w < |s.workers| && s.workers[e.w].Finished? && s.workers[e.w].job.id == id
  }

  /** Exactly two kinds of event take a job out of RUNNING, of all there are: its worker's conclusion,
      and a handler's write on a read of PENDING or QUEUED, whatever the worker is doing. */
  lemma LeavesRunningIff(s: System, e: Event, id: string)
    requires Inv(s) && Enabled(s, e) && id in s.jobs && s.jobs[id].state == State.Running
    ensures id in Apply(s, e).jobs
    ensures Apply(s, e).jobs[id].state != State.Running <==> OwnConclusion(s, e, id) || LateWrite(s, e, id)
    ensures LateWrite(s, e, id) ==> Apply(s, e).jobs[id].state == State.Cancelled
  {
    if e.Conclude? {
      ConclusionLeaves(s, e.w, id);
    } else if e.CancelWrite? {
      WriteLeaves(s, e.h, id);
    } else {
      OthersStay(s, e, id);
    }
  }

  lemma ConclusionLeaves(s: System, w: nat, id: string)
    requires Inv(s) && Enabled(s, Conclude(w)) && id in s.jobs && s.jobs[id].state == State.Running
    ensures id in Apply(s, Conclude(w)).jobs
    ensures Apply(s, Conclude(w)).jobs[id].state != State.Running <==> s.workers[w].job.id == id
  {
    assert WorkerInv(s, s.workers[w]);
    ConcludedRecord(s.jobs, s.workers[w].job, s.workers[w].outcome, s.clock);
  }

  lemma WriteLeaves(s: System, h: nat, id: string)
    requires Enabled(s, CancelWrite(h)) && id in s.jobs && s.jobs[id].state == State.Running
    ensures id in Apply(s, CancelWrite(h)).jobs
    ensures Apply(s, CancelWrite(h)).jobs[id].state == if LateWrite(s, CancelWrite(h), id) then State.Cancelled else State.Running
  {
  }

  lemma OthersStay(s: System, e: Event, id: string)
    requires Inv(s) && Enabled(s, e) && !e.Conclude? && !e.CancelWrite? && id in s.jobs && s.jobs[id].state == State.Running
    ensures id in Apply(s, e).jobs && Apply(s, e).jobs[id].state == State.Running
  {
    if e.Decide? {
      assert WorkerInv(s, s.workers[e.w]);
      assert JobInv(s, s.workers[e.w].job.id);
    }
  }

  /** Such a write is final: over any run the job stays CANCELLED, so what the worker makes of its own
      run, even a success it has only to record, never gets stored. */
  lemma OverriddenForGood(s: System, e: Event, es: seq<Event>, id: string)
    requires Inv(s) && Enabled(s, e) && id in s.jobs && s.jobs[id].state == State.Running && LateWrite(s, e, id)
    requires Runs(Apply(s, e), es)
    ensures id in After(Apply(s, e), es).jobs && After(Apply(s, e), es).jobs[id].state == State.Cancelled
  {
    LeavesRunningIff(s, e, id);
    StepKeepsInv(s, e);
    AbsorbedForever(Apply(s, e), es, id);
  }

  // ----- a run in which it happens

  const WORK := Work("train", "ml", "python", [], 0)
  const LISTED := Submitted("j", WORK, 0, 0, 0)
  const QUEUED := LISTED.(state := State.Queued)
  const RUNNING := QUEUED.(state := State.Running, startedAt := Some(0))
  const CANCELLED := RUNNING.(state := State.Cancelled, errorMessage := "cancelled by user", finishedAt := Some(0))

  /** One worker, one job, one handler that read the job while it was PENDING. */
  function Scene(job: Job, queue: seq<Job>, scheduler: Scheduler, worker: Worker, handlers: seq<Handler>, starts: nat): System {
    System(map["j" := job], queue, 1, scheduler, [worker], handlers, 0, map["j" := starts])
  }

  const READ := [Saw("j", State.Pending)]
  const DISPATCHED := Dispatching([LISTED], 1, [0])

  /** One more event in front of a run. */
  lemma Prepend(s: System, e: Event, t: System, es: seq<Event>)
    requires Enabled(s, e) && Apply(s, e) == t && Runs(t, es)
    ensures Runs(s, [e] + es) && After(s, [e] + es) == After(t, es)
  {
    assert ([e] + es)[1..] == es;
  }

  ghost predicate EndsOverridden(s: System, es: seq<Event>) {
    Runs(s, es) && After(s, es) == Scene(CANCELLED, [], DISPATCHED, Executing(LISTED), [Answered], 1)
  }

  lemma StartThenLateWrite() returns (es: seq<Event>)
    ensures EndsOverridden(Scene(QUEUED, [LISTED], DISPATCHED, Idle, READ, 0), es)
  {
    var end := Scene(CANCELLED, [], DISPATCHED, Executing(LISTED), [Answered], 1);
    assert EndsOverridden(end, []);
    var running := Scene(RUNNING, [], DISPATCHED, Executing(LISTED), READ, 1);
    Prepend(running, CancelWrite(0), end, []);
    var received := Scene(QUEUED, [], DISPATCHED, Received(LISTED), READ, 0);
    Prepend(received, Start(0), running, [CancelWrite(0)] + []);
    es := [Start(0)] + ([CancelWrite(0)] + []);
    Prepend(Scene(QUEUED, [LISTED], DISPATCHED, Idle, READ, 0), Dequeue(0), received, es);
    es := [Dequeue(0)] + es;
  }

  lemma TickThenLateWrite() returns (es: seq<Event>)
    ensures EndsOverridden(Scene(LISTED, [], Listing({"j"}, [LISTED]), Idle, READ, 0), es)
  {
    es := StartThenLateWrite();
    var sending := Scene(QUEUED, [], Sending([LISTED], 0, []), Idle, READ, 0);
    assert sending.queue + [LISTED] == [LISTED] && sending.scheduler.sent + [0] == [0];
    Prepend(sending, TickSend, Scene(QUEUED, [LISTED], DISPATCHED, Idle, READ, 0), es);
    es := [TickSend] + es;
    var dispatching := Scene(LISTED, [], Dispatching([LISTED], 0, []), Idle, READ, 0);
    Prepend(dispatching, TickQueue, sending, es);
    es := [TickQueue] + es;
    assert Filter([LISTED][..0], 0) == [] && Filter([LISTED], 0) == [LISTED];
    Prepend(Scene(LISTED, [], Listing({"j"}, [LISTED]), Idle, READ, 0), TickReady([LISTED]), dispatching, es);
    es := [TickReady([LISTED])] + es;
  }

  lemma ReadThenLateWrite() returns (es: seq<Event>)
    ensures EndsOverridden(Scene(LISTED, [], Waiting, Idle, READ, 0), es)
  {
    es := TickThenLateWrite();
    var listing := Scene(LISTED, [], Listing({}, []), Idle, READ, 0);
    assert listing.scheduler.found + [LISTED] == [LISTED] && listing.scheduler.seen + {"j"} == {"j"};
    Prepend(listing, TickRead("j"), Scene(LISTED, [], Listing({"j"}, [LISTED]), Idle, READ, 0), es);
    es := [TickRead("j")] + es;
    Prepend(Scene(LISTED, [], Waiting, Idle, READ, 0), TickBegin, listing, es);
    es := [TickBegin] + es;
  }

  lemma AskThenLateWrite() returns (es: seq<Event>)
    ensures EndsOverridden(Scene(LISTED, [], Waiting, Idle, [], 0), es)
  {
    es := ReadThenLateWrite();
    var saw := Scene(LISTED, [], Waiting, Idle, READ, 0);
    var asked := Scene(LISTED, [], Waiting, Idle, [Asked("j")], 0);
    Prepend(asked, CancelRead(0), saw, es);
    es := [CancelRead(0)] + es;
    Prepend(Scene(LISTED, [], Waiting, Idle, [], 0), CancelAsk("j"), asked, es);
    es := [CancelAsk("j")] + es;
  }

  /** From a fresh process: submit, ask to cancel, dispatch, start running, and only then does the
      handler write. The job ends CANCELLED with its worker still executing it. */
  lemma StaleCancelHappens() returns (s: System, es: seq<Event>)
    ensures Initial(s) && Runs(s, es)
    ensures var t := After(s, es);
            && "j" in t.jobs && t.jobs["j"].state == State.Cancelled
            && |t.workers| == 1 && t.workers[0].Executing? && t.workers[0].job.id == "j"
  {
    s := System(map[], [], 1, Waiting, [Idle], [], 0, map[]);
    es := AskThenLateWrite();
    Prepend(s, Submit("j", WORK, 0, 0), Scene(LISTED, [], Waiting, Idle, [], 0), es);
    es := [Submit("j", WORK, 0, 0)] + es;
  }
}
