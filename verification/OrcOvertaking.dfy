/** Where a tick's order stops. What a tick sends is always in order, and a tick without a receive or a
    handler's write leaves no better job behind; a receive in the middle of a tick can let a job
    overtake one of higher priority. */
module OrcOvertaking {
  import opened Options
  import opened OrcJobs
  import opened OrcStore
  import opened OrcDispatch
  import opened OrcInvariant
  import opened OrcTheorems
  import opened OrcTick
  import opened Ordering
  import OrcStaleCancel

  /** In any interleaving of a whole tick without a receive or a handler's write: every job it left behind
      has no higher priority than any it sent, and is no older if the priorities are equal. */
  lemma NoneOvertaken(s: System, es: seq<Event>, sent: Job, left: Job)
    requires Inv(s) && QuietTick(s, es)
    requires var t := After(s, es);
             && sent in t.scheduler.ready && sent in t.queue && sent !in s.queue
             && left in t.scheduler.ready && left !in t.queue
    ensures sent.priority > left.priority || (sent.priority == left.priority && sent.createdAt <= left.createdAt)
  {
    QuietTickExact(s, es);
    var ready := After(s, es).scheduler.ready;
    var n := Min(s.capacity - |s.queue|, |ready|);
    var i :| 0 <= i < n && ready[i] == sent;
    var j :| 0 <= j < |ready| && ready[j] == left;
    assert forall k :: 0 <= k < n ==> ready[..n][k] == ready[k];
  }

  // ----- a run in which a job is overtaken

  const WORK := Work("train", "ml", "python", [], 0)
  const FIRST := Submitted("a", WORK, 2, 0, 0)
  const HIGH := Submitted("b", WORK, 1, 0, 0)
  const LOW := Submitted("c", WORK, 0, 0, 0)
  const READY := [FIRST, HIGH, LOW]

  function Marked(j: Job): Job {
    j.(state := State.Queued)
  }

  /** Three jobs, one slot, one worker. */
  function Scene(first: Job, high: Job, low: Job, queue: seq<Job>, scheduler: Scheduler, worker: Worker): System {
    System(map["a" := first, "b" := high, "c" := low], queue, 1, scheduler, [worker], [], 0,
           map["a" := 0, "b" := 0, "c" := 0])
  }

  const END := Scene(Marked(FIRST), HIGH, Marked(LOW), [LOW], Dispatching(READY, 3, [0, 2]), Received(FIRST))

  ghost predicate EndsOvertaken(s: System, es: seq<Event>) {
    Runs(s, es) && After(s, es) == END
  }

  /** One more event in front of a run. */
  lemma First(s: System, e: Event, t: System, es: seq<Event>) returns (longer: seq<Event>)
    requires Enabled(s, e) && Apply(s, e) == t && EndsOvertaken(t, es)
    ensures EndsOvertaken(s, longer)
  {
    OrcStaleCancel.Prepend(s, e, t, es);
    longer := [e] + es;
  }

  /** A worker receives, and the slot goes to the lower job. */
  lemma LowIsSent() returns (es: seq<Event>)
    ensures EndsOvertaken(Scene(Marked(FIRST), HIGH, LOW, [FIRST], Dispatching(READY, 2, [0]), Idle), es)
  {
    assert EndsOvertaken(END, []);
    var sending := Scene(Marked(FIRST), HIGH, Marked(LOW), [], Sending(READY, 2, [0]), Received(FIRST));
    assert [0] + [2] == [0, 2];
    es := First(sending, TickSend, END, []);
    var received := Scene(Marked(FIRST), HIGH, LOW, [], Dispatching(READY, 2, [0]), Received(FIRST));
    es := First(received, TickQueue, sending, es);
    es := First(Scene(Marked(FIRST), HIGH, LOW, [FIRST], Dispatching(READY, 2, [0]), Idle), Dequeue(0), received, es);
  }

  /** The slot is taken when the higher job's turn comes. */
  lemma HighIsReverted() returns (es: seq<Event>)
    ensures EndsOvertaken(Scene(Marked(FIRST), HIGH, LOW, [FIRST], Dispatching(READY, 1, [0]), Idle), es)
  {
    es := LowIsSent();
    var reverting := Scene(Marked(FIRST), Marked(HIGH), LOW, [FIRST], Reverting(READY, 1, [0]), Idle);
    es := First(reverting, TickRevert, Scene(Marked(FIRST), HIGH, LOW, [FIRST], Dispatching(READY, 2, [0]), Idle), es);
    var sending := Scene(Marked(FIRST), Marked(HIGH), LOW, [FIRST], Sending(READY, 1, [0]), Idle);
    es := First(sending, TickSend, reverting, es);
    es := First(Scene(Marked(FIRST), HIGH, LOW, [FIRST], Dispatching(READY, 1, [0]), Idle), TickQueue, sending, es);
  }

  lemma FirstIsSent() returns (es: seq<Event>)
    ensures EndsOvertaken(Scene(FIRST, HIGH, LOW, [], Dispatching(READY, 0, []), Idle), es)
  {
    es := HighIsReverted();
    var sending := Scene(Marked(FIRST), HIGH, LOW, [], Sending(READY, 0, []), Idle);
    assert sending.queue + [FIRST] == [FIRST] && sending.scheduler.sent + [0] == [0];
    es := First(sending, TickSend, Scene(Marked(FIRST), HIGH, LOW, [FIRST], Dispatching(READY, 1, [0]), Idle), es);
    es := First(Scene(FIRST, HIGH, LOW, [], Dispatching(READY, 0, []), Idle), TickQueue, sending, es);
  }

  lemma AllPass()
    ensures Filter(READY, 0) == READY
  {
    assert READY[..2] == [FIRST, HIGH] && [FIRST, HIGH][..1] == [FIRST] && [FIRST][..0] == [];
    assert Filter([FIRST], 0) == [FIRST] && Filter([FIRST, HIGH], 0) == [FIRST, HIGH];
  }

  /** The scheduler has read these jobs, all PENDING. */
  function Reading(seen: set<string>, found: seq<Job>): System {
    Scene(FIRST, HIGH, LOW, [], Listing(seen, found), Idle)
  }

  lemma ListedOvertakes() returns (es: seq<Event>)
    ensures EndsOvertaken(Reading({"a", "b", "c"}, READY), es)
  {
    es := FirstIsSent();
    AllPass();
    es := First(Reading({"a", "b", "c"}, READY), TickReady(READY),
                Scene(FIRST, HIGH, LOW, [], Dispatching(READY, 0, []), Idle), es);
  }

  lemma Reads(seen: set<string>, found: seq<Job>, id: string, job: Job, es: seq<Event>) returns (longer: seq<Event>)
    requires id !in seen && (id, job) in {("a", FIRST), ("b", HIGH), ("c", LOW)}
    requires EndsOvertaken(Reading(seen + {id}, found + [job]), es)
    ensures EndsOvertaken(Reading(seen, found), longer)
  {
    var s := Reading(seen, found);
    assert id in s.jobs && s.jobs[id] == job && job.state == State.Pending;
    longer := First(s, TickRead(id), Reading(seen + {id}, found + [job]), es);
  }

  lemma TickOvertakes() returns (es: seq<Event>)
    ensures EndsOvertaken(Scene(FIRST, HIGH, LOW, [], Waiting, Idle), es)
  {
    es := ListedOvertakes();
    assert {} + {"a"} == {"a"} && [] + [FIRST] == [FIRST];
    assert {"a"} + {"b"} == {"a", "b"} && [FIRST] + [HIGH] == [FIRST, HIGH];
    assert {"a", "b"} + {"c"} == {"a", "b", "c"} && [FIRST, HIGH] + [LOW] == READY;
    es := Reads({"a", "b"}, [FIRST, HIGH], "c", LOW, es);
    es := Reads({"a"}, [FIRST], "b", HIGH, es);
    es := Reads({}, [], "a", FIRST, es);
    es := First(Scene(FIRST, HIGH, LOW, [], Waiting, Idle), TickBegin, Reading({}, []), es);
  }

  /** From a fresh process with one slot and one worker: the slot is taken when the job of higher priority is
      tried, a worker frees it, and the same tick sends the job of lower priority instead. */
  lemma OvertakenHappens() returns (s: System, es: seq<Event>)
    ensures Initial(s) && Runs(s, es)
    ensures var t := After(s, es);
            && "b" in t.jobs && t.jobs["b"].state == State.Pending && t.jobs["b"].runAfter == None
            && "c" in t.jobs && t.jobs["c"].state == State.Queued
            && t.jobs["b"].priority > t.jobs["c"].priority
            && t.scheduler.Dispatching? && t.scheduler.next == |t.scheduler.ready| == 3 && t.scheduler.sent == [0, 2]
            && t.scheduler.ready[1] == t.jobs["b"] && t.scheduler.ready[2].id == "c"
  {
    es := TickOvertakes();
    var three := Scene(FIRST, HIGH, LOW, [], Waiting, Idle);
    var two := System(map["a" := FIRST, "b" := HIGH], [], 1, Waiting, [Idle], [], 0, map["a" := 0, "b" := 0]);
    es := First(two, Submit("c", WORK, 0, 0), three, es);
    var one := System(map["a" := FIRST], [], 1, Waiting, [Idle], [], 0, map["a" := 0]);
    es := First(one, Submit("b", WORK, 1, 0), two, es);
    s := System(map[], [], 1, Waiting, [Idle], [], 0, map[]);
    es := First(s, Submit("a", WORK, 2, 0), one, es);
  }
}
