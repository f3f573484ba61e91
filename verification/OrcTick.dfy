/** The scheduler's tick and the executor's run as the code performs them, in place and with
    nobody in between, and the small-step machine doing the same when it is left alone. */
module OrcTick {
  import opened Options
  import opened OrcJobs
  import opened OrcStore
  import opened OrcDispatch
  import opened OrcInvariant
  import opened OrcSteps
  import opened OrcTheorems
  import opened Counting
  import opened Ordering
  import opened Listing
  import Backoff

  // ----- one pass over the ready jobs

  /** QUEUED first, then the non-blocking send, then the way back if the channel is full. */
  function DispatchOne(jobs: Jobs, queue: seq<Job>, capacity: nat, j: Job, now: Time): (Jobs, seq<Job>) {
    if !CanTransition(jobs, j.id, State.Queued) then (jobs, queue)
    else
      var queued := AfterTransition(jobs, j.id, State.Queued, "", now);
      if |queue| < capacity then (queued, queue + [j])
      else (AfterTransition(queued, j.id, State.Pending, "", now), queue)
  }

  function DispatchAll(jobs: Jobs, queue: seq<Job>, capacity: nat, ready: seq<Job>, now: Time): (Jobs, seq<Job>)
    decreases |ready|
  {
    if ready == [] then (jobs, queue)
    else
      var (jobs', queue') := DispatchOne(jobs, queue, capacity, ready[0], now);
      DispatchAll(jobs', queue', capacity, ready[1..], now)
  }

  /** Every ready job is still stored as it was listed. */
  ghost predicate Fresh(jobs: Jobs, ready: seq<Job>) {
    && DistinctIds(ready)
    && forall i :: 0 <= i < |ready| ==>
         ready[i].id in jobs && jobs[ready[i].id] == ready[i] && ready[i].state == State.Pending
  }

  function Min(a: nat, b: nat): nat {
    if a < b then a else b
  }

  /** The records with exactly the first `n` of `ready` moved to QUEUED. */
  ghost predicate FirstQueued(before: Jobs, after: Jobs, ready: seq<Job>, n: nat)
    requires n <= |ready|
  {
    && after.Keys == before.Keys
    && (forall i :: 0 <= i < n ==> ready[i].id in after && after[ready[i].id] == ready[i].(state := State.Queued))
    && (forall id :: id in before && (forall i :: 0 <= i < n ==> ready[i].id != id) ==> after[id] == before[id])
  }

  /** A full channel leaves the record exactly as it was. */
  lemma RevertRestores(jobs: Jobs, queue: seq<Job>, capacity: nat, j: Job, now: Time)
    requires j.id in jobs && jobs[j.id] == j && j.state == State.Pending
    ensures |queue| >= capacity ==> DispatchOne(jobs, queue, capacity, j, now) == (jobs, queue)
    ensures |queue| < capacity
            ==> DispatchOne(jobs, queue, capacity, j, now) == (jobs[j.id := j.(state := State.Queued)], queue + [j])
  {
    assert jobs[j.id := j.(state := State.Queued)][j.id := j] == jobs;
  }

  /** Against a full channel a pass changes nothing. */
  lemma {:induction false} DispatchFull(jobs: Jobs, queue: seq<Job>, capacity: nat, ready: seq<Job>, now: Time)
    requires Fresh(jobs, ready) && |queue| >= capacity
    ensures DispatchAll(jobs, queue, capacity, ready, now) == (jobs, queue)
    decreases |ready|
  {
    if ready == [] {
    } else {
      RevertRestores(jobs, queue, capacity, ready[0], now);
      DispatchFull(jobs, queue, capacity, ready[1..], now);
    }
  }

  lemma FirstQueuedExtends(before: Jobs, after: Jobs, ready: seq<Job>, n: nat)
    requires Fresh(before, ready) && 0 < n <= |ready|
    requires FirstQueued(before[ready[0].id := ready[0].(state := State.Queued)], after, ready[1..], n - 1)
    ensures FirstQueued(before, after, ready, n)
  {
    assert forall i :: 1 <= i < |ready| ==> ready[i] == ready[1..][i - 1];
    assert forall i :: 0 <= i < |ready| - 1 ==> ready[1..][i] == ready[i + 1];
  }

  lemma FreshTail(jobs: Jobs, ready: seq<Job>, head: Job)
    requires Fresh(jobs, ready) && ready != []
    ensures Fresh(jobs[ready[0].id := head], ready[1..])
  {
  }

  lemma OneThenRest(queue: seq<Job>, ready: seq<Job>, n: nat)
    requires 0 < n <= |ready|
    ensures (queue + [ready[0]]) + ready[1..][..n - 1] == queue + ready[..n]
  {
    assert ready[..n] == [ready[0]] + ready[1..][..n - 1];
  }

  /** An undisturbed pass sends exactly the first min(free slots, ready) jobs, in order, and leaves
      every other record unchanged. */
  lemma {:induction false} DispatchExact(jobs: Jobs, queue: seq<Job>, capacity: nat, ready: seq<Job>, now: Time)
    requires Fresh(jobs, ready) && |queue| <= capacity
    ensures var (jobs', queue') := DispatchAll(jobs, queue, capacity, ready, now);
            var n := Min(capacity - |queue|, |ready|);
            queue' == queue + ready[..n] && FirstQueued(jobs, jobs', ready, n)
    decreases |ready|
  {
    if |queue| == capacity {
      DispatchFull(jobs, queue, capacity, ready, now);
      assert queue + ready[..0] == queue;
    } else if ready == [] {
      assert queue + ready[..0] == queue;
    } else {
      var n := Min(capacity - |queue|, |ready|);
      RevertRestores(jobs, queue, capacity, ready[0], now);
      var head := ready[0].(state := State.Queued);
      var jobs1, queue1 := jobs[ready[0].id := head], queue + [ready[0]];
      FreshTail(jobs, ready, head);
      DispatchExact(jobs1, queue1, capacity, ready[1..], now);
      OneThenRest(queue, ready, n);
      FirstQueuedExtends(jobs, DispatchAll(jobs1, queue1, capacity, ready[1..], now).0, ready, n);
    }
  }

  // ----- a tick with nothing received and nothing cancelled, whatever else goes on

  /** Anything but a receive, a handler's write, or the end of the tick. */
  predicate Quiet(e: Event) {
    !e.Dequeue? && !e.TickHand? && !e.CancelWrite? && !e.TickEnd?
  }

  /** The job waits: PENDING, or QUEUED with its copy still at the scheduler or in the channel. */
  ghost predicate Unreceived(s: System, id: string) {
    && id in s.jobs
    && (|| s.jobs[id].state == State.Pending
        || (s.jobs[id].state == State.Queued && SchedulerToken(s.scheduler, id) + Count(s.queue, IsFor(id)) >= 1))
  }

  /** No worker has a job that waits. */
  lemma WorkerElsewhere(s: System, id: string, w: nat)
    requires Inv(s) && Unreceived(s, id) && w < |s.workers|
    requires s.workers[w].Received? || InRun(s.workers[w])
    ensures s.workers[w].job.id != id
  {
    assert JobInv(s, id);
    if s.workers[w].job.id == id {
      if s.workers[w].Received? {
        CountAtLeastOne(s.workers, w, Holds(id));
      } else {
        CountAtLeastOne(s.workers, w, Executes(id));
      }
    }
  }

  /** The scheduler's own steps; the others of a quiet tick are taken by clients and workers. */
  predicate BySchedulers(e: Event) {
    e.TickBegin? || e.TickRead? || e.TickReady? || e.TickQueue? || e.TickSend? || e.TickRevert?
  }

  /** Clients and workers leave a waiting job, the channel and the scheduler alone. */
  lemma OthersLeave(s: System, e: Event, id: string)
    requires Inv(s) && Enabled(s, e) && Quiet(e) && !BySchedulers(e) && Unreceived(s, id)
    ensures var t := Apply(s, e);
            id in t.jobs && t.jobs[id] == s.jobs[id]
  {
    if e.Start? || e.Finish? || e.Conclude? || e.Reload? || e.Decide? {
      WorkerElsewhere(s, id, e.w);
      assert WorkerInv(s, s.workers[e.w]);
      assert JobInv(s, s.workers[e.w].job.id);
    }
  }

  lemma OthersLeaveTheRest(s: System, e: Event)
    requires Enabled(s, e) && Quiet(e) && !BySchedulers(e)
    ensures var t := Apply(s, e);
            t.queue == s.queue && t.scheduler == s.scheduler && t.capacity == s.capacity
  {
  }

  /** Of the jobs in `ready` before position k, the first that found room are QUEUED and in the
      channel behind `queue`; the others are stored as they were listed. */
  ghost predicate Dispatched(s: System, queue: seq<Job>, ready: seq<Job>, k: nat) {
    && k <= |ready| && |queue| <= s.capacity
    && var n := Min(s.capacity - |queue|, k);
    && s.queue == queue + ready[..n]
    && (forall i :: 0 <= i < n ==> ready[i].id in s.jobs && s.jobs[ready[i].id] == ready[i].(state := State.Queued))
    && AsListed(s, ready, n, k)
  }

  ghost predicate AsListed(s: System, ready: seq<Job>, from: nat, to: nat) {
    forall i :: from <= i < to && i < |ready| ==>
      ready[i].id in s.jobs && s.jobs[ready[i].id] == ready[i] && ready[i].state == State.Pending
  }

  /** Where a quiet tick that began with `queue` in the channel stands. */
  ghost predicate QuietSoFar(s: System, queue: seq<Job>) {
    match s.scheduler
    case Waiting => s.queue == queue
    case Listing(_, found) => s.queue == queue && AsListed(s, found, 0, |found|)
    case Dispatching(ready, next, _) => Dispatched(s, queue, ready, next) && AsListed(s, ready, next, |ready|)
    case Sending(ready, next, _) =>
      && Dispatched(s, queue, ready, next) && QueuedAt(s, ready, next) && AsListed(s, ready, next + 1, |ready|)
    case Reverting(ready, next, _) =>
      && Dispatched(s, queue, ready, next) && QueuedAt(s, ready, next) && AsListed(s, ready, next + 1, |ready|)
      && |s.queue| >= s.capacity
  }

  ghost predicate QueuedAt(s: System, ready: seq<Job>, i: nat) {
    && i < |ready| && ready[i].state == State.Pending
    && ready[i].id in s.jobs && s.jobs[ready[i].id] == ready[i].(state := State.Queued)
  }

  /** The jobs a tick has listed so far. */
  function Listed(sc: Scheduler): seq<Job> {
    match sc
    case Waiting => []
    case Listing(_, found) => found
    case Dispatching(ready, _, _) => ready
    case Sending(ready, _, _) => ready
    case Reverting(ready, _, _) => ready
  }

  /** Every job a quiet tick has listed waits. */
  lemma ListedWaits(s: System, queue: seq<Job>, i: nat)
    requires QuietSoFar(s, queue) && i < |Listed(s.scheduler)|
    ensures Unreceived(s, Listed(s.scheduler)[i].id)
  {
    if !s.scheduler.Listing? {
      var ready, next := s.scheduler.ready, s.scheduler.next;
      if i < Min(s.capacity - |queue|, next) {
        assert s.queue[|queue| + i] == ready[i];
        CountAtLeastOne(s.queue, |queue| + i, IsFor(ready[i].id));
      }
    }
  }

  /** Only the listed jobs' records, the channel and the scheduler matter. */
  lemma QuietFrame(s: System, t: System, queue: seq<Job>)
    requires QuietSoFar(s, queue) && t.queue == s.queue && t.scheduler == s.scheduler && t.capacity == s.capacity
    requires ListedKept(s, t)
    ensures QuietSoFar(t, queue)
  {
    var listed := Listed(s.scheduler);
    assert forall i :: 0 <= i < |listed| && listed[i].id in s.jobs ==> t.jobs[listed[i].id] == s.jobs[listed[i].id];
  }

  /** The listed jobs' records are the same in both. */
  ghost predicate ListedKept(s: System, t: System) {
    var listed := Listed(s.scheduler);
    forall i :: 0 <= i < |listed| && listed[i].id in s.jobs
                ==> listed[i].id in t.jobs && t.jobs[listed[i].id] == s.jobs[listed[i].id]
  }

  lemma OthersStayQuiet(s: System, e: Event, queue: seq<Job>)
    requires Inv(s) && Enabled(s, e) && Quiet(e) && !BySchedulers(e) && QuietSoFar(s, queue)
    ensures QuietSoFar(Apply(s, e), queue)
  {
    OthersLeaveTheRest(s, e);
    OthersLeaveListed(s, e, queue);
    QuietFrame(s, Apply(s, e), queue);
  }

  lemma OthersLeaveListed(s: System, e: Event, queue: seq<Job>)
    requires Inv(s) && Enabled(s, e) && Quiet(e) && !BySchedulers(e) && QuietSoFar(s, queue)
    ensures ListedKept(s, Apply(s, e))
  {
    var t, listed := Apply(s, e), Listed(s.scheduler);
    forall i | 0 <= i < |listed| && listed[i].id in s.jobs
      ensures listed[i].id in t.jobs && t.jobs[listed[i].id] == s.jobs[listed[i].id]
    {
      ListedWaits(s, queue, i);
      OthersLeave(s, e, listed[i].id);
    }
  }

  lemma ListingStaysQuiet(s: System, e: Event, queue: seq<Job>)
    requires Inv(s) && Enabled(s, e) && (e.TickBegin? || e.TickRead? || e.TickReady?) && QuietSoFar(s, queue)
    ensures QuietSoFar(Apply(s, e), queue)
  {
    if e.TickRead? {
      assert JobInv(s, e.id);
    } else if e.TickReady? {
      var found := s.scheduler.found;
      FilterKeeps(found, s.clock);
      SortHasSameElements(e.ready, Filter(found, s.clock), DispatchesBefore);
      forall i | 0 <= i < |e.ready|
        ensures e.ready[i].id in s.jobs && s.jobs[e.ready[i].id] == e.ready[i] && e.ready[i].state == State.Pending
      {
        assert e.ready[i] in e.ready;
        assert e.ready[i] in found;
      }
      assert queue + e.ready[..0] == queue;
    }
  }

  lemma QueueingStaysQuiet(s: System, queue: seq<Job>)
    requires DistinctIds(Listed(s.scheduler)) && Enabled(s, TickQueue) && QuietSoFar(s, queue)
    ensures QuietSoFar(Apply(s, TickQueue), queue)
  {
    var ready, next := s.scheduler.ready, s.scheduler.next;
    assert s.jobs[ready[next].id] == ready[next];
  }

  lemma SendingStaysQuiet(s: System, queue: seq<Job>)
    requires Enabled(s, TickSend) && QuietSoFar(s, queue)
    ensures QuietSoFar(Apply(s, TickSend), queue)
  {
    var ready, next := s.scheduler.ready, s.scheduler.next;
    if |s.queue| < s.capacity {
      assert ready[..next + 1] == ready[..next] + [ready[next]];
    }
  }

  lemma RevertingStaysQuiet(s: System, queue: seq<Job>)
    requires DistinctIds(Listed(s.scheduler)) && Enabled(s, TickRevert) && QuietSoFar(s, queue)
    ensures QuietSoFar(Apply(s, TickRevert), queue)
  {
    var ready, next := s.scheduler.ready, s.scheduler.next;
    assert |s.queue| == |queue| + Min(s.capacity - |queue|, next);
  }

  lemma SchedulerStaysQuiet(s: System, e: Event, queue: seq<Job>)
    requires Inv(s) && Enabled(s, e) && (e.TickQueue? || e.TickSend? || e.TickRevert?) && QuietSoFar(s, queue)
    ensures QuietSoFar(Apply(s, e), queue)
  {
    match e
    case TickQueue => QueueingStaysQuiet(s, queue);
    case TickSend => SendingStaysQuiet(s, queue);
    case TickRevert => RevertingStaysQuiet(s, queue);
  }

  lemma StepStaysQuiet(s: System, e: Event, queue: seq<Job>)
    requires Inv(s) && Enabled(s, e) && Quiet(e) && QuietSoFar(s, queue)
    ensures QuietSoFar(Apply(s, e), queue)
  {
    if !BySchedulers(e) {
      OthersStayQuiet(s, e, queue);
    } else if e.TickBegin? || e.TickRead? || e.TickReady? {
      ListingStaysQuiet(s, e, queue);
    } else {
      SchedulerStaysQuiet(s, e, queue);
    }
  }

  lemma {:induction false} RunStaysQuiet(s: System, es: seq<Event>, queue: seq<Job>)
    requires Inv(s) && Runs(s, es) && QuietSoFar(s, queue) && forall i :: 0 <= i < |es| ==> Quiet(es[i])
    ensures QuietSoFar(After(s, es), queue)
    decreases |es|
  {
    if es == [] {
    } else {
      StepStaysQuiet(s, es[0], queue);
      StepKeepsInv(s, es[0]);
      RunStaysQuiet(Apply(s, es[0]), es[1..], queue);
    }
  }

  /** A run from between two ticks to the end of the next one's loop, in which nothing is received and
      no handler writes. Time may pass, jobs may be submitted, workers may go on with what they have. */
  ghost predicate QuietTick(s: System, es: seq<Event>) {
    && s.scheduler.Waiting? && Runs(s, es) && (forall i :: 0 <= i < |es| ==> Quiet(es[i]))
    && After(s, es).scheduler.Dispatching? && After(s, es).scheduler.next == |After(s, es).scheduler.ready|
  }

  /** Exactly the first min(free slots, ready) jobs are in the channel and QUEUED, and every other
      ready job's record is as it was listed. The ready jobs go by priority and then age, so none that
      was left behind has a higher priority than one that was sent. */
  lemma QuietTickExact(s: System, es: seq<Event>)
    requires Inv(s) && QuietTick(s, es)
    ensures var t, ready := After(s, es), After(s, es).scheduler.ready;
            var n := Min(s.capacity - |s.queue|, |ready|);
            && t.queue == s.queue + ready[..n]
            && (forall i :: 0 <= i < n ==> ready[i].id in t.jobs && t.jobs[ready[i].id] == ready[i].(state := State.Queued))
            && (forall i :: n <= i < |ready| ==> ready[i].id in t.jobs && t.jobs[ready[i].id] == ready[i])
    ensures var ready := After(s, es).scheduler.ready;
            forall i, j :: 0 <= i < j < |ready| ==>
              ready[i].priority > ready[j].priority
              || (ready[i].priority == ready[j].priority && ready[i].createdAt <= ready[j].createdAt)
  {
    RunStaysQuiet(s, es, s.queue);
    CapacityKept(s, es);
    RunKeepsInv(s, es);
    ReadyInOrder(After(s, es));
  }

  lemma ReadyInOrder(s: System)
    requires SchedulerInv(s) && s.scheduler.Dispatching?
    ensures var ready := s.scheduler.ready;
            forall i, j :: 0 <= i < j < |ready| ==>
              ready[i].priority > ready[j].priority
              || (ready[i].priority == ready[j].priority && ready[i].createdAt <= ready[j].createdAt)
  {
    var ready := s.scheduler.ready;
    assert forall i, j :: 0 <= i < j < |ready| ==> DispatchesBefore(ready[i], ready[j]);
  }

  lemma {:induction false} CapacityKept(s: System, es: seq<Event>)
    requires Runs(s, es)
    ensures After(s, es).capacity == s.capacity
    decreases |es|
  {
    if es == [] {
    } else {
      CapacityKept(Apply(s, es[0]), es[1..]);
    }
  }

  // ----- and every record that was waiting, ready or not

  /** The record is what it was, or has moved from PENDING to QUEUED; either way it waits. */
  ghost predicate Spared(s: System, record: Job) {
    && Unreceived(s, record.id) && (record.state == State.Queued ==> Count(s.queue, IsFor(record.id)) >= 1)
    && (s.jobs[record.id] == record || (record.state == State.Pending && s.jobs[record.id] == record.(state := State.Queued)))
  }

  lemma StepSpares(s: System, e: Event, record: Job)
    requires Inv(s) && Enabled(s, e) && Quiet(e) && Spared(s, record)
    ensures Spared(Apply(s, e), record)
  {
    if BySchedulers(e) {
      SchedulerSpares(s, e, record);
    } else {
      OthersLeave(s, e, record.id);
      OthersLeaveTheRest(s, e);
    }
  }

  lemma SchedulerSpares(s: System, e: Event, record: Job)
    requires Inv(s) && Enabled(s, e) && BySchedulers(e) && Spared(s, record)
    ensures Spared(Apply(s, e), record)
  {
    if e.TickQueue? {
      QueueSpares(s, record);
    } else if e.TickSend? {
      SendSpares(s, record);
    } else if e.TickRevert? {
      RevertSpares(s, record);
    }
  }

  lemma QueueSpares(s: System, record: Job)
    requires Inv(s) && Enabled(s, TickQueue) && Spared(s, record)
    ensures Spared(Apply(s, TickQueue), record)
  {
  }

  lemma SendSpares(s: System, record: Job)
    requires Inv(s) && Enabled(s, TickSend) && Spared(s, record)
    ensures Spared(Apply(s, TickSend), record)
  {
    CountAppend(s.queue, s.scheduler.ready[s.scheduler.next], IsFor(record.id));
  }

  /** A job in the channel is not the one the scheduler still has in hand. */
  lemma RevertSpares(s: System, record: Job)
    requires Inv(s) && Enabled(s, TickRevert) && Spared(s, record)
    ensures Spared(Apply(s, TickRevert), record)
  {
    assert JobInv(s, record.id);
  }

  lemma {:induction false} RunSpares(s: System, es: seq<Event>, record: Job)
    requires Inv(s) && Runs(s, es) && Spared(s, record) && forall i :: 0 <= i < |es| ==> Quiet(es[i])
    ensures Spared(After(s, es), record)
    decreases |es|
  {
    if es == [] {
    } else {
      StepSpares(s, es[0], record);
      StepKeepsInv(s, es[0]);
      RunSpares(Apply(s, es[0]), es[1..], record);
    }
  }

  /** A job that was waiting when the tick began has the same record at its end, unless it is one of
      those the tick sent. */
  lemma QuietTickSpares(s: System, es: seq<Event>, id: string)
    requires Inv(s) && QuietTick(s, es) && Unreceived(s, id)
    ensures var t, ready := After(s, es), After(s, es).scheduler.ready;
            var n := Min(s.capacity - |s.queue|, |ready|);
            && id in t.jobs
            && (t.jobs[id] == s.jobs[id] || exists i :: 0 <= i < n && ready[i].id == id)
  {
    var t, ready := After(s, es), After(s, es).scheduler.ready;
    assert JobInv(s, id);
    RunSpares(s, es, s.jobs[id]);
    QuietTickExact(s, es);
    SparedOrSent(t, s.jobs[id], s.queue, ready[..Min(s.capacity - |s.queue|, |ready|)]);
  }

  lemma SparedOrSent(t: System, record: Job, queue: seq<Job>, sent: seq<Job>)
    requires Spared(t, record) && t.scheduler.Dispatching? && t.queue == queue + sent
    requires record.state == State.Pending ==> Count(queue, IsFor(record.id)) == 0
    ensures t.jobs[record.id] == record || exists i :: 0 <= i < |sent| && sent[i].id == record.id
  {
    if t.jobs[record.id] != record {
      var i := SentSince(queue, sent, record.id);
    }
  }

  lemma SentSince(queue: seq<Job>, sent: seq<Job>, id: string) returns (i: nat)
    requires Count(queue, IsFor(id)) == 0 && Count(queue + sent, IsFor(id)) >= 1
    ensures i < |sent| && sent[i].id == id
  {
    CountConcat(queue, sent, IsFor(id));
    i := CountWitness(sent, IsFor(id));
  }

  // ----- the scheduler and the executor as objects

  class Dispatcher {
    const store: Store
    const capacity: nat
    var queue: seq<Job>

    constructor (store: Store, capacity: nat)
      ensures this.store == store && this.capacity == capacity && queue == []
    {
      this.store := store;
      this.capacity := capacity;
      queue := [];
    }

    /** A tick, undisturbed. `ready` is what passed the gate, in dispatch order. */
    method ScheduleReady(now: Time) returns (ready: seq<Job>)
      requires forall id :: id in store.jobs ==> store.jobs[id].id == id
      requires |queue| <= capacity
      modifies this, store
      ensures DistinctIds(ready)
      ensures forall i, j :: 0 <= i < j < |ready| ==>
                ready[i].priority > ready[j].priority
                || (ready[i].priority == ready[j].priority && ready[i].createdAt <= ready[j].createdAt)
      ensures forall j :: j in ready <==>
                && j.id in old(store.jobs) && old(store.jobs)[j.id] == j && j.state == State.Pending
                && (j.runAfter == None || j.runAfter.value < now)
      ensures var n := Min(capacity - |old(queue)|, |ready|);
              queue == old(queue) + ready[..n] && FirstQueued(old(store.jobs), store.jobs, ready, n)
    {
      ready := ListReady(now);
      DispatchReady(ready, now);
    }

    /** The PENDING jobs past their gate, in dispatch order. */
    method ListReady(now: Time) returns (ready: seq<Job>)
      requires forall id :: id in store.jobs ==> store.jobs[id].id == id
      ensures Fresh(store.jobs, ready) && InDispatchOrder(ready)
      ensures forall j :: j in ready <==>
                && j.id in store.jobs && store.jobs[j.id] == j && j.state == State.Pending
                && (j.runAfter == None || j.runAfter.value < now)
    {
      var pending, ids := store.ListByState(State.Pending);
      var passed := [];
      for i := 0 to |pending|
        invariant passed == Filter(pending[..i], now)
      {
        assert pending[..i + 1][..i] == pending[..i];
        if Ready(pending[i], now) {
          passed := passed + [pending[i]];
        }
      }
      assert pending[..|pending|] == pending;
      ready := Sort(passed, DispatchesBefore);
      ReadyExactly(store.jobs, pending, ids, now, ready);
    }

    /** Marks, sends and reverts, job by job. */
    method DispatchReady(ready: seq<Job>, now: Time)
      requires Fresh(store.jobs, ready) && |queue| <= capacity
      modifies this, store
      ensures var n := Min(capacity - |old(queue)|, |ready|);
              queue == old(queue) + ready[..n] && FirstQueued(old(store.jobs), store.jobs, ready, n)
    {
      ghost var result := DispatchAll(store.jobs, queue, capacity, ready, now);
      DispatchExact(store.jobs, queue, capacity, ready, now);
      assert ready[0..] == ready;
      for i := 0 to |ready|
        invariant result == DispatchAll(store.jobs, queue, capacity, ready[i..], now)
      {
        assert ready[i..][1..] == ready[i + 1..];
        var error := store.Transition(ready[i].id, State.Queued, "", now);
        if error == None {
          if |queue| < capacity {
            queue := queue + [ready[i]];
          } else {
            error := store.Transition(ready[i].id, State.Pending, "", now);
          }
        }
      }
    }
  }

  /** Higher priority first, and the older first among equals. */
  ghost predicate InDispatchOrder(ready: seq<Job>) {
    forall i, j :: 0 <= i < j < |ready| ==>
      ready[i].priority > ready[j].priority
      || (ready[i].priority == ready[j].priority && ready[i].createdAt <= ready[j].createdAt)
  }

  /** Listing, filtering and sorting yields the ready jobs, each once. */
  lemma ReadyExactly(jobs: Jobs, pending: seq<Job>, ids: seq<string>, now: Time, ready: seq<Job>)
    requires forall id :: id in jobs ==> jobs[id].id == id
    requires Enumerates(ids, InState(jobs, State.Pending))
    requires |pending| == |ids| && forall i :: 0 <= i < |ids| ==> ids[i] in jobs && pending[i] == jobs[ids[i]]
    requires IsSortOf(ready, Filter(pending, now), DispatchesBefore)
    ensures Fresh(jobs, ready) && InDispatchOrder(ready)
    ensures forall j :: j in ready <==>
              && j.id in jobs && jobs[j.id] == j && j.state == State.Pending
              && (j.runAfter == None || j.runAfter.value < now)
  {
    assert DistinctIds(pending);
    FilterKeeps(pending, now);
    SortKeepsIdsDistinct(ready, Filter(pending, now));
    SortHasSameElements(ready, Filter(pending, now), DispatchesBefore);
    PendingExactly(jobs, pending, ids);
    forall i | 0 <= i < |ready| ensures ready[i] in pending {
      assert ready[i] in ready;
    }
  }

  lemma PendingExactly(jobs: Jobs, pending: seq<Job>, ids: seq<string>)
    requires forall id :: id in jobs ==> jobs[id].id == id
    requires Enumerates(ids, InState(jobs, State.Pending))
    requires |pending| == |ids| && forall i :: 0 <= i < |ids| ==> ids[i] in jobs && pending[i] == jobs[ids[i]]
    ensures forall j :: j in pending <==> j.id in jobs && jobs[j.id] == j && j.state == State.Pending
  {
    forall i | 0 <= i < |ids| ensures pending[i].id in jobs && jobs[pending[i].id] == pending[i] && pending[i].state == State.Pending {
      assert ids[i] in ids;
    }
    forall j: Job | j.id in jobs && jobs[j.id] == j && j.state == State.Pending ensures j in pending {
      assert j.id in InState(jobs, State.Pending);
      assert j.id in ids;
      var i :| 0 <= i < |ids| && ids[i] == j.id;
      assert pending[i] == j;
    }
  }

  /** The record after it has come to rest in `state`: the first finish is stamped, nothing else moves. */
  ghost predicate EndsIn(before: Job, after: Job, state: State, message: string, now: Time) {
    && after.state == state && after.errorMessage == message
    && after.retryCount == before.retryCount && after.runAfter == before.runAfter
    && after.startedAt == before.startedAt && after.finishedAt == Some(before.finishedAt.GetOr(now))
  }

  /** A failed run goes back for another try with both stamps cleared, or uses up the last one. An
      empty message leaves the old one. */
  ghost predicate FailsOrRetries(before: Job, after: Job, message: string, now: Time) {
    var text := if message != "" then message else before.errorMessage;
    if before.retryCount < before.maxRetries
    then && after.state == State.Pending && after.errorMessage == text
         && after.retryCount == before.retryCount + 1 && after.startedAt == None && after.finishedAt == None
         && before.retryCount >= 0 && after.runAfter == Some(now + Backoff.Delay(before.retryCount + 1))
    else EndsIn(before, after, State.Exhausted, text, now)
  }

  /** How the outcome of a run settles a RUNNING record. */
  ghost predicate SettledAs(before: Job, after: Job, outcome: Outcome, now: Time) {
    && SameRequest(before, after) && after.output == before.output
    && match outcome
       case Succeeded => EndsIn(before, after, State.Completed, before.errorMessage, now)
       case Interrupted => EndsIn(before, after, State.Cancelled, "cancelled by user", now)
       case TimedOut => FailsOrRetries(before, after, "timeout", now)
       case Errored(message) => FailsOrRetries(before, after, message, now)
  }

  /** The record of a run that was started and left this output. */
  function Started(job: Job, output: string, now: Time): Job {
    job.(state := State.Running, output := output, startedAt := Some(job.startedAt.GetOr(now)))
  }

  /** How a job's record ends up after one undisturbed run from QUEUED: with the output of this run and
      its first start stamped, settled by the outcome. */
  ghost predicate RunResult(before: Job, after: Job, output: string, outcome: Outcome, now: Time) {
    SettledAs(Started(before, output, now), after, outcome, now)
  }

  class Executor {
    const store: Store

    constructor (store: Store)
      ensures this.store == store
    {
      this.store := store;
    }

    /** Runs `job` to the end; a job that is no longer QUEUED is left alone. */
    method Run(job: Job, output: string, outcome: Outcome, now: Time)
      requires forall id :: id in store.jobs ==> store.jobs[id].id == id && store.jobs[id].retryCount >= 0
      modifies store
      ensures OnlyTouches(old(store.jobs), store.jobs, job.id)
      ensures if job.id in old(store.jobs) && old(store.jobs)[job.id].state == State.Queued
              then job.id in store.jobs && RunResult(old(store.jobs)[job.id], store.jobs[job.id], output, outcome, now)
              else store.jobs == old(store.jobs)
    {
      var error := store.Transition(job.id, State.Running, "", now);
      if error != None {
        return;
      }
      error := store.SetOutput(job.id, output);
      assert store.jobs[job.id] == Started(old(store.jobs)[job.id], output, now);
      assert OnlyTouches(old(store.jobs), store.jobs, job.id);
      Settle(job, outcome, now);
    }

    /** Acts on how the subprocess ended. */
    method Settle(job: Job, outcome: Outcome, now: Time)
      requires job.id in store.jobs && store.jobs[job.id].id == job.id && store.jobs[job.id].retryCount >= 0
      requires store.jobs[job.id].state == State.Running
      modifies store
      ensures OnlyTouches(old(store.jobs), store.jobs, job.id)
      ensures job.id in store.jobs && SettledAs(old(store.jobs)[job.id], store.jobs[job.id], outcome, now)
    {
      match outcome
      case Interrupted => var _ := store.Transition(job.id, State.Cancelled, "cancelled by user", now);
      case TimedOut => FailOrRetry(job, "timeout", now);
      case Errored(message) => FailOrRetry(job, message, now);
      case Succeeded => var _ := store.Transition(job.id, State.Completed, "", now);
    }

    method FailOrRetry(job: Job, message: string, now: Time)
      requires job.id in store.jobs && store.jobs[job.id].id == job.id && store.jobs[job.id].retryCount >= 0
      requires store.jobs[job.id].state == State.Running
      modifies store
      ensures OnlyTouches(old(store.jobs), store.jobs, job.id)
      ensures job.id in store.jobs && SettledAs(old(store.jobs)[job.id], store.jobs[job.id], Errored(message), now)
    {
      var error := store.Transition(job.id, State.Failed, message, now);
      if error != None {
        return;
      }
      var found := store.Get(job.id);
      if found.Failure? {
        return;
      }
      var current := found.value;
      if current.retryCount < current.maxRetries {
        error := store.Update(ScheduleRetry(current, now));
        return;
      }
      error := store.Transition(job.id, State.Exhausted, "", now);
    }
  }
}
