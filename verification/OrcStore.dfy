/** The shared job store. Each operation runs under one mutex, so each is one atomic step; the
    functions give that step on the map of records and the class carries it out in place. */
module OrcStore {
  import opened Options
  import opened OrcJobs
  import opened Listing

  type Jobs = map<string, Job>

  datatype StoreError = NotFound | AlreadyExists | InvalidTransition

  /** The error a validated transition reports, if any. */
  function TransitionError(jobs: Jobs, id: string, to: State): Option<StoreError> {
    if id !in jobs then Some(NotFound)
    else if !Allowed(jobs[id].state, to) then Some(InvalidTransition)
    else None
  }

  predicate CanTransition(jobs: Jobs, id: string, to: State) {
    TransitionError(jobs, id, to) == None
  }

  /** The records after a transition request; a refused one changes nothing. */
  function AfterTransition(jobs: Jobs, id: string, to: State, message: string, now: Time): Jobs {
    if CanTransition(jobs, id, to) then jobs[id := Entered(jobs[id], to, message, now)] else jobs
  }

  function AfterOutput(jobs: Jobs, id: string, output: string): Jobs {
    if id in jobs then jobs[id := jobs[id].(output := output)] else jobs
  }

  function AfterUpdate(jobs: Jobs, job: Job): Jobs {
    if job.id in jobs then jobs[job.id := job] else jobs
  }

  function AfterCreate(jobs: Jobs, job: Job): Jobs {
    if job.id in jobs then jobs else jobs[job.id := job]
  }

  class Store {
    var jobs: Jobs

    constructor ()
      ensures jobs == map[]
    {
      jobs := map[];
    }

    method Create(job: Job) returns (error: Option<StoreError>)
      modifies this
      ensures jobs == AfterCreate(old(jobs), job)
      ensures error == if job.id in old(jobs) then Some(AlreadyExists) else None
      ensures if job.id in old(jobs) then jobs == old(jobs) else jobs == old(jobs)[job.id := job]
    {
      if job.id in jobs {
        return Some(AlreadyExists);
      }
      jobs := jobs[job.id := job];
      return None;
    }

    method Get(id: string) returns (found: Result<Job, StoreError>)
      ensures found == if id in jobs then Success(jobs[id]) else Failure(NotFound)
    {
      if id !in jobs {
        return Failure(NotFound);
      }
      return Success(jobs[id]);
    }

    /** Overwrites the record wholesale, without looking at the table. */
    method Update(job: Job) returns (error: Option<StoreError>)
      modifies this
      ensures jobs == AfterUpdate(old(jobs), job)
      ensures error == if job.id in old(jobs) then None else Some(NotFound)
      ensures if job.id in old(jobs) then jobs == old(jobs)[job.id := job] else jobs == old(jobs)
    {
      if job.id !in jobs {
        return Some(NotFound);
      }
      jobs := jobs[job.id := job];
      return None;
    }

    /** Moves a job along one of the ten edges of the table, and refuses every other move. The message is
        kept if there is one; the first start and the first finish are stamped. */
    method Transition(id: string, to: State, message: string, now: Time) returns (error: Option<StoreError>)
      modifies this
      ensures jobs == AfterTransition(old(jobs), id, to, message, now)
      ensures error == TransitionError(old(jobs), id, to)
      ensures error == Some(NotFound) <==> id !in old(jobs)
      ensures error == None <==> id in old(jobs) && (old(jobs)[id].state, to) in {
                (Pending, Queued), (Pending, Cancelled),
                (Queued, Running), (Queued, Cancelled), (Queued, Pending),
                (Running, Completed), (Running, Failed), (Running, Cancelled),
                (Failed, Pending), (Failed, Exhausted)}
      ensures error != None ==> jobs == old(jobs)
      ensures error == None ==>
                && jobs.Keys == old(jobs).Keys && (forall k :: k in jobs && k != id ==> jobs[k] == old(jobs)[k])
                && jobs[id] == old(jobs)[id].(state := to, errorMessage := jobs[id].errorMessage,
                                              startedAt := jobs[id].startedAt, finishedAt := jobs[id].finishedAt)
                && jobs[id].errorMessage == (if message == "" then old(jobs)[id].errorMessage else message)
                && jobs[id].startedAt == (if to == Running then Some(old(jobs)[id].startedAt.GetOr(now)) else old(jobs)[id].startedAt)
                && jobs[id].finishedAt == (if to in {Completed, Failed, Exhausted, Cancelled}
                                           then Some(old(jobs)[id].finishedAt.GetOr(now)) else old(jobs)[id].finishedAt)
    {
      if id !in jobs {
        return Some(NotFound);
      }
      var job := jobs[id];
      if !Allowed(job.state, to) {
        return Some(InvalidTransition);
      }
      job := job.(state := to);
      if message != "" {
        job := job.(errorMessage := message);
      }
      if to == Running && job.startedAt == None {
        job := job.(startedAt := Some(now));
      }
      if StampsFinish(to) && job.finishedAt == None {
        job := job.(finishedAt := Some(now));
      }
      jobs := jobs[id := job];
      return None;
    }

    method SetOutput(id: string, output: string) returns (error: Option<StoreError>)
      modifies this
      ensures jobs == AfterOutput(old(jobs), id, output)
      ensures error == if id in old(jobs) then None else Some(NotFound)
      ensures if id in old(jobs) then jobs == old(jobs)[id := old(jobs)[id].(output := output)] else jobs == old(jobs)
    {
      if id !in jobs {
        return Some(NotFound);
      }
      jobs := jobs[id := jobs[id].(output := output)];
      return None;
    }

    /** The jobs in `state`, each once, in no particular order; `ids` are the keys they sit under. */
    method ListByState(state: State) returns (listed: seq<Job>, ghost ids: seq<string>)
      ensures Enumerates(ids, InState(jobs, state))
      ensures |listed| == |ids| && forall i :: 0 <= i < |ids| ==> ids[i] in jobs && listed[i] == jobs[ids[i]]
      ensures |listed| == |InState(jobs, state)| && forall i :: 0 <= i < |listed| ==> listed[i].state == state
      ensures forall id :: id in jobs && jobs[id].state == state ==> jobs[id] in listed
    {
      listed, ids := [], [];
      var all := Enumerate(jobs.Keys);
      for n := 0 to |all|
        invariant forall x :: x in ids <==> x in all[..n] && jobs[x].state == state
        invariant Distinct(ids)
        invariant |listed| == |ids| && forall i :: 0 <= i < |ids| ==> ids[i] in jobs && listed[i] == jobs[ids[i]]
      {
        assert all[n] !in all[..n];
        assert all[..n + 1] == all[..n] + [all[n]];
        if jobs[all[n]].state == state {
          listed, ids := listed + [jobs[all[n]]], ids + [all[n]];
        }
      }
      assert all[..|all|] == all;
      assert forall i :: 0 <= i < |ids| ==> ids[i] in ids;
      EnumerationSize(ids, InState(jobs, state));
      forall id | id in jobs && jobs[id].state == state ensures jobs[id] in listed {
        assert id in ids;
        var i :| 0 <= i < |ids| && ids[i] == id;
        assert listed[i] == jobs[id];
      }
    }
  }

  function InState(jobs: Jobs, state: State): set<string> {
    set id | id in jobs && jobs[id].state == state
  }
}
