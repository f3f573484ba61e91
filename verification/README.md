# Verified models of the backend infrastructure platform

Dafny models of the three Go services of the platform and proofs about them:

* **ml-job-orchestrator** (`Orc*.dfy`): the scheduler, the bounded channel, the workers, the
  executor, the submit and cancel handlers and the job store, as concurrent processes whose every
  store call, channel operation and read is a step of its own. `OrcDispatch` is the state machine,
  `OrcInvariant` and `OrcSteps` its inductive invariant, `OrcTheorems` what holds of all runs.
  `OrcRecords` says field by field what each step writes and what a client's request comes to, and
  `OrcOvertaking` how far a tick keeps to the priorities.
  `OrcStore` and `OrcTick` hold the classes with the store's methods, the scheduler's tick and the
  executor, proved against the same functions the machine is made of.
* **control-plane** (`Cp*.dfy`): nodes, deployments and pods under API calls, scheduler ticks and
  reconciler ticks. `CpCluster` is the state machine, with two records beside the code: a ledger of
  reservations not given back, and which pods an agent has picked up. `CpInvariant`, `CpSteps` and
  `CpReconcile` prove its invariant; `CpScheduling`, `CpExact` and `CpTheorems` prove the results,
  `CpRecords` says field by field what each call and tick writes, and
  `CpWitness` holds runs from an empty cluster that show the surprising results to be real.
  `CpControlPlane` is the imperative form, a class whose methods update the store's maps in the
  code's order, each proved to be the corresponding function or event of the machine.
* **reverse-proxy-load-balancer** (`Lb*.dfy`): the two round-robin balancers, the retry loop, the
  health counter, the pool refresh and the counters on a backend object.

`Backoff` is the capped exponential delay both schedulers use, in 64-bit arithmetic. `Words`, `Counting`,
`Listing`, `Ordering` and `Options` are shared definitions.

Statements about runs quantify over every run from the empty state: any number of events, in any
interleaving. `Reachable(s)` means some such run ends in `s`; lemmas that ask for `Inv` instead hold
in every state the invariant allows, which includes all reachable ones.

## Where the code is weaker than its comments or documents

The model follows the code. These differences are stated as lemmas:

* A cancel handler that read PENDING or QUEUED and writes late marks a job CANCELLED while its worker
  is executing it, although ml-job-orchestrator/internal/api/handlers.go:130-136 calls
  the executor the only writer of that state. `LeavesRunningIff` says
  exactly when; `StaleCancelHappens` is a run from a fresh process.
* ml-job-orchestrator/docs/design.md:40 says that ready jobs are dispatched by priority. A worker that
  receives in the middle of a tick can let a job overtake one of higher priority that the full channel
  had just turned away: `OvertakenHappens`. In other ticks this does not happen: `NoneOvertaken`.
* The backoff's product leaves the 64-bit range at attempt 34, and the wrapped delay is then
  negative: `DelayExact`, `BudgetSpacedAsPromised`, `NegativeDelay`, `NoSpacingBeyond33`.
* control-plane/docs/scheduler.md says the reconciler gives a lost node's capacity back. It does not:
  `LossLeaksReservation`, `LeakHappens`. The loss is on the safe side, so `NoOvercommit` still holds.
* control-plane/docs/reconciler.md says DEGRADED can return to ACTIVE. Dead letters never go away, so
  it cannot: `DegradedForever`, `DegradedHappens`.
* control-plane/internal/model/pod.go:101-105 calls FAILED a brief state the reconciler resolves.
  Nothing does: `FinishedForever`, `FailedHappens`.
* An unchanged backend spec keeps its object across refreshes only if its weight is at least one and
  its URL prints back as written: `NewObjectRecognisedIff`.

## Model

| member | source | states |
|---|---|---|
| `OrcStore.Store.Create` | ml-job-orchestrator/internal/store/store.go:35-43 | a new id is stored; a taken one is refused and nothing changes |
| `OrcStore.Store.Get` | ml-job-orchestrator/internal/store/store.go:45-51 | the stored record, or not found |
| `OrcStore.Store.Update` | ml-job-orchestrator/internal/store/store.go:56-64 | replaces an existing record wholesale, unvalidated; an unknown id is refused |
| `OrcStore.Store.Transition` | ml-job-orchestrator/internal/store/store.go:70-99 | succeeds exactly for the ten pairs of the table, which are written out, and then sets state, first start, first finish and a non-empty error text; any other pair or an unknown id is refused and leaves the map unchanged |
| `OrcStore.Store.SetOutput` | ml-job-orchestrator/internal/store/store.go:102-113 | replaces only the output, in any state |
| `OrcStore.Store.ListByState` | ml-job-orchestrator/internal/store/store.go:119-129 | exactly the records in that state, each once |
| `OrcTheorems.ReachableInv` | ml-job-orchestrator/internal/scheduler/scheduler.go:47-90 | the inductive invariant holds after every run of scheduler, workers, executors and handlers |
| `OrcTheorems.DispatchTokens` | ml-job-orchestrator/internal/scheduler/scheduler.go:64-88 | in every reachable state copies on the way plus executions of a job are at most one, a QUEUED job has exactly one copy, a copy means QUEUED or CANCELLED, and RUNNING means exactly one execution |
| `OrcTheorems.NoDoubleExecution` | ml-job-orchestrator/internal/worker/pool.go:47-78 | two workers are never inside runs of the same job |
| `OrcTheorems.StartRefusedOnlyIfCancelled` | ml-job-orchestrator/internal/executor/executor.go:33-37 | a worker's start succeeds exactly when its job is still QUEUED and is refused exactly when it was cancelled meanwhile |
| `OrcTheorems.RetryOverwriteIsAtomic` | ml-job-orchestrator/internal/executor/executor.go:84-99 | when the unvalidated overwrite happens, the record read earlier is still what the store holds, so no concurrent write is lost, and it is the FAILED to PENDING edge; otherwise the job ends EXHAUSTED |
| `OrcTheorems.StepIsLegal` | ml-job-orchestrator/internal/model/job.go:19-41 | every change any process makes to a stored job leaves its state alone or is one of ten written-out moves; the request never changes, and the retry count only by one, within the budget, from FAILED to PENDING |
| `OrcTheorems.AbsorbedForever` | ml-job-orchestrator/internal/api/handlers.go:130-170 | over any further run COMPLETED, EXHAUSTED and CANCELLED jobs keep their state, retry count and number of starts, whatever stale writers do |
| `OrcTheorems.RequestKept` | ml-job-orchestrator/internal/store/store.go:56-64 | over any run a job never disappears, its request stays and used retries are never given back |
| `OrcTheorems.RunCount` | ml-job-orchestrator/internal/executor/executor.go:64-99 | executions started equal RetryCount while PENDING or QUEUED and one more while RUNNING, FAILED, COMPLETED or EXHAUSTED; never above max(MaxRetries,0)+1, and exactly that when EXHAUSTED |
| `OrcTheorems.NeverBeforeRunAfter` | ml-job-orchestrator/internal/scheduler/scheduler.go:47-63 | a job past PENDING that was not cancelled is past its RunAfter |
| `OrcTheorems.MovesSpendMeasure` | ml-job-orchestrator/internal/model/job.go:19-29 | retries left and lifecycle rank pay for every transition other than dispatch and revert, over any run |
| `OrcTheorems.BoundedMoves` | ml-job-orchestrator/internal/executor/executor.go:94-98 | in a run of any length a job makes at most three such transitions per allowed execution |
| `OrcTheorems.TickOrder` | ml-job-orchestrator/internal/scheduler/scheduler.go:47-88 | whatever happens during a tick, of any two jobs it sends the first has the higher priority, or the same and is no younger; no job is sent twice or before its RunAfter |
| `OrcTick.DispatchExact` | ml-job-orchestrator/internal/scheduler/scheduler.go:64-88 | a pass sends exactly the first min(free slots, ready) jobs in order, and every other record ends as it was, the reverted ones included |
| `OrcTick.RevertRestores` | ml-job-orchestrator/internal/scheduler/scheduler.go:73-86 | marking QUEUED and reverting against a full channel restores the record exactly |
| `OrcTick.QuietTickExact` | ml-job-orchestrator/internal/scheduler/scheduler.go:47-88 | in any interleaving of a whole tick without a receive or a handler's write, while time passes, jobs are submitted and busy workers go on, exactly the first min(free slots, ready) jobs, by falling priority and then rising creation time, are sent and QUEUED, and every other ready record is as it was listed |
| `OrcTick.QuietTickSpares` | ml-job-orchestrator/internal/scheduler/scheduler.go:64-88 | over such a tick every job that was PENDING or waiting in the channel, ready or not, keeps its record unless it is one of those sent |
| `OrcTick.Dispatcher.ScheduleReady` | ml-job-orchestrator/internal/scheduler/scheduler.go:47-90 | an undisturbed tick: the ready jobs are exactly the PENDING ones with no RunAfter or one in the past, ordered by falling priority and then rising creation time, and the first min(free slots, ready) of them are queued |
| `OrcOvertaking.NoneOvertaken` | ml-job-orchestrator/internal/scheduler/scheduler.go:57-88 | over such a tick no ready job left behind has a higher priority than one sent, or the same and is older |
| `OrcOvertaking.OvertakenHappens` | ml-job-orchestrator/internal/scheduler/scheduler.go:73-88 | a run from a fresh process in which a receive during the tick lets a job overtake a ready one of higher priority |
| `OrcRecords.SubmittedJob` | ml-job-orchestrator/internal/api/handlers.go:50-92 | a new job is stored PENDING with the priority and retries asked for and nothing run, and over every further run keeps what was asked for and starts at most max(MaxRetries,0)+1 times |
| `OrcRecords.CancelTakesEffect` | ml-job-orchestrator/internal/api/handlers.go:137-167 | a handler that read PENDING or QUEUED makes a PENDING, QUEUED or RUNNING job CANCELLED with its message and finish stamp, and over every further run it stays so and is not started again |
| `OrcRecords.CancelTooLate` | ml-job-orchestrator/internal/api/handlers.go:145-167 | a handler that read any other state, or writes after the job ended, changes no record |
| `OrcRecords.CancelAtOnce` | ml-job-orchestrator/internal/api/handlers.go:137-167 | a cancel request nothing comes in between of cancels a PENDING or QUEUED job and leaves every other to its executor |
| `OrcRecords.StartWrites` | ml-job-orchestrator/internal/executor/executor.go:33-37 | a QUEUED job becomes RUNNING with its first start kept or stamped and one start more; any other is not touched |
| `OrcRecords.FinishWrites` | ml-job-orchestrator/internal/executor/executor.go:60-63 | the end of the subprocess stores its output and nothing else, even for a job cancelled meanwhile |
| `OrcRecords.ConcludeWrites` | ml-job-orchestrator/internal/executor/executor.go:64-79 | success, interruption, timeout and error leave a RUNNING record COMPLETED, CANCELLED or FAILED with their own error text and a finish stamp; a cancelled one is not touched |
| `OrcRecords.DecideWrites` | ml-job-orchestrator/internal/executor/executor.go:84-99 | a failed job goes back to PENDING with one retry more, the gate of that retry and both stamps cleared while retries are left, and is EXHAUSTED otherwise |
| `OrcRecords.ReadyAre` | ml-job-orchestrator/internal/scheduler/scheduler.go:47-63 | of the jobs a tick listed it considers exactly those with no RunAfter or one in the past, each once, by falling priority and then rising creation time |
| `OrcTick.Executor.Run` | ml-job-orchestrator/internal/executor/executor.go:33-79 | touches only its job; a job not QUEUED is left alone, otherwise the record carries the run's output and first start, and the outcome decides state, error text, finish stamp, retry count and gate |
| `OrcTick.Executor.FailOrRetry` | ml-job-orchestrator/internal/executor/executor.go:84-99 | a failed run keeps its error text and is rescheduled with one more retry, the backoff gate and both stamps cleared, or EXHAUSTED with its finish stamped when the budget is used up |
| `OrcStaleCancel.LeavesRunningIff` | ml-job-orchestrator/internal/api/handlers.go:130-170 | of all events by all processes, a job leaves RUNNING if and only if its own worker concludes or a handler that read PENDING or QUEUED writes; the latter makes it CANCELLED whatever the worker is doing |
| `OrcStaleCancel.OverriddenForGood` | ml-job-orchestrator/internal/api/handlers.go:145-167 | after such a write the job is CANCELLED at the end of every further run, so the worker's own result, even a success waiting to be stored, is lost |
| `OrcStaleCancel.StaleCancelHappens` | ml-job-orchestrator/internal/api/handlers.go:145-167 | a concrete run from a fresh process in which this happens |
| `Backoff.DelayExact` | control-plane/internal/reconciler/backoff.go:15-21 | the computed delay is min(2^attempt, 60) seconds exactly for attempts up to 33 and for eight larger ones where the wrapped product exceeds the cap |
| `Backoff.DelayInNanoseconds` | control-plane/internal/reconciler/backoff.go:15-21 | the delays of attempts 0 to 5 are 1, 2, 4, 8, 16 and 32 seconds and those up to 33 are 60 seconds, in nanoseconds |
| `Backoff.BudgetSpacedAsPromised` | ml-job-orchestrator/internal/retry/retry.go:22-33 | every retry of a budget is spaced as documented if and only if the budget is at most 33 |
| `Backoff.NegativeDelay` | control-plane/internal/reconciler/backoff.go:15-21 | the delay of attempt 34 |
| `CpReconcile.ReachableInv` | control-plane/internal/reconciler/reconciler.go:51-247 | the cluster invariant holds after every run of calls, ticks and late, repeated or stale reports |
| `CpTheorems.NoOvercommit` | control-plane/internal/scheduler/scheduler.go:89-104 | in every reachable state the requests of any set of SCHEDULED and RUNNING pods of a node plus its Available fit its Capacity; Available is non-negative and equals Capacity minus reservations not given back |
| `CpTheorems.ClampNeverFires` | control-plane/internal/api/handlers_node.go:186-228 | a final report gives back exactly what was reserved for the pod on the reporting node; the clamp to Capacity never changes the sum |
| `CpTheorems.LossLeaksReservation` | control-plane/internal/reconciler/reconciler.go:182-247 | a reconciler tick takes a pod off a lost node but its reservation stays: Available is unchanged and below Capacity by at least the pod's request |
| `CpTheorems.TickMovesPod` | control-plane/internal/reconciler/reconciler.go:51-247 | in every state the invariant allows, a whole tick changes an existing pod only by the loss of its node; no pod is scaled down and no node changes but by being given up, both written out in CpRecords |
| `CpRecords.TickWritesNode` | control-plane/internal/reconciler/reconciler.go:140-176 | over a whole tick a HEALTHY node silent for longer than the timeout becomes UNHEALTHY, a DRAINING one REMOVED, and every other record is unchanged |
| `CpRecords.RemovedForever` | control-plane/internal/model/node.go:16-24 | over every run a REMOVED node stays REMOVED and no pod is SCHEDULED or RUNNING on it |
| `CpRecords.TickWritesPod` | control-plane/internal/reconciler/reconciler.go:182-247 | over a whole tick a SCHEDULED pod of a silent node goes back for free, a RUNNING one uses an attempt and is requeued behind its backoff or given up, and every other record is unchanged |
| `CpRecords.TickAddsPod` | control-plane/internal/reconciler/reconciler.go:91-118 | a pod a tick adds belongs to a deployment that is not CANCELLED and is PENDING, on no node, with no attempt used, no gate and this moment as its creation |
| `CpRecords.TellWrites` | control-plane/internal/api/handlers_node.go:154-228 | a report writes exit code and output in any case and the status for six written-out moves; one that ends a run leaves the node one running pod fewer and its available amounts up by just the request, any other leaves the nodes alone |
| `CpRecords.SubmittedDeployment` | control-plane/internal/api/handlers_deployment.go:28-96 | a deployment is stored under the first free id with the replicas asked for, at least one; over every further run it keeps size, retries and request and never has more active pods than replicas |
| `CpRecords.WithdrawnDeployment` | control-plane/internal/api/handlers_deployment.go:127-146 | a withdrawn deployment is CANCELLED from then on, and over every further run has only pods it had |
| `CpRecords.JoinWrites` | control-plane/internal/api/handlers_node.go:24-76 | a node joins under the first free id HEALTHY, empty, with its whole capacity available |
| `CpRecords.BeatWrites` | control-plane/internal/api/handlers_node.go:88-118 | a heartbeat sets when the node was heard of and what it runs and makes an UNHEALTHY node HEALTHY, and changes nothing else |
| `CpRecords.DrainWrites` | control-plane/internal/api/handlers_node.go:260-276 | only a HEALTHY node becomes DRAINING, and nothing else changes |
| `CpRecords.OnlyHealthyGetPods` | control-plane/internal/scheduler/scheduler.go:60-108 | a scheduling tick moves a pod only from PENDING to SCHEDULED on a node that is HEALTHY, so a DRAINING node gets none |
| `CpTheorems.PlacementConsistent` | control-plane/internal/reconciler/reconciler.go:140-247 | in every reachable state a SCHEDULED or RUNNING pod names a registered HEALTHY or DRAINING node, a PENDING one names none, and no pod is RETRYING |
| `CpTheorems.NoSilentNodeInService` | control-plane/internal/reconciler/reconciler.go:140-176 | after a reconciler tick every HEALTHY or DRAINING node was heard of within the timeout |
| `CpTheorems.ReplicaSafety` | control-plane/internal/model/pod.go:101-113 | in every reachable state at most Replicas pods of a deployment are active, and at most Replicas have SUCCEEDED |
| `CpTheorems.RetryBudget` | control-plane/internal/reconciler/reconciler.go:195-245 | a pod is DEAD_LETTER exactly when its attempt is max(MaxRetries,0)+1, and no attempt is higher |
| `CpTheorems.UnstartedLossIsFree` | control-plane/internal/reconciler/reconciler.go:195-205 | a tick that takes a SCHEDULED pod off a lost node leaves it PENDING with no node and otherwise unchanged |
| `CpTheorems.AttemptsAreLosses` | control-plane/internal/reconciler/reconciler.go:195-245 | over any run the attempts a pod uses are exactly the times it was RUNNING on a node given up; losses while SCHEDULED, reports and everything else cost none |
| `CpTheorems.RunEvolves` | control-plane/internal/model/pod.go:21-43 | over any run no record disappears, finished pods and cancelled deployments stay so, attempts never fall and a gate changes only with the attempt |
| `CpTheorems.FinishedForever` | control-plane/internal/model/pod.go:101-105 | over any run a pod that ended, FAILED included, keeps its status |
| `CpTheorems.CancelledGainsNothing` | control-plane/internal/reconciler/reconciler.go:58-129 | over any run a CANCELLED deployment stays so and its set of pods never changes |
| `CpTheorems.DegradedForever` | control-plane/internal/reconciler/reconciler.go:131-137 | over any run a DEGRADED deployment never becomes ACTIVE again |
| `CpTheorems.RequeueSetsGate` | control-plane/internal/reconciler/reconciler.go:209-245 | a pod requeued by a tick carries its attempt plus one and the gate of that attempt, within its budget |
| `CpTheorems.RetrySpacing` | control-plane/internal/scheduler/scheduler.go:71-73 | with MaxRetries at most 33 a pod requeued at t is, in any run, not placed again before t plus min(2^attempt, 60) seconds |
| `CpWitness.NoSpacingBeyond33` | control-plane/internal/reconciler/backoff.go:15-21 | for every MaxRetries of 34 or more there is a run from an empty cluster in which a pod is placed again at the moment it was requeued, so the bound in RetrySpacing is exact |
| `CpWitness.LeakHappens` | control-plane/internal/reconciler/reconciler.go:182-247 | a run from an empty cluster to a tick after which a node carries no pod and has nothing available |
| `CpWitness.DegradedHappens` | control-plane/internal/reconciler/reconciler.go:131-137 | a run to a deployment that is DEGRADED by a dead letter |
| `CpWitness.FailedHappens` | control-plane/internal/model/pod.go:101-113 | a run to a FAILED pod that holds its deployment's only slot, and still does after every further run |
| `CpScheduling.SelectsIfPossible` | control-plane/internal/scheduler/placement.go:21-40 | no node is chosen if and only if none is HEALTHY, below its concurrency limit and with the CPU and memory asked for |
| `CpScheduling.SelectsLeastLoaded` | control-plane/internal/scheduler/placement.go:21-40 | the node chosen is HEALTHY with room, and every other such node runs more pods, or as many and registered no earlier |
| `CpScheduling.TurnPlaces` | control-plane/internal/scheduler/scheduler.go:78-104 | a pod scheduled at its turn is put on a HEALTHY node with room that runs the fewest pods, the first registered among equals; that node alone changes, by one running pod more and the request off what is available |
| `CpScheduling.PlacedOnLeastLoaded` | control-plane/internal/scheduler/scheduler.go:60-108 | the same of the node on which a whole tick leaves a pod, judged as the nodes were at the pod's turn |
| `CpScheduling.ScheduledIff` | control-plane/internal/scheduler/scheduler.go:60-108 | a ready pod is scheduled if and only if some node is eligible for it at its turn |
| `CpScheduling.WorkConserving` | control-plane/internal/scheduler/scheduler.go:60-108 | a ready pod left PENDING finds no node that is HEALTHY, below its concurrency limit and with the CPU and memory free even with what is left at the end of the tick |
| `CpScheduling.DominanceFifo` | control-plane/internal/scheduler/scheduler.go:60-108 | if a pod is scheduled, so is every ready pod before it whose request is no larger in any component |
| `CpScheduling.OlderFirst` | control-plane/internal/scheduler/scheduler.go:60-108 | if a ready pod is scheduled, so is every older ready pod that asks for no more CPU and no more memory |
| `CpScheduling.GateHolds` | control-plane/internal/scheduler/scheduler.go:71-73 | a pod inside its backoff leaves the tick unchanged |
| `CpExact.ReconcileExact` | control-plane/internal/reconciler/reconciler.go:58-129 | with fresh ids one pass leaves max(Replicas, active minus cancellable) active pods |
| `CpExact.ScaleDownTakesNewest` | control-plane/internal/reconciler/reconciler.go:119-128 | a scale-down changes only PENDING and SCHEDULED pods, by cancelling them, and every cancelled one is at least as new as every survivor |
| `CpExact.StatusExact` | control-plane/internal/reconciler/reconciler.go:131-137 | after a pass a deployment not CANCELLED is DEGRADED exactly when it has a dead letter and ACTIVE otherwise |
| `CpExact.PassIdempotent` | control-plane/internal/reconciler/reconciler.go:51-138 | after a pass with fresh ids from any state of the invariant, a second pass in any order, with any listings and ids, leaves the whole cluster unchanged |
| `CpExact.TurnIdempotent` | control-plane/internal/reconciler/reconciler.go:58-137 | from any state at all, a second turn of one deployment, with any correct listing and any ids, changes nothing |
| `CpExact.AllFilled` | control-plane/internal/reconciler/reconciler.go:51-138 | from any state of the invariant, a pass over all deployments with fresh ids leaves in each one not CANCELLED exactly Replicas active pods and the status its dead letters call for |
| `CpControlPlane.ChooseNode` | control-plane/internal/scheduler/placement.go:21-40 | the scan returns a HEALTHY node with room such that every other one runs more pods, or as many and registered no earlier; none exactly when there is none |
| `CpControlPlane.BestIsSelected` | control-plane/internal/scheduler/placement.go:21-40 | the scan over listed records picks the node the state machine selects |
| `CpControlPlane.ControlPlane.CreateDeployment` | control-plane/internal/api/handlers_deployment.go:28-96 | refused exactly without a name or without both command and image; otherwise the deployment appears PENDING under the first unused of five ids, or nothing changes when all are taken |
| `CpControlPlane.ControlPlane.RegisterNode` | control-plane/internal/api/handlers_node.go:24-76 | refused exactly without an address; otherwise the node appears HEALTHY and empty under the first unused of five ids, or nothing changes |
| `CpControlPlane.ControlPlane.Beat` | control-plane/internal/api/handlers_node.go:88-118 | records the heartbeat, the running count and an available amount if one is sent, and brings an UNHEALTHY node back; DRAINING and REMOVED stay |
| `CpControlPlane.ControlPlane.PollPods` | control-plane/internal/api/handlers_node.go:123-142 | hands out a pod SCHEDULED on that node whenever there is one, and only such a pod; nothing stored changes |
| `CpControlPlane.ControlPlane.UpdatePodStatus` | control-plane/internal/api/handlers_node.go:154-198 | exit code and output are written even when the move is refused; capacity comes back only for a pod that was RUNNING |
| `CpControlPlane.ControlPlane.ReleaseNodeCapacity` | control-plane/internal/api/handlers_node.go:209-228 | one running pod fewer, never below zero, and the request back, never above Capacity |
| `CpControlPlane.ControlPlane.TransitionPod` | control-plane/internal/state/memory_store.go:200-236 | succeeds exactly for the pairs of the table, which are written out, and sets only the status of a pod; otherwise nothing changes |
| `CpControlPlane.ControlPlane.TransitionNode` | control-plane/internal/state/memory_store.go:301-315 | succeeds exactly for the pairs of the table, which are written out, and sets only the status of a node; otherwise nothing changes |
| `CpControlPlane.ControlPlane.TransitionDeployment` | control-plane/internal/state/memory_store.go:84-99 | succeeds exactly for the pairs of the table, which are written out, and sets only the status of a deployment; otherwise nothing changes |
| `CpControlPlane.ControlPlane.Tick` | control-plane/internal/scheduler/scheduler.go:54-115 | the sort and the loop with its local copies of the nodes are one Schedule event of the state machine |
| `CpControlPlane.ControlPlane.CountPods` | control-plane/internal/reconciler/reconciler.go:76-89 | the loop's count is the number of active pods, its flag says whether a dead letter exists, its list is the cancellable pods |
| `CpControlPlane.ControlPlane.ReconcileNext` | control-plane/internal/reconciler/reconciler.go:58-137 | one deployment's turn, cancelling from the newest-first listing of its own cancellable pods |
| `CpControlPlane.ControlPlane.ReconcileDeployments` | control-plane/internal/reconciler/reconciler.go:51-138 | the loop over all deployments; each turn's listing is what it was when the pass began |
| `CpControlPlane.ControlPlane.ReschedulePodsFor` | control-plane/internal/reconciler/reconciler.go:182-247 | exactly the pods of that node are requeued, retried or given up; all others are unchanged |
| `CpControlPlane.ControlPlane.DetectUnhealthyNodes` | control-plane/internal/reconciler/reconciler.go:140-176 | the node-by-node walk makes exactly the HEALTHY nodes silent for longer than the timeout UNHEALTHY and the DRAINING ones REMOVED, and takes their pods off as if all were given up at once |
| `CpControlPlane.ControlPlane.ReconcilerTick` | control-plane/internal/reconciler/reconciler.go:51-247 | both passes are one Reconcile event of the state machine |
| `LbBalancer.RoundRobin.Next` | reverse-proxy-load-balancer/internal/balancer/round_robin.go:21-28 | none if and only if no backend of the pool is alive; otherwise one that is in the pool and alive, at the counter's residue among those; the counter advances, modulo 2^64, only then |
| `LbBalancer.WeightedRoundRobin.Next` | reverse-proxy-load-balancer/internal/balancer/weighted.go:22-48 | none if and only if no backend of the pool is alive; otherwise one that is in the pool and alive, found by the cumulative-weight walk in signed 64-bit arithmetic as the slot of the counter's position |
| `LbBalancer.SlotIsShare` | reverse-proxy-load-balancer/internal/balancer/weighted.go:37-47 | the loop always stops inside a backend's share of the positions, so the fallback is unreachable |
| `LbBalancer.PickIff` | reverse-proxy-load-balancer/internal/balancer/weighted.go:28-47 | a counter value goes to backend k if and only if its position lies between the weights before k and those up to k |
| `LbBalancer.ExactShare` | reverse-proxy-load-balancer/internal/balancer/weighted.go:28-47 | any W consecutive picks, from any counter value, choose each backend exactly Weight times |
| `LbBalancer.ShareBounds` | reverse-proxy-load-balancer/internal/balancer/weighted.go:28-47 | any n picks choose a backend between floor(n/W) and floor(n/W)+1 times its weight |
| `LbBalancer.EqualWeightsAreRoundRobin` | reverse-proxy-load-balancer/internal/balancer/round_robin.go:26-27 | with all weights one the weighted pick is the plain one |
| `LbBalancer.HugeTotalIsPlain` | reverse-proxy-load-balancer/internal/balancer/weighted.go:28-35 | a total weight from 2^63 up to 2^64 wraps below zero, and the weights no longer count |
| `LbProxy.Handler.ServeHTTP` | reverse-proxy-load-balancer/internal/proxy/handler.go:62-104 | each attempt asks the balancer again on the pool as it then is; exactly one head reaches the client; a method outside GET, HEAD and OPTIONS is forwarded at most once; counted retries are the forwards minus one, or the forwards when the request ends in 503; the last failure decides 502, 504 or 500 |
| `LbProxy.Handler.ServeAlone` | reverse-proxy-load-balancer/internal/proxy/handler.go:74-96 | a request nobody disturbs meets the healthy backends in turn, and if it may be repeated and the failing ones are at most maxRetries and not all, the client gets the answer of a healthy backend within one attempt more than there are failing ones |
| `LbProxy.EndedEndsWith` | reverse-proxy-load-balancer/internal/proxy/handler.go:74-104 | an ending after the rounds that were met is an ending of every course that goes that way |
| `LbProxy.Handler.ProxyOnce` | reverse-proxy-load-balancer/internal/proxy/handler.go:111-148 | an answer writes its own status once; a failure, a request that could not be built included, writes nothing |
| `LbProxy.EndingUnique` | reverse-proxy-load-balancer/internal/proxy/handler.go:74-104 | what the attempts meet leaves only one possible number of forwards, status and retry count |
| `LbProxy.EndingTable` | reverse-proxy-load-balancer/internal/proxy/handler.go:62-104 | the status is the answer's own, 503 without a backend, 504 after a timeout, 502 when unreachable and 500 when the request could not be built; more than one round happens only for GET, HEAD and OPTIONS, at most maxRetries times more, and only after failures; a failure reaches the client only when no round is left |
| `LbProxy.MetInTurn` | reverse-proxy-load-balancer/internal/balancer/round_robin.go:21-28 | what an undisturbed request met, attempt by attempt, is one backend after the other from the counter on, as long as the counter does not wrap |
| `LbProxy.AnsweredIff` | reverse-proxy-load-balancer/internal/proxy/handler.go:74-96 | the client gets a backend's answer if and only if one of the attempts it is entitled to meets a backend that answers |
| `LbProxy.FailoverSucceeds` | reverse-proxy-load-balancer/internal/proxy/handler.go:74-96 | from any counter value a repeatable request is answered, within one attempt more than there are failing backends, whenever these are at most maxRetries and not all |
| `LbHealth.Checker.constructor` | reverse-proxy-load-balancer/internal/health/checker.go:43-62 | thresholds below one become one; no probe is counted yet |
| `LbHealth.Checker.RecordSuccess` | reverse-proxy-load-balancer/internal/health/checker.go:123-145 | the counter stays the signed length of the name's current streak; the flag becomes alive exactly when that streak reaches its threshold, so a flag that was the latest verdict still is; other names are untouched |
| `LbHealth.Checker.RecordFailure` | reverse-proxy-load-balancer/internal/health/checker.go:147-169 | the same for a failed probe and the unhealthy threshold |
| `LbHealth.RunBackIsLongest` | reverse-proxy-load-balancer/internal/health/checker.go:123-158 | a streak is a run of equal probes that the probe before it breaks |
| `LbHealth.HysteresisRefines` | reverse-proxy-load-balancer/internal/health/checker.go:123-158 | for every probe history the signed counter is the current streak and the flag is the verdict of the latest streak that reached its threshold, alive before any did |
| `LbHealth.AliveIff` | reverse-proxy-load-balancer/internal/health/checker.go:123-158 | a backend counts as alive if and only if no streak has reached its threshold or the latest that did was of successes |
| `LbBackend.Backend.constructor` | reverse-proxy-load-balancer/internal/backend/backend.go:24-35 | a new object is alive, unused and has a weight of at least one |
| `LbBackend.Pool.Healthy` | reverse-proxy-load-balancer/internal/backend/pool.go:32-41 | a backend is in the result if and only if it is in the pool and alive, and the result goes through strictly increasing positions of the pool |
| `LbBackend.ConfigProvider.Refresh` | reverse-proxy-load-balancer/internal/backend/config_provider.go:91-111 | the pool becomes one object per accepted spec, in order; recognised specs keep theirs, the others get new, unused ones |
| `LbBackend.RefreshedPool` | reverse-proxy-load-balancer/internal/backend/config_provider.go:91-111 | the pool follows increasing positions of the announcement; a spec whose name, URL and weight are known keeps its object, any other gets one with the parsed URL and a weight of at least one, and a spec is skipped only if its URL does not parse |
| `LbBackend.SameObjectThroughout` | reverse-proxy-load-balancer/internal/backend/config_provider.go:91-111 | over any history of refreshes a stable spec announced every time has one and the same object |
| `LbBackend.NewObjectRecognisedIff` | reverse-proxy-load-balancer/internal/backend/config_provider.go:91-111 | a new object is recognised by the next refresh if and only if its spec has a weight of at least one and a URL that prints back as written |
| `LbInFlight.InFlightExact` | reverse-proxy-load-balancer/internal/proxy/handler.go:117-135 | in every interleaving of attempts and refreshes an object's active count is the attempts inside it, its totals are the attempts that got that far, and errors never exceed requests |
| `LbInFlight.QuietTotals` | reverse-proxy-load-balancer/internal/proxy/handler.go:117-135 | once all attempts have finished every active count is zero, the requests of an object are the attempts made at it and its errors those of them whose call failed |
| `LbInFlight.TotalsNeverFall` | reverse-proxy-load-balancer/internal/backend/backend.go:24-35 | no step, a refresh included, drops an object or sets a total back |

## Left out

- Control-plane atomicity: each API call and each whole tick is one step; interleavings inside a tick or a handler are not modelled.
- Agents are honest: they report only pods they picked up, and their heartbeats leave the capacity field empty, as the agent in control-plane/internal/worker/agent.go:164-174 does. Requests and capacities are non-negative, and CPU amounts are reals.
- CpTheorems.NoOvercommit: is about runs whose heartbeats carry no available amount; one that does overwrites Available with whatever it says.
- CpControlPlane.ControlPlane.TransitionPod: does not model the stamps ScheduledAt, StartedAt and FinishedAt or the error text, because nothing in the scheduler or reconciler reads them.
- CpControlPlane.ControlPlane.UpdatePodStatus: does not model the error text it passes on, for the same reason.
- CpControlPlane.ControlPlane.TransitionDeployment: does not model the UpdatedAt stamp, for the same reason.
- CpControlPlane.ControlPlane.CreateDeployment: stores only what the scheduler and reconciler use; names, commands, images, types, restart policies, labels and namespaces are not kept.
- CpControlPlane.ControlPlane.RegisterNode: does not keep the host name and address.
- Backoff.DelayExact: from attempt 63 on the float to integer conversion is taken to give the smallest integer, as on amd64; Go leaves it to the platform.
- LbBalancer.ExactShare: counters are unbounded in the counting results, so they describe stretches in which the 64-bit counter does not wrap; the total weight is below 2^63; from there up to 2^64 see HugeTotalIsPlain.
- LbProxy.FailoverSucceeds: is about attempts that meet the backends in turn, which ServeAlone derives when nobody else touches the pool or the balancer and replies do not change.
- LbProxy.Handler.ServeHTTP: is written with the round-robin balancer; what others do to the pool's list and the counter between attempts is a parameter, which covers the picks of the other strategies and changes of health.
- LbProxy.Handler.ProxyOnce: the backend's counters are in LbInFlight; response bodies and headers are not modelled.
- LbHealth.Checker.RecordSuccess: a counter survives the replacement of an object under the same name, so the flag is promised to be the latest verdict only if it was before the probe.
- The two-second wait of CancelJob and the contents of the cancel-function map: an executing job may end cancelled at any time instead.
- Drain on shutdown of the worker pool: workers may stop between jobs, and nothing is promised about what they leave in the channel.
- Job listing and deletion, HTTP routing, JSON, configuration, metrics, logging and the command-line tools.
- BoltStore: the same map operations behind a database.
- Services, label selectors and least-connections balancing: single-function claims.
- Identifier generation, clocks and subprocess execution are inputs: ids come from an unconstrained source, time only moves forward, and a run ends in any outcome.
