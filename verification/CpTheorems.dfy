/** What holds in every run of the cluster. */
module CpTheorems {
  import opened Options
  import opened CpModel
  import opened CpCluster
  import opened CpInvariant
  import opened CpSteps
  import opened CpReconcile
  import opened CpScheduling
  import opened Listing
  import Backoff

  // ----- capacity

  /** What these pods ask for together. */
  function Total(c: Cluster, pods: seq<string>): Resources {
    if pods == [] then NONE else Total(c, pods[..|pods| - 1]).Plus(RequestOf(c, pods[|pods| - 1]))
  }

  /** Distinct pods with a reservation each ask for no more than is reserved. */
  lemma {:induction false} TotalWithinReserved(c: Cluster, ledger: seq<Charge>, n: string, pods: seq<string>)
    requires Distinct(pods) && forall i :: 0 <= i < |pods| ==> HasCharge(ledger, n, pods[i])
    requires forall i :: 0 <= i < |ledger| ==> ledger[i].amount == RequestOf(c, ledger[i].pod) && ledger[i].amount.NonNegative()
    ensures Reserved(ledger, n).Covers(Total(c, pods))
    decreases |pods|
  {
    if pods == [] {
      ReservedNonNegative(ledger, n);
    } else {
      var front, p := pods[..|pods| - 1], pods[|pods| - 1];
      var rest := Settle(ledger, n, p);
      SettleKeepsOthers(ledger, n, p);
      forall i | 0 <= i < |front| ensures HasCharge(rest, n, front[i]) {
        assert front[i] == pods[i] && (n, front[i]) != (n, p);
      }
      forall i | 0 <= i < |rest| ensures rest[i].amount == RequestOf(c, rest[i].pod) && rest[i].amount.NonNegative() {
        var k :| 0 <= k < |ledger| && ledger[k] == rest[i];
      }
      TotalWithinReserved(c, rest, n, front);
      SettleTakesOne(ledger, n, p, RequestOf(c, p), n);
    }
  }

  /** The CPU these pods ask for together, and the memory. */
  function TotalCpu(c: Cluster, pods: seq<string>): real
    requires forall i :: 0 <= i < |pods| ==> pods[i] in c.pods && c.pods[pods[i]].deployment in c.deployments
  {
    if pods == [] then 0.0
    else TotalCpu(c, pods[..|pods| - 1]) + c.deployments[c.pods[pods[|pods| - 1]].deployment].resources.cpu
  }

  function TotalMemory(c: Cluster, pods: seq<string>): int
    requires forall i :: 0 <= i < |pods| ==> pods[i] in c.pods && c.pods[pods[i]].deployment in c.deployments
  {
    if pods == [] then 0
    else TotalMemory(c, pods[..|pods| - 1]) + c.deployments[c.pods[pods[|pods| - 1]].deployment].resources.memory
  }

  lemma {:induction false} TotalIs(c: Cluster, pods: seq<string>)
    requires forall i :: 0 <= i < |pods| ==> pods[i] in c.pods && c.pods[pods[i]].deployment in c.deployments
    ensures Total(c, pods).cpu == TotalCpu(c, pods) && Total(c, pods).memory == TotalMemory(c, pods)
  {
    if pods == [] {
    } else {
      TotalIs(c, pods[..|pods| - 1]);
    }
  }

  /** No node is ever overcommitted: its SCHEDULED and RUNNING pods together with what it has left
      never exceed its capacity; what is left is never negative, and is exactly the capacity
      minus the reservations not yet given back. */
  lemma NoOvercommit(c: Cluster, n: string, pods: seq<string>)
    requires Reachable(c) && n in c.nodes && Distinct(pods)
    requires forall i :: 0 <= i < |pods| ==>
               pods[i] in c.pods && c.pods[pods[i]].status in {Scheduled, Running} && c.pods[pods[i]].node == Some(n)
    ensures forall i :: 0 <= i < |pods| ==> c.pods[pods[i]].deployment in c.deployments
    ensures TotalCpu(c, pods) + c.nodes[n].available.cpu <= c.nodes[n].capacity.cpu && c.nodes[n].available.cpu >= 0.0
    ensures TotalMemory(c, pods) + c.nodes[n].available.memory <= c.nodes[n].capacity.memory && c.nodes[n].available.memory >= 0
    ensures c.nodes[n].available == c.nodes[n].capacity.Minus(Reserved(c.ledger, n))
  {
    ReachableInv(c);
    forall i | 0 <= i < |pods| ensures c.pods[pods[i]].deployment in c.deployments {
      assert PodInv(c, pods[i]);
    }
    TotalIs(c, pods);
    assert NodeInv(c, n);
    AmountsNonNegative(c);
    forall i | 0 <= i < |pods| ensures HasCharge(c.ledger, n, pods[i]) {
      assert PodInv(c, pods[i]);
    }
    forall i | 0 <= i < |c.ledger| ensures c.ledger[i].amount == RequestOf(c, c.ledger[i].pod) {
      assert ChargeInv(c, c.ledger[i]);
    }
    TotalWithinReserved(c, c.ledger, n, pods);
  }

  /** The clamp on release never bites: whichever node reports a RUNNING pod finished, late or not,
      what it gets back is exactly what was reserved on it for that pod. */
  lemma ClampNeverFires(c: Cluster, n: string, p: string, status: PodStatus, exitCode: Option<int>, output: string)
    requires Reachable(c) && Enabled(c, Tell(n, p, status, exitCode, output))
    requires p in c.pods && c.pods[p].status == Running && FreesCapacity(status)
    ensures n in c.nodes && c.nodes[n].capacity.Covers(c.nodes[n].available.Plus(RequestOf(c, p)))
    ensures Apply(c, Tell(n, p, status, exitCode, output)).nodes[n].available == c.nodes[n].available.Plus(RequestOf(c, p))
  {
    ReachableInv(c);
    FinalTellReleases(c, n, p, status, exitCode, output);
    ReleaseIsExact(c, n, p);
  }

  // ----- placement

  /** A placed pod names a registered node that is HEALTHY or DRAINING, and a PENDING one names none. */
  lemma PlacementConsistent(c: Cluster, p: string)
    requires Reachable(c) && p in c.pods
    ensures c.pods[p].status in {Scheduled, Running} ==>
              && c.pods[p].node.Some? && c.pods[p].node.value in c.nodes
              && c.nodes[c.pods[p].node.value].status in {Healthy, Draining}
    ensures c.pods[p].status == Pending ==> c.pods[p].node == None
    ensures c.pods[p].status != Retrying
  {
    ReachableInv(c);
    assert PodInv(c, p);
  }

  /** After a reconciler tick no node in service has been silent for longer than the timeout. */
  lemma NoSilentNodeInService(c: Cluster, e: Event, n: string)
    requires e.Reconcile? && n in Apply(c, e).nodes
    ensures var t := Apply(c, e);
            t.nodes[n].status in {Healthy, Draining} ==> t.clock - t.nodes[n].lastHeartbeat <= t.timeout
  {
  }

  // ----- replicas

  function SucceededPods(c: Cluster, d: string): set<string> {
    set p | p in c.pods && c.pods[p].deployment == d && c.pods[p].status == Succeeded
  }

  /** Whatever fails and is refilled, no more than Replicas pods hold a slot, so no more than that
      many ever succeed. */
  lemma ReplicaSafety(c: Cluster, d: string)
    requires Reachable(c) && d in c.deployments
    ensures |set p | p in c.pods && c.pods[p].deployment == d && c.pods[p].status !in {DeadLetter, Cancelled}| <= c.deployments[d].replicas
    ensures |SucceededPods(c, d)| <= c.deployments[d].replicas
  {
    ReachableInv(c);
    assert DeploymentInv(c, d);
    assert (set p | p in c.pods && c.pods[p].deployment == d && c.pods[p].status !in {DeadLetter, Cancelled}) == ActivePods(c, d);
    SubsetSize(SucceededPods(c, d), ActivePods(c, d));
  }

  // ----- retries

  /** A pod is given up exactly when it has used one attempt more than its budget. */
  lemma RetryBudget(c: Cluster, p: string)
    requires Reachable(c) && p in c.pods
    ensures c.pods[p].deployment in c.deployments
    ensures var allowed := c.deployments[c.pods[p].deployment].maxRetries;
            var budget := if allowed > 0 then allowed else 0;
            && (c.pods[p].status == DeadLetter <==> c.pods[p].attempt == budget + 1)
            && c.pods[p].attempt <= budget + 1
  {
    ReachableInv(c);
    assert PodInv(c, p);
  }

  // ----- how records evolve

  /** States no event leaves. FAILED is one: the reconciler never looks at a pod an agent reported
      FAILED. */
  predicate Final(status: PodStatus) {
    status == Succeeded || status == Failed || status == DeadLetter || status == Cancelled
  }

  ghost predicate PodStep(before: Pod, after: Pod) {
    && after.deployment == before.deployment && after.createdAt == before.createdAt
    && before.attempt <= after.attempt
    && (after.attempt == before.attempt ==> after.runAfter == before.runAfter)
    && (Final(before.status) ==> after.status == before.status && after.attempt == before.attempt)
  }

  ghost predicate DeploymentStep(before: Deployment, after: Deployment) {
    && after == before.(status := after.status)
    && (before.status == DeploymentCancelled ==> after.status == DeploymentCancelled)
    && (before.status == DeploymentDegraded ==> after.status in {DeploymentDegraded, DeploymentCancelled})
  }

  ghost predicate Evolves(c: Cluster, t: Cluster) {
    && c.clock <= t.clock
    && (forall p :: p in c.pods ==> p in t.pods && PodStep(c.pods[p], t.pods[p]))
    && (forall d :: d in c.deployments ==> d in t.deployments && DeploymentStep(c.deployments[d], t.deployments[d]))
    && (forall p :: p in t.pods && p !in c.pods && t.pods[p].deployment in c.deployments
          ==> c.deployments[t.pods[p].deployment].status != DeploymentCancelled)
  }

  lemma EvolutionComposes(a: Cluster, b: Cluster, c: Cluster)
    requires Evolves(a, b) && Evolves(b, c)
    ensures Evolves(a, c)
  {
    forall p | p in a.pods ensures p in c.pods && PodStep(a.pods[p], c.pods[p]) {
      assert PodStep(a.pods[p], b.pods[p]) && PodStep(b.pods[p], c.pods[p]);
    }
    forall d | d in a.deployments ensures d in c.deployments && DeploymentStep(a.deployments[d], c.deployments[d]) {
      assert DeploymentStep(a.deployments[d], b.deployments[d]) && DeploymentStep(b.deployments[d], c.deployments[d]);
    }
    forall p | p in c.pods && p !in a.pods && c.pods[p].deployment in a.deployments
      ensures a.deployments[c.pods[p].deployment].status != DeploymentCancelled
    {
      var d := c.pods[p].deployment;
      assert DeploymentStep(a.deployments[d], b.deployments[d]);
      if p in b.pods {
        assert PodStep(b.pods[p], c.pods[p]);
      }
    }
  }

  lemma CallEvolves(c: Cluster, e: Event)
    requires !e.Schedule? && !e.Reconcile? && !e.Tell?
    ensures Evolves(c, Apply(c, e))
  {
    if e.Submit? {
      FirstUnusedIsUnused(e.ids, c.deployments.Keys);
    }
    CallKeepsPods(c, e);
  }

  lemma TellEvolves(c: Cluster, e: Event)
    requires e.Tell? && Enabled(c, e)
    ensures Evolves(c, Apply(c, e))
  {
    ReportMovesOne(c, e.n, e.p, e.status, e.exitCode, e.output);
  }

  /** A report touches the record of the pod it is about and nothing else that evolves. */
  lemma ReportMovesOne(c: Cluster, n: string, p: string, status: PodStatus, exitCode: Option<int>, output: string)
    requires Reportable(status)
    ensures var t := Report(c, n, p, status, exitCode, output);
            && t.clock == c.clock && t.deployments == c.deployments && t.pods.Keys == c.pods.Keys
            && (forall q :: q in c.pods && q != p ==> t.pods[q] == c.pods[q])
            && (p in c.pods ==> PodStep(c.pods[p], t.pods[p]) && t.pods[p].attempt == c.pods[p].attempt)
  {
    if p in c.pods {
      var pod := c.pods[p];
      var told := pod.(exitCode := exitCode, output := output);
      var after := if PodAllowed(pod.status, status) then told.(status := status) else told;
      assert Report(c, n, p, status, exitCode, output).pods == c.pods[p := told][p := after];
    }
  }

  lemma TickStepEvolves(c: Cluster, t: Cluster)
    requires TickStep(c, t)
    ensures Evolves(c, t)
  {
    forall p | p in c.pods ensures p in t.pods && PodStep(c.pods[p], t.pods[p]) {
      assert Placed(c.pods[p], t.pods[p]);
    }
  }

  lemma ScheduleEvolves(c: Cluster, e: Event)
    requires Inv(c) && e.Schedule?
    ensures Evolves(c, Apply(c, e))
  {
    ScheduleIsTickStep(c, e.pending, e.order);
    TickStepEvolves(c, Apply(c, e));
  }

  lemma ScheduleIsTickStep(c: Cluster, pending: seq<string>, order: seq<string>)
    requires Inv(c)
    ensures TickStep(c, ScheduleAll(c, pending, order))
  {
    RequestsFromInv(c);
    TailIsTickStep(c, pending, order, 0);
    assert pending[..0] == [];
  }

  /** A pass never takes a deployment out of DEGRADED, since only a dead letter put it there. */
  lemma StatusSteps(c: Cluster, d: string, newest: seq<string>, ids: IdSource)
    requires Inv(c) && d in c.deployments && Enumerates(newest, Cancellable(c, d))
    ensures d in ReconcileOne(c, d, newest, ids).deployments
    ensures DeploymentStep(c.deployments[d], ReconcileOne(c, d, newest, ids).deployments[d])
  {
    assert DeploymentInv(c, d);
    ReconcileOneLocal(c, d, newest, ids);
    if c.deployments[d].status == DeploymentDegraded {
      SamePods(c, Activated(c, d), d);
      ResizeResizes(c, d, newest, ids);
    }
  }

  lemma ReconcileOneKeeps(c: Cluster, d: string, newest: seq<string>, ids: IdSource)
    requires d in c.deployments ==> Enumerates(newest, Cancellable(c, d))
    ensures PodsKeptOrCancelled(c, ReconcileOne(c, d, newest, ids))
  {
    if d in c.deployments && c.deployments[d].status != DeploymentCancelled {
      PodsFromResize(c, d, newest, ids);
      SamePods(c, Activated(c, d), d);
      ResizeResizes(Activated(c, d), d, newest, ids);
    }
  }

  lemma LocalChangeEvolves(c: Cluster, t: Cluster, d: string)
    requires RestKept(c, t, d) && PodsLocal(c, t, d) && PodsKeptOrCancelled(c, t)
    requires d in c.deployments ==> DeploymentStep(c.deployments[d], t.deployments[d])
    requires d in c.deployments && c.deployments[d].status == DeploymentCancelled ==> t.pods == c.pods
    ensures Evolves(c, t)
  {
    forall p | p in c.pods ensures p in t.pods && PodStep(c.pods[p], t.pods[p]) {
      assert KeptOrCancelled(c.pods[p], t.pods[p]);
    }
  }

  lemma ReconcileOneEvolves(c: Cluster, d: string, newest: seq<string>, ids: IdSource)
    requires Inv(c) && (d in c.deployments ==> Enumerates(newest, Cancellable(c, d)))
    ensures Evolves(c, ReconcileOne(c, d, newest, ids))
  {
    ReconcileOneLocal(c, d, newest, ids);
    ReconcileOneKeeps(c, d, newest, ids);
    if d in c.deployments {
      StatusSteps(c, d, newest, ids);
    }
    LocalChangeEvolves(c, ReconcileOne(c, d, newest, ids), d);
  }

  lemma {:induction false} ReconcileAllEvolves(c: Cluster, order: seq<string>, newest: map<string, seq<string>>, ids: IdSource)
    requires Inv(c) && Distinct(order) && Listed(c, newest, order)
    ensures Evolves(c, ReconcileAll(c, order, newest, ids))
    ensures PodsKeptOrCancelled(c, ReconcileAll(c, order, newest, ids))
    ensures ReconcileAll(c, order, newest, ids).clock == c.clock
    decreases |order|
  {
    if order == [] {
    } else {
      var front, d := order[..|order| - 1], order[|order| - 1];
      assert d !in front;
      KeepsReconcileAll(c, front, newest, ids);
      ReconcileAllEvolves(c, front, newest, ids);
      var b := ReconcileAll(c, front, newest, ids);
      ReconcileOneEvolves(b, d, newest[d], ids);
      ReconcileOneKeeps(b, d, newest[d], ids);
      ReconcileOneLocal(b, d, newest[d], ids);
      EvolutionComposes(c, b, ReconcileOne(b, d, newest[d], ids));
      KeptComposes(c, b, ReconcileOne(b, d, newest[d], ids));
    }
  }

  lemma KeptComposes(a: Cluster, b: Cluster, c: Cluster)
    requires PodsKeptOrCancelled(a, b) && PodsKeptOrCancelled(b, c)
    ensures PodsKeptOrCancelled(a, c)
  {
    forall p | p in a.pods ensures p in c.pods && KeptOrCancelled(a.pods[p], c.pods[p]) {
      assert KeptOrCancelled(a.pods[p], b.pods[p]) && KeptOrCancelled(b.pods[p], c.pods[p]);
    }
  }

  lemma LossEvolves(c: Cluster)
    ensures Evolves(c, DetectLost(c))
  {
    forall p | p in c.pods ensures PodStep(c.pods[p], AfterLoss(c, c.pods[p])) {
    }
  }

  lemma StepEvolves(c: Cluster, e: Event)
    requires Inv(c) && Enabled(c, e)
    ensures Evolves(c, Apply(c, e))
  {
    if e.Schedule? {
      ScheduleEvolves(c, e);
    } else if e.Reconcile? {
      EnabledListed(c, e);
      ReconcileAllEvolves(c, e.deployments, e.newest, e.source);
      var b := ReconcileAll(c, e.deployments, e.newest, e.source);
      LossEvolves(b);
      EvolutionComposes(c, b, DetectLost(b));
    } else if e.Tell? {
      TellEvolves(c, e);
    } else {
      CallEvolves(c, e);
    }
  }

  lemma EnabledListed(c: Cluster, e: Event)
    requires e.Reconcile? && Enabled(c, e)
    ensures Distinct(e.deployments) && Listed(c, e.newest, e.deployments)
  {
    forall i | 0 <= i < |e.deployments|
      ensures e.deployments[i] in e.newest && Enumerates(e.newest[e.deployments[i]], Cancellable(c, e.deployments[i]))
    {
      assert e.deployments[i] in e.deployments;
    }
  }

  lemma {:induction false} RunEvolves(c: Cluster, es: seq<Event>)
    requires Inv(c) && Runs(c, es)
    ensures Evolves(c, After(c, es))
    decreases |es|
  {
    if es == [] {
    } else {
      StepEvolves(c, es[0]);
      StepKeepsInv(c, es[0]);
      RunEvolves(Apply(c, es[0]), es[1..]);
      EvolutionComposes(c, Apply(c, es[0]), After(c, es));
    }
  }

  /** Over any run a finished pod stays as it ended. That holds of FAILED too, which the pod model
      describes as a brief state the reconciler resolves on its next tick: it never does, so the
      replica slot stays taken. */
  lemma FinishedForever(c: Cluster, es: seq<Event>, p: string)
    requires Reachable(c) && Runs(c, es) && p in c.pods && c.pods[p].status in {Succeeded, Failed, DeadLetter, Cancelled}
    ensures p in After(c, es).pods && After(c, es).pods[p].status == c.pods[p].status
  {
    ReachableInv(c);
    RunEvolves(c, es);
    assert PodStep(c.pods[p], After(c, es).pods[p]);
  }

  /** A cancelled deployment stays cancelled and never gains a pod. */
  lemma CancelledGainsNothing(c: Cluster, es: seq<Event>, d: string)
    requires Reachable(c) && Runs(c, es) && d in c.deployments && c.deployments[d].status == DeploymentCancelled
    ensures d in After(c, es).deployments && After(c, es).deployments[d].status == DeploymentCancelled
    ensures PodsOf(After(c, es), d) == PodsOf(c, d)
  {
    ReachableInv(c);
    RunEvolves(c, es);
    var t := After(c, es);
    assert DeploymentStep(c.deployments[d], t.deployments[d]);
    forall p | p in PodsOf(c, d) ensures p in PodsOf(t, d) {
      assert PodStep(c.pods[p], t.pods[p]);
    }
    forall p | p in PodsOf(t, d) ensures p in PodsOf(c, d) {
      if p in c.pods {
        assert PodStep(c.pods[p], t.pods[p]);
      }
    }
  }

  /** DEGRADED is for good: contrary to the reconciler's notes it never turns ACTIVE again, because
      dead letters never go away. */
  lemma DegradedForever(c: Cluster, es: seq<Event>, d: string)
    requires Reachable(c) && Runs(c, es) && d in c.deployments && c.deployments[d].status == DeploymentDegraded
    ensures d in After(c, es).deployments
    ensures After(c, es).deployments[d].status in {DeploymentDegraded, DeploymentCancelled}
  {
    ReachableInv(c);
    RunEvolves(c, es);
    assert DeploymentStep(c.deployments[d], After(c, es).deployments[d]);
  }

  // ----- what a reconciler tick does to a pod

  /** With no more active pods than replicas, a deployment's turn leaves every existing pod alone. */
  lemma TurnKeepsPods(c: Cluster, d: string, newest: seq<string>, ids: IdSource)
    requires Inv(c)
    ensures forall p :: p in c.pods ==> p in ReconcileOne(c, d, newest, ids).pods && ReconcileOne(c, d, newest, ids).pods[p] == c.pods[p]
  {
    if d in c.deployments && c.deployments[d].status != DeploymentCancelled {
      var c1 := Activated(c, d);
      assert DeploymentInv(c, d);
      PodsFromResize(c, d, newest, ids);
      SamePods(c, c1, d);
      ResizeUpKeepsPods(c1, d, newest, ids);
    }
  }

  lemma ResizeUpKeepsPods(c: Cluster, d: string, newest: seq<string>, ids: IdSource)
    requires d in c.deployments && |ActivePods(c, d)| <= c.deployments[d].replicas
    ensures forall p :: p in c.pods ==> p in Resize(c, d, newest, ids).pods && Resize(c, d, newest, ids).pods[p] == c.pods[p]
  {
    if |ActivePods(c, d)| < c.deployments[d].replicas {
      CreateResizes(c, d, c.deployments[d].replicas - |ActivePods(c, d)|, ids);
    }
  }

  lemma {:induction false} PassKeepsPods(c: Cluster, order: seq<string>, newest: map<string, seq<string>>, ids: IdSource)
    requires Inv(c) && Distinct(order) && Listed(c, newest, order)
    ensures forall p :: p in c.pods ==> p in ReconcileAll(c, order, newest, ids).pods && ReconcileAll(c, order, newest, ids).pods[p] == c.pods[p]
    ensures ReconcileAll(c, order, newest, ids) == c.(pods := ReconcileAll(c, order, newest, ids).pods,
                                                       deployments := ReconcileAll(c, order, newest, ids).deployments)
    decreases |order|
  {
    if order == [] {
    } else {
      var front, d := order[..|order| - 1], order[|order| - 1];
      assert d !in front;
      PassKeepsPods(c, front, newest, ids);
      KeepsReconcileAll(c, front, newest, ids);
      var b := ReconcileAll(c, front, newest, ids);
      TurnKeepsPods(b, d, newest[d], ids);
      ReconcileOneLocal(b, d, newest[d], ids);
    }
  }

  /** In a state events lead to, a whole tick changes an existing pod only by losing its node. */
  lemma TickMovesPod(c: Cluster, e: Event, p: string)
    requires Inv(c) && e.Reconcile? && Enabled(c, e) && p in c.pods
    ensures p in Apply(c, e).pods && Apply(c, e).pods[p] == AfterLoss(c, c.pods[p])
    ensures Apply(c, e).clock == c.clock
    ensures forall n :: n in c.nodes ==> n in Apply(c, e).nodes && Apply(c, e).nodes[n] == Marked(c.nodes[n], c.clock, c.timeout)
  {
    EnabledListed(c, e);
    PassKeepsPods(c, e.deployments, e.newest, e.source);
    ReconcileAllEvolves(c, e.deployments, e.newest, e.source);
    SameRetries(c, ReconcileAll(c, e.deployments, e.newest, e.source), p);
  }

  /** A pod taken off a lost node leaves its reservation behind, although the scheduler's notes
      promise that the reconciler gives it back: after the tick the node has no more left than
      before, which is less than its capacity by at least that request. */
  lemma LossLeaksReservation(c: Cluster, e: Event, p: string)
    requires Reachable(c) && e.Reconcile? && Enabled(c, e)
    requires p in c.pods && Assigned(c.pods[p].status) && OnLostNode(c, c.pods[p])
    ensures var n, t := c.pods[p].node.value, Apply(c, e);
            && p in t.pods && !Assigned(t.pods[p].status)
            && n in t.nodes && t.nodes[n].available == c.nodes[n].available
            && t.nodes[n].capacity.Covers(t.nodes[n].available.Plus(RequestOf(c, p)))
  {
    ReachableInv(c);
    TickMovesPod(c, e, p);
    assert PodInv(c, p);
    ReleaseIsExact(c, c.pods[p].node.value, p);
  }

  /** A pod lost before it started goes back with no attempt used and no gate set. */
  lemma UnstartedLossIsFree(c: Cluster, e: Event, p: string)
    requires Reachable(c) && e.Reconcile? && Enabled(c, e)
    requires p in c.pods && c.pods[p].status == Scheduled && OnLostNode(c, c.pods[p])
    ensures p in Apply(c, e).pods && Apply(c, e).pods[p] == c.pods[p].(status := Pending, node := None)
  {
    ReachableInv(c);
    TickMovesPod(c, e, p);
  }

  // ----- attempts are losses

  /** The pod was RUNNING on a node that this event gives up. */
  ghost predicate LosesRunning(c: Cluster, e: Event, p: string) {
    e.Reconcile? && p in c.pods && c.pods[p].status == Running && OnLostNode(c, c.pods[p])
  }

  /** How often, in the run, the pod was lost while RUNNING. */
  ghost function Losses(c: Cluster, es: seq<Event>, p: string): nat
    requires Runs(c, es)
    decreases |es|
  {
    if es == [] then 0 else (if LosesRunning(c, es[0], p) then 1 else 0) + Losses(Apply(c, es[0]), es[1..], p)
  }

  lemma AttemptStep(c: Cluster, e: Event, p: string)
    requires Inv(c) && Enabled(c, e) && p in c.pods
    ensures p in Apply(c, e).pods
    ensures Apply(c, e).pods[p].attempt == c.pods[p].attempt + if LosesRunning(c, e, p) then 1 else 0
  {
    if e.Reconcile? {
      TickMovesPod(c, e, p);
      LossCostsAttempt(c, c.pods[p]);
    } else {
      AttemptKept(c, e, p);
    }
  }

  lemma LossCostsAttempt(c: Cluster, pod: Pod)
    ensures AfterLoss(c, pod).attempt == pod.attempt + if pod.status == Running && OnLostNode(c, pod) then 1 else 0
  {
  }

  lemma AttemptKept(c: Cluster, e: Event, p: string)
    requires Inv(c) && Enabled(c, e) && !e.Reconcile? && p in c.pods
    ensures p in Apply(c, e).pods && Apply(c, e).pods[p].attempt == c.pods[p].attempt
  {
    if e.Schedule? {
      ScheduleIsTickStep(c, e.pending, e.order);
      TickStepKeepsAttempt(c, Apply(c, e), p);
    } else if e.Tell? {
      ReportMovesOne(c, e.n, e.p, e.status, e.exitCode, e.output);
    } else {
      CallKeepsPods(c, e);
    }
  }

  lemma TickStepKeepsAttempt(c: Cluster, t: Cluster, p: string)
    requires TickStep(c, t) && p in c.pods
    ensures p in t.pods && t.pods[p].attempt == c.pods[p].attempt
  {
    assert Placed(c.pods[p], t.pods[p]);
  }

  lemma CallKeepsPods(c: Cluster, e: Event)
    requires !e.Schedule? && !e.Reconcile? && !e.Tell?
    ensures Apply(c, e).pods == c.pods
  {
  }

  /** Over any run the attempts a pod uses are exactly the times it was lost while RUNNING; losses
      while SCHEDULED, reports and everything else cost none. */
  lemma {:induction false} AttemptsAreLosses(c: Cluster, es: seq<Event>, p: string)
    requires Inv(c) && Runs(c, es) && p in c.pods
    ensures p in After(c, es).pods
    ensures After(c, es).pods[p].attempt == c.pods[p].attempt + Losses(c, es, p)
    decreases |es|
  {
    if es == [] {
    } else {
      AttemptStep(c, es[0], p);
      StepKeepsInv(c, es[0]);
      AttemptsAreLosses(Apply(c, es[0]), es[1..], p);
    }
  }

  // ----- spacing of retries

  lemma LossSetsGate(c: Cluster, pod: Pod)
    requires AfterLoss(c, pod).attempt > pod.attempt && AfterLoss(c, pod).status == Pending
    ensures var after := AfterLoss(c, pod);
            && after.attempt == pod.attempt + 1 && after.attempt <= MaxRetries(c, pod.deployment)
            && GateSet(after, c.clock)
  {
  }

  /** The pod waits out the backoff for its attempt, counted from `since`. */
  predicate GateSet(pod: Pod, since: Time) {
    pod.runAfter == Some(since + Backoff.Delay(pod.attempt))
  }

  /** The reconciler requeued the pod at this tick, at the cost of an attempt. */
  ghost predicate Requeues(c: Cluster, e: Event, p: string) {
    && e.Reconcile? && Enabled(c, e) && p in c.pods && p in Apply(c, e).pods
    && Apply(c, e).pods[p].attempt > c.pods[p].attempt && Apply(c, e).pods[p].status == Pending
  }

  /** Such a pod carries the gate computed for its new attempt. */
  lemma RequeueSetsGate(c: Cluster, e: Event, p: string)
    requires Inv(c) && Requeues(c, e, p)
    ensures p in c.pods && p in Apply(c, e).pods
    ensures var pod := Apply(c, e).pods[p];
            && Apply(c, e).clock == c.clock && pod.attempt == c.pods[p].attempt + 1
            && GateSet(pod, c.clock) && pod.attempt <= MaxRetries(c, c.pods[p].deployment)
  {
    TickMovesPod(c, e, p);
    LossSetsGate(c, c.pods[p]);
  }

  lemma SameRetries(c: Cluster, t: Cluster, p: string)
    requires Inv(c) && Evolves(c, t) && p in c.pods
    ensures MaxRetries(t, c.pods[p].deployment) == MaxRetries(c, c.pods[p].deployment)
  {
    assert PodInv(c, p);
    assert DeploymentStep(c.deployments[c.pods[p].deployment], t.deployments[c.pods[p].deployment]);
  }

  /** While a pod's attempt does not change, neither does its gate, and it is not placed before it. */
  lemma GateKept(c: Cluster, es: seq<Event>, p: string)
    requires Inv(c) && Runs(c, es) && p in c.pods
    ensures var t := After(c, es);
            p in t.pods && (Assigned(t.pods[p].status) && t.pods[p].attempt == c.pods[p].attempt && c.pods[p].runAfter.Some?
                            ==> t.clock >= c.pods[p].runAfter.value)
  {
    RunKeepsInv(c, es);
    RunEvolves(c, es);
    assert PodStep(c.pods[p], After(c, es).pods[p]);
    assert PodInv(After(c, es), p);
  }

  /** A pod requeued at time t is not placed again before t plus the promised backoff, in any run,
      if its deployment allows at most 33 retries. */
  lemma RetrySpacing(c: Cluster, e: Event, es: seq<Event>, p: string)
    requires Reachable(c) && Requeues(c, e, p) && Runs(Apply(c, e), es)
    requires MaxRetries(c, c.pods[p].deployment) <= 33
    ensures var t := After(Apply(c, e), es);
            p in t.pods && (Assigned(t.pods[p].status) && t.pods[p].attempt == Apply(c, e).pods[p].attempt
                            ==> t.clock >= c.clock + Backoff.Intended(t.pods[p].attempt))
  {
    ReachableInv(c);
    RequeueSetsGate(c, e, p);
    StepKeepsInv(c, e);
    GateKept(Apply(c, e), es, p);
    Backoff.DelayWithinRange(Apply(c, e).pods[p].attempt);
  }
}
