/** What each call and each tick writes, field by field, and what a client's request or an operator's
    decision comes to over whole runs. Nothing here is stated through the transition tables or the state
    machine's own functions. */
module CpRecords {
  import opened Options
  import opened CpModel
  import opened CpCluster
  import opened CpInvariant
  import opened CpSteps
  import opened CpReconcile
  import opened CpScheduling
  import opened CpTheorems
  import CpExact
  import opened Listing
  import Backoff

  // ----- deployments

  /** The first of the ids drawn that is not taken. */
  ghost predicate FirstFree(ids: seq<string>, used: set<string>, id: string) {
    exists i :: 0 <= i < |ids| && ids[i] == id && id !in used && forall j :: 0 <= j < i ==> ids[j] in used
  }

  lemma {:induction false} FirstUnusedIs(ids: seq<string>, used: set<string>)
    ensures FirstUnused(ids, used).Some? ==> FirstFree(ids, used, FirstUnused(ids, used).value)
    ensures FirstUnused(ids, used) == None ==> forall i :: 0 <= i < |ids| ==> ids[i] in used
  {
    if ids == [] {
    } else if ids[0] !in used {
      assert ids[0] == FirstUnused(ids, used).value;
    } else {
      FirstUnusedIs(ids[1..], used);
      if FirstUnused(ids, used).Some? {
        var id := FirstUnused(ids, used).value;
        var i :| 0 <= i < |ids[1..]| && ids[1..][i] == id && id !in used && forall j :: 0 <= j < i ==> ids[1..][j] in used;
        assert ids[i + 1] == id;
        assert forall j :: 0 < j < i + 1 ==> ids[j] == ids[1..][j - 1];
      }
      assert forall i :: 0 < i < |ids| ==> ids[i] == ids[1..][i - 1];
    }
  }

  /** One id at most is the first free one. */
  lemma FirstFreeUnique(ids: seq<string>, used: set<string>, a: string, b: string)
    requires FirstFree(ids, used, a) && FirstFree(ids, used, b)
    ensures a == b
  {
  }

  /** A deployment is stored under the first free id with at least one replica, and over every further run
      keeps its size, its retries and its request; never more pods than that hold a slot of it. */
  lemma SubmittedDeployment(c: Cluster, ids: seq<string>, replicas: int, maxRetries: int, resources: Resources, id: string, es: seq<Event>)
    requires Inv(c) && Enabled(c, Submit(ids, replicas, maxRetries, resources)) && FirstFree(ids, c.deployments.Keys, id)
    requires Runs(Apply(c, Submit(ids, replicas, maxRetries, resources)), es)
    ensures Apply(c, Submit(ids, replicas, maxRetries, resources)).deployments
            == c.deployments[id := Deployment(if replicas <= 0 then 1 else replicas, maxRetries, resources, DeploymentPending)]
    ensures var t := After(Apply(c, Submit(ids, replicas, maxRetries, resources)), es);
            && id in t.deployments && t.deployments[id].replicas == (if replicas <= 0 then 1 else replicas)
            && t.deployments[id].maxRetries == maxRetries && t.deployments[id].resources == resources
            && |set p | p in t.pods && t.pods[p].deployment == id && t.pods[p].status !in {DeadLetter, Cancelled}|
               <= (if replicas <= 0 then 1 else replicas)
  {
    SubmitWrites(c, ids, replicas, maxRetries, resources, id);
    StepKeepsInv(c, Submit(ids, replicas, maxRetries, resources));
    DeploymentKept(Apply(c, Submit(ids, replicas, maxRetries, resources)), id, es);
  }

  lemma SubmitWrites(c: Cluster, ids: seq<string>, replicas: int, maxRetries: int, resources: Resources, id: string)
    requires Enabled(c, Submit(ids, replicas, maxRetries, resources)) && FirstFree(ids, c.deployments.Keys, id)
    ensures Apply(c, Submit(ids, replicas, maxRetries, resources)).deployments
            == c.deployments[id := Deployment(if replicas <= 0 then 1 else replicas, maxRetries, resources, DeploymentPending)]
  {
    FirstUnusedIs(ids, c.deployments.Keys);
    assert FirstUnused(ids, c.deployments.Keys).Some?;
    FirstFreeUnique(ids, c.deployments.Keys, id, FirstUnused(ids, c.deployments.Keys).value);
  }

  lemma DeploymentKept(c: Cluster, d: string, es: seq<Event>)
    requires Inv(c) && Runs(c, es) && d in c.deployments
    ensures var t := After(c, es);
            && d in t.deployments && t.deployments[d].replicas == c.deployments[d].replicas
            && t.deployments[d].maxRetries == c.deployments[d].maxRetries && t.deployments[d].resources == c.deployments[d].resources
            && |set p | p in t.pods && t.pods[p].deployment == d && t.pods[p].status !in {DeadLetter, Cancelled}|
               <= c.deployments[d].replicas
  {
    RunKeepsInv(c, es);
    RunEvolves(c, es);
    var t := After(c, es);
    assert DeploymentStep(c.deployments[d], t.deployments[d]);
    assert DeploymentInv(t, d);
    assert (set p | p in t.pods && t.pods[p].deployment == d && t.pods[p].status !in {DeadLetter, Cancelled}) == ActivePods(t, d);
  }

  /** A deployment that is withdrawn is CANCELLED from then on, and over every further run its pods are
      those it had. */
  lemma WithdrawnDeployment(c: Cluster, d: string, es: seq<Event>)
    requires Reachable(c) && d in c.deployments && Runs(Apply(c, Withdraw(d)), es)
    ensures Apply(c, Withdraw(d)) == c.(deployments := c.deployments[d := c.deployments[d].(status := DeploymentCancelled)])
    ensures var t := After(Apply(c, Withdraw(d)), es);
            && d in t.deployments && t.deployments[d].status == DeploymentCancelled
            && (forall p :: p in t.pods && t.pods[p].deployment == d ==> p in c.pods && c.pods[p].deployment == d)
  {
    var b := Apply(c, Withdraw(d));
    if c.deployments[d].status == DeploymentCancelled {
      assert c.deployments[d := c.deployments[d].(status := DeploymentCancelled)] == c.deployments;
    }
    ReachableInv(c);
    StepKeepsInv(c, Withdraw(d));
    RunEvolves(b, es);
    var t := After(b, es);
    assert DeploymentStep(b.deployments[d], t.deployments[d]);
    forall p | p in t.pods && t.pods[p].deployment == d ensures p in c.pods && c.pods[p].deployment == d {
      if p in b.pods {
        assert PodStep(b.pods[p], t.pods[p]);
      }
    }
  }

  // ----- nodes

  /** A node joins HEALTHY, empty and with its whole capacity available. */
  lemma JoinWrites(c: Cluster, ids: seq<string>, capacity: Resources, maxConcurrent: int, id: string)
    requires FirstFree(ids, c.nodes.Keys, id)
    ensures Apply(c, Join(ids, capacity, maxConcurrent)).nodes
            == c.nodes[id := Node(Healthy, capacity, capacity, 0, maxConcurrent, c.clock, c.clock)]
  {
    FirstUnusedIs(ids, c.nodes.Keys);
    assert FirstUnused(ids, c.nodes.Keys).Some?;
    FirstFreeUnique(ids, c.nodes.Keys, id, FirstUnused(ids, c.nodes.Keys).value);
  }

  /** A heartbeat of a known node: it is heard of now, runs as many as it says, and an UNHEALTHY one is
      HEALTHY again. Nothing else changes. */
  lemma BeatWrites(c: Cluster, n: string, running: int)
    requires n in c.nodes
    ensures Apply(c, Beat(n, running))
            == c.(nodes := c.nodes[n := c.nodes[n].(lastHeartbeat := c.clock, running := running,
                                                    status := if c.nodes[n].status == Unhealthy then Healthy else c.nodes[n].status)])
  {
    assert c.nodes[n].(lastHeartbeat := c.clock, running := running, available := c.nodes[n].available)
        == c.nodes[n].(lastHeartbeat := c.clock, running := running);
  }

  /** Only a HEALTHY node starts draining. */
  lemma DrainWrites(c: Cluster, n: string)
    requires n in c.nodes
    ensures Apply(c, Drain(n)) == if c.nodes[n].status == Healthy then c.(nodes := c.nodes[n := c.nodes[n].(status := Draining)]) else c
  {
  }

  /** A tick gives up exactly the nodes silent for longer than the timeout: a HEALTHY one becomes UNHEALTHY,
      a DRAINING one REMOVED. Every other record is unchanged. */
  lemma TickWritesNode(c: Cluster, e: Event, n: string)
    requires Inv(c) && e.Reconcile? && Enabled(c, e) && n in c.nodes
    ensures Apply(c, e).nodes.Keys == c.nodes.Keys
    ensures Apply(c, e).nodes[n]
            == if c.nodes[n].status == Healthy && c.clock - c.nodes[n].lastHeartbeat > c.timeout
               then c.nodes[n].(status := Unhealthy)
               else if c.nodes[n].status == Draining && c.clock - c.nodes[n].lastHeartbeat > c.timeout
               then c.nodes[n].(status := Removed)
               else c.nodes[n]
  {
    EnabledListed(c, e);
    PassKeepsPods(c, e.deployments, e.newest, e.source);
  }

  /** What no event does to a node: make it forget its capacity, disappear, or come back once REMOVED. */
  predicate NodeStep(before: Node, after: Node) {
    && after.capacity == before.capacity && after.maxConcurrent == before.maxConcurrent && after.registeredAt == before.registeredAt
    && (before.status == Removed ==> after.status == Removed)
  }

  lemma NodeStepOf(c: Cluster, e: Event, n: string)
    requires Inv(c) && Enabled(c, e) && n in c.nodes
    ensures n in Apply(c, e).nodes && NodeStep(c.nodes[n], Apply(c, e).nodes[n])
  {
    if e.Reconcile? {
      TickWritesNode(c, e, n);
    } else if e.Schedule? {
      ScheduleIsTickStep(c, e.pending, e.order);
      assert NodeShrunk(c.nodes[n], Apply(c, e).nodes[n]);
    } else {
      CallNodeStep(c, e, n);
    }
  }

  lemma CallNodeStep(c: Cluster, e: Event, n: string)
    requires !e.Reconcile? && !e.Schedule? && n in c.nodes
    ensures n in Apply(c, e).nodes && NodeStep(c.nodes[n], Apply(c, e).nodes[n])
  {
    if e.Join? {
      FirstUnusedIsUnused(e.ids, c.nodes.Keys);
    } else if e.Beat? && e.n == n {
      BeatWrites(c, n, e.running);
    }
  }

  /** A REMOVED node stays REMOVED over every run, and no pod is ever SCHEDULED or RUNNING on it again. */
  lemma {:induction false} RemovedForever(c: Cluster, es: seq<Event>, n: string)
    requires Inv(c) && Runs(c, es) && n in c.nodes && c.nodes[n].status == Removed
    ensures n in After(c, es).nodes && After(c, es).nodes[n].status == Removed
    ensures forall p :: p in After(c, es).pods && After(c, es).pods[p].status in {Scheduled, Running}
                        ==> After(c, es).pods[p].node != Some(n)
    decreases |es|
  {
    if es == [] {
      forall p | p in c.pods && c.pods[p].status in {Scheduled, Running} ensures c.pods[p].node != Some(n) {
        assert PodInv(c, p);
      }
    } else {
      NodeStepOf(c, es[0], n);
      StepKeepsInv(c, es[0]);
      RemovedForever(Apply(c, es[0]), es[1..], n);
    }
  }

  // ----- pods

  /** The moves an agent's report can make. */
  predicate ReportMoves(before: PodStatus, told: PodStatus) {
    (before, told) in {(Pending, Cancelled), (Scheduled, Running), (Scheduled, Cancelled),
                       (Running, Succeeded), (Running, Failed), (Running, Cancelled)}
  }

  /** The report ends a run, so that what the pod had reserved comes back. */
  predicate ReportEnds(before: PodStatus, told: PodStatus) {
    before == Running && (told == Succeeded || told == Failed || told == Cancelled)
  }

  /** A report writes exit code and output in any case, and the status if the move is one a report can
      make. If it ends a run, the reporting node runs one pod fewer and gets back just what the pod asked
      for; otherwise no node changes. */
  lemma TellWrites(c: Cluster, n: string, p: string, status: PodStatus, exitCode: Option<int>, output: string)
    requires Inv(c) && Enabled(c, Tell(n, p, status, exitCode, output))
    ensures n in c.nodes && p in c.pods && c.pods[p].deployment in c.deployments
    ensures var t, pod := Apply(c, Tell(n, p, status, exitCode, output)), c.pods[p];
            && t.deployments == c.deployments && t.clock == c.clock
            && t.pods == c.pods[p := pod.(exitCode := exitCode, output := output,
                                          status := if ReportMoves(pod.status, status) then status else pod.status)]
            && (if ReportEnds(pod.status, status)
                then n in t.nodes && t.nodes == c.nodes[n := t.nodes[n]] && GivesBack(c.nodes[n], t.nodes[n], c.deployments[pod.deployment].resources)
                else t.nodes == c.nodes)
  {
    assert PodInv(c, p);
    if ReportEnds(c.pods[p].status, status) {
      ReleaseIsExact(c, n, p);
      FinalReport(c, n, p, status, exitCode, output);
    } else {
      QuietReport(c, n, p, status, exitCode, output);
    }
  }

  /** The node after a pod's run ended on it. */
  predicate GivesBack(before: Node, after: Node, request: Resources) {
    && after == before.(running := if before.running > 0 then before.running - 1 else before.running, available := after.available)
    && after.available.cpu == before.available.cpu + request.cpu
    && after.available.memory == before.available.memory + request.memory
  }

  lemma FinalReport(c: Cluster, n: string, p: string, status: PodStatus, exitCode: Option<int>, output: string)
    requires n in c.nodes && p in c.pods && c.pods[p].deployment in c.deployments
    requires ReportEnds(c.pods[p].status, status) && c.nodes[n].capacity.Covers(c.nodes[n].available.Plus(RequestOf(c, p)))
    ensures var t, pod := Report(c, n, p, status, exitCode, output), c.pods[p];
            && t.deployments == c.deployments && t.clock == c.clock
            && t.pods == c.pods[p := pod.(exitCode := exitCode, output := output, status := status)]
            && n in t.nodes && t.nodes == c.nodes[n := t.nodes[n]]
            && GivesBack(c.nodes[n], t.nodes[n], c.deployments[pod.deployment].resources)
  {
    ReportWrites(c, n, p, status, exitCode, output);
  }

  lemma QuietReport(c: Cluster, n: string, p: string, status: PodStatus, exitCode: Option<int>, output: string)
    requires p in c.pods && Reportable(status) && !ReportEnds(c.pods[p].status, status)
    ensures var t, pod := Report(c, n, p, status, exitCode, output), c.pods[p];
            && t.deployments == c.deployments && t.clock == c.clock && t.nodes == c.nodes
            && t.pods == c.pods[p := pod.(exitCode := exitCode, output := output,
                                          status := if ReportMoves(pod.status, status) then status else pod.status)]
  {
    var told := c.pods[p].(exitCode := exitCode, output := output);
    assert c.pods[p := told][p := told.(status := status)] == c.pods[p := told.(status := status)];
  }

  /** The pod sits on a node in service that has been silent for longer than the timeout. */
  predicate OnSilentNode(c: Cluster, pod: Pod) {
    && pod.node.Some? && pod.node.value in c.nodes
    && (c.nodes[pod.node.value].status == Healthy || c.nodes[pod.node.value].status == Draining)
    && c.clock - c.nodes[pod.node.value].lastHeartbeat > c.timeout
  }

  /** A tick changes an existing pod only if its node went silent: one that had not started goes back for
      free; one that was RUNNING uses an attempt, and waits out its backoff or is given up where it is. */
  lemma TickWritesPod(c: Cluster, e: Event, p: string)
    requires Inv(c) && e.Reconcile? && Enabled(c, e) && p in c.pods
    ensures p in Apply(c, e).pods && c.pods[p].deployment in c.deployments
    ensures Apply(c, e).pods[p] == AfterSilence(c, c.pods[p], c.deployments[c.pods[p].deployment].maxRetries)
  {
    assert PodInv(c, p);
    TickMovesPod(c, e, p);
    LossIsSilence(c, c.pods[p]);
  }

  /** The record a tick leaves of a pod whose deployment allows that many retries. */
  function AfterSilence(c: Cluster, pod: Pod, allowed: int): Pod {
    if OnSilentNode(c, pod) && pod.status == Scheduled
    then pod.(status := Pending, node := None)
    else if OnSilentNode(c, pod) && pod.status == Running && pod.attempt + 1 <= allowed
    then pod.(status := Pending, node := None, attempt := pod.attempt + 1,
              runAfter := Some(c.clock + Backoff.Delay(pod.attempt + 1)))
    else if OnSilentNode(c, pod) && pod.status == Running
    then pod.(status := DeadLetter, attempt := pod.attempt + 1)
    else pod
  }

  lemma LossIsSilence(c: Cluster, pod: Pod)
    requires pod.deployment in c.deployments
    ensures AfterLoss(c, pod) == AfterSilence(c, pod, c.deployments[pod.deployment].maxRetries)
  {
  }

  /** The pods a deployment's turn adds. */
  lemma TurnAdds(c: Cluster, d: string, newest: seq<string>, ids: IdSource, p: string)
    requires d in c.deployments ==> Enumerates(newest, Cancellable(c, d))
    requires p !in c.pods && p in ReconcileOne(c, d, newest, ids).pods
    ensures d in c.deployments && ReconcileOne(c, d, newest, ids).pods[p] == Pod(d, None, 0, Pending, None, "", c.clock, None)
  {
    ReconcileOneLocal(c, d, newest, ids);
  }

  /** The last turn of a pass finds the clock, the deployments and its own listing as the pass did, and keeps
      a pod that is there. */
  lemma LastTurn(c: Cluster, order: seq<string>, newest: map<string, seq<string>>, ids: IdSource, p: string)
    requires Inv(c) && Distinct(order) && Listed(c, newest, order) && order != []
    ensures var front, d := order[..|order| - 1], order[|order| - 1];
            var b := ReconcileAll(c, front, newest, ids);
            && Distinct(front) && Listed(c, newest, front) && d in newest && Enumerates(newest[d], Cancellable(b, d))
            && b.clock == c.clock && b.deployments.Keys == c.deployments.Keys
            && (p in b.pods ==> p in ReconcileOne(b, d, newest[d], ids).pods && ReconcileOne(b, d, newest[d], ids).pods[p] == b.pods[p])
  {
    var front, d := order[..|order| - 1], order[|order| - 1];
    assert d !in front;
    KeepsReconcileAll(c, front, newest, ids);
    PassKeepsPods(c, front, newest, ids);
    CpExact.NoNewDeployments(c, front, newest, ids);
    TurnKeepsPods(ReconcileAll(c, front, newest, ids), d, newest[d], ids);
  }

  lemma {:induction false} PassAdds(c: Cluster, order: seq<string>, newest: map<string, seq<string>>, ids: IdSource, p: string)
    requires Inv(c) && Distinct(order) && Listed(c, newest, order)
    requires p !in c.pods && p in ReconcileAll(c, order, newest, ids).pods
    ensures var pod := ReconcileAll(c, order, newest, ids).pods[p];
            pod.deployment in c.deployments && pod == Pod(pod.deployment, None, 0, Pending, None, "", c.clock, None)
    decreases |order|
  {
    if order == [] {
    } else {
      var front, d := order[..|order| - 1], order[|order| - 1];
      LastTurn(c, order, newest, ids, p);
      var b := ReconcileAll(c, front, newest, ids);
      if p in b.pods {
        PassAdds(c, front, newest, ids, p);
      } else {
        TurnAdds(b, d, newest[d], ids, p);
      }
    }
  }

  /** A pod that a tick adds belongs to a deployment that is not CANCELLED and has everything before it. */
  lemma TickAddsPod(c: Cluster, e: Event, p: string)
    requires Inv(c) && e.Reconcile? && Enabled(c, e) && p !in c.pods && p in Apply(c, e).pods
    ensures var pod := Apply(c, e).pods[p];
            && pod.deployment in c.deployments && c.deployments[pod.deployment].status != DeploymentCancelled
            && pod == Pod(pod.deployment, None, 0, Pending, None, "", c.clock, None)
  {
    EnabledListed(c, e);
    StepEvolves(c, e);
    PassAdds(c, e.deployments, e.newest, e.source, p);
    PassKeepsPods(c, e.deployments, e.newest, e.source);
  }

  /** A scheduling tick places pods only on nodes that are HEALTHY, so a DRAINING node gets none. */
  lemma OnlyHealthyGetPods(c: Cluster, pending: seq<string>, order: seq<string>, p: string)
    requires Inv(c) && Enabled(c, Schedule(pending, order)) && p in c.pods
    ensures var t := Apply(c, Schedule(pending, order));
            && p in t.pods
            && (t.pods[p] == c.pods[p]
                || (&& c.pods[p].status == Pending && t.pods[p].status == Scheduled && t.pods[p].node.Some?
                    && t.pods[p].node.value in c.nodes && c.nodes[t.pods[p].node.value].status == Healthy))
  {
    ScheduleIsTickStep(c, pending, order);
    var t := Apply(c, Schedule(pending, order));
    assert Placed(c.pods[p], t.pods[p]);
    if t.pods[p] != c.pods[p] {
      assert p in InStatus(c, Pending);
      var i :| 0 <= i < |pending| && pending[i] == p;
      PlacedOnHealthy(c, pending, order, i);
    }
  }

  lemma PlacedOnHealthy(c: Cluster, pending: seq<string>, order: seq<string>, i: nat)
    requires Inv(c) && Enabled(c, Schedule(pending, order)) && i < |pending| && pending[i] in c.pods
    requires var t := ScheduleAll(c, pending, order);
             pending[i] in t.pods && t.pods[pending[i]] != c.pods[pending[i]]
    ensures var t := ScheduleAll(c, pending, order);
            t.pods[pending[i]].node.Some? && t.pods[pending[i]].node.value in c.nodes
            && c.nodes[t.pods[pending[i]].node.value].status == Healthy
  {
    RequestsFromInv(c);
    FateAtTurn(c, pending, order, i);
    var b := AtTurn(c, pending, order, i);
    TurnPlaces(b, pending[i], order);
    assert NodeShrunk(c.nodes[ScheduleAll(c, pending, order).pods[pending[i]].node.value], b.nodes[ScheduleAll(c, pending, order).pods[pending[i]].node.value]);
  }
}
