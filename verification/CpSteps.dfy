/** Every event keeps the invariant: the API calls and the elementary moves of the two ticks. */
module CpSteps {
  import opened Options
  import opened CpModel
  import opened CpCluster
  import opened CpInvariant

  // ----- deployments

  /** Deployment `id` is created or changes status; nothing else happens. */
  lemma KeepsDeploymentChange(c: Cluster, id: string, d: Deployment)
    requires Inv(c)
    requires d.replicas >= 1 && d.resources.NonNegative()
    requires if id in c.deployments
             then d == c.deployments[id].(status := d.status) && (d.status == DeploymentDegraded ==> HasDeadLetter(c, id))
             else d.status == DeploymentPending
    ensures Inv(c.(deployments := c.deployments[id := d]))
  {
    var t := c.(deployments := c.deployments[id := d]);
    forall p | p in t.pods ensures PodInv(t, p) && RequestOf(t, p) == RequestOf(c, p) {
      assert PodInv(c, p);
    }
    forall k | k in t.deployments ensures DeploymentInv(t, k) {
      assert ActivePods(t, k) == ActivePods(c, k);
      if k in c.deployments {
        assert DeploymentInv(c, k);
      } else {
        NoPodsYet(c, k);
      }
    }
    SameReservations(c, t);
  }

  /** Nodes and ledger stand as they did while no pod's request changes. */
  lemma SameReservations(c: Cluster, t: Cluster)
    requires NodesInv(c) && LedgerInv(c) && t.nodes == c.nodes && t.ledger == c.ledger && t.polled == c.polled
    requires forall p :: p in c.pods ==> p in t.pods && RequestOf(t, p) == RequestOf(c, p)
    ensures NodesInv(t) && LedgerInv(t)
  {
    forall n | n in t.nodes ensures NodeInv(t, n) {
      assert NodeInv(c, n);
    }
    forall i | 0 <= i < |t.ledger| ensures ChargeInv(t, t.ledger[i]) {
      assert ChargeInv(c, c.ledger[i]);
    }
  }

  lemma NoPodsYet(c: Cluster, d: string)
    requires Inv(c) && d !in c.deployments
    ensures ActivePods(c, d) == {}
  {
    forall p | p in c.pods ensures c.pods[p].deployment != d {
      assert PodInv(c, p);
    }
  }

  lemma {:induction false} FirstUnusedIsUnused(candidates: seq<string>, used: set<string>)
    ensures FirstUnused(candidates, used).Some? ==> FirstUnused(candidates, used).value !in used
    ensures FirstUnused(candidates, used) == None <==> forall i :: 0 <= i < |candidates| ==> candidates[i] in used
  {
    if candidates == [] {
    } else {
      FirstUnusedIsUnused(candidates[1..], used);
      assert forall i :: 1 <= i < |candidates| ==> candidates[i] == candidates[1..][i - 1];
    }
  }

  lemma KeepsSubmit(c: Cluster, ids: seq<string>, replicas: int, maxRetries: int, resources: Resources)
    requires Inv(c) && resources.NonNegative()
    ensures Inv(CreateDeployment(c, ids, replicas, maxRetries, resources))
  {
    FirstUnusedIsUnused(ids, c.deployments.Keys);
    match FirstUnused(ids, c.deployments.Keys)
    case None =>
    case Some(id) =>
      KeepsDeploymentChange(c, id, Deployment(if replicas <= 0 then 1 else replicas, maxRetries, resources, DeploymentPending));
  }

  lemma KeepsTransitionDeployment(c: Cluster, id: string, to: DeploymentStatus)
    requires Inv(c) && (to == DeploymentDegraded ==> HasDeadLetter(c, id))
    ensures Inv(TransitionDeployment(c, id, to))
  {
    if id in c.deployments && DeploymentAllowed(c.deployments[id].status, to) {
      assert DeploymentInv(c, id);
      KeepsDeploymentChange(c, id, c.deployments[id].(status := to));
    }
  }

  // ----- nodes

  /** Node `n` joins, or changes in ways its reservations do not depend on. */
  lemma KeepsNodeChange(c: Cluster, n: string, node: Node)
    requires Inv(c) && node.capacity.NonNegative()
    requires if n in c.nodes
             then && node.available == c.nodes[n].available && node.capacity == c.nodes[n].capacity
                  && (c.nodes[n].status in {Healthy, Draining} ==> node.status in {Healthy, Draining})
             else node.available == node.capacity
    ensures Inv(c.(nodes := c.nodes[n := node]))
  {
    var t := c.(nodes := c.nodes[n := node]);
    forall p | p in t.pods ensures PodInv(t, p) {
      assert PodInv(c, p);
    }
    forall m | m in t.nodes ensures NodeInv(t, m) {
      if m in c.nodes {
        assert NodeInv(c, m);
      } else {
        NothingReserved(c, m);
      }
    }
    SameDeployments(c, t);
    forall i | 0 <= i < |t.ledger| ensures ChargeInv(t, t.ledger[i]) {
      assert ChargeInv(c, c.ledger[i]);
    }
  }

  lemma SameDeployments(c: Cluster, t: Cluster)
    requires DeploymentsInv(c) && t.deployments == c.deployments && t.pods == c.pods
    ensures DeploymentsInv(t)
  {
    forall d | d in t.deployments ensures DeploymentInv(t, d) {
      assert DeploymentInv(c, d);
      assert ActivePods(t, d) == ActivePods(c, d);
    }
  }

  lemma NothingReserved(c: Cluster, n: string)
    requires LedgerInv(c) && n !in c.nodes
    ensures Reserved(c.ledger, n) == NONE
  {
    forall i | 0 <= i < |c.ledger| ensures c.ledger[i].node != n {
      assert ChargeInv(c, c.ledger[i]);
    }
    NoEntryNoReserve(c.ledger, n);
  }

  lemma {:induction false} NoEntryNoReserve(ledger: seq<Charge>, n: string)
    requires forall i :: 0 <= i < |ledger| ==> ledger[i].node != n
    ensures Reserved(ledger, n) == NONE
  {
    if ledger == [] {
    } else {
      NoEntryNoReserve(ledger[..|ledger| - 1], n);
    }
  }

  lemma CapacityNonNegative(c: Cluster, n: string)
    requires Inv(c) && n in c.nodes
    ensures c.nodes[n].capacity.NonNegative()
  {
    assert NodeInv(c, n);
    AmountsNonNegative(c);
    ReservedNonNegative(c.ledger, n);
  }

  lemma KeepsJoin(c: Cluster, ids: seq<string>, capacity: Resources, maxConcurrent: int)
    requires Inv(c) && capacity.NonNegative()
    ensures Inv(RegisterNode(c, ids, capacity, maxConcurrent))
  {
    FirstUnusedIsUnused(ids, c.nodes.Keys);
    match FirstUnused(ids, c.nodes.Keys)
    case None =>
    case Some(id) =>
      var node := Node(Healthy, capacity, capacity, 0, maxConcurrent, c.clock, c.clock);
      KeepsNodeChange(c, id, node);
      assert c.nodes[id := node.(status := Registering)][id := node] == c.nodes[id := node];
  }

  lemma KeepsBeat(c: Cluster, n: string, running: int)
    requires Inv(c)
    ensures Inv(Heartbeat(c, n, running, NONE))
  {
    if n in c.nodes {
      CapacityNonNegative(c, n);
      var node := c.nodes[n].(lastHeartbeat := c.clock, running := running);
      KeepsNodeChange(c, n, node);
      if node.status == Unhealthy {
        KeepsNodeChange(c.(nodes := c.nodes[n := node]), n, node.(status := Healthy));
      }
    }
  }

  lemma KeepsDrain(c: Cluster, n: string)
    requires Inv(c)
    ensures Inv(TransitionNode(c, n, Draining))
  {
    if n in c.nodes && NodeAllowed(c.nodes[n].status, Draining) {
      CapacityNonNegative(c, n);
      KeepsNodeChange(c, n, c.nodes[n].(status := Draining));
    }
  }

  // ----- agents

  lemma KeepsPickUp(c: Cluster, n: string, p: string)
    requires Inv(c) && Enabled(c, PickUp(n, p))
    ensures Inv(Poll(c, n, p))
  {
    var t := Poll(c, n, p);
    forall q | q in t.pods ensures PodInv(t, q) {
      assert PodInv(c, q);
    }
    forall m | m in t.nodes ensures NodeInv(t, m) {
      assert NodeInv(c, m);
    }
    SameDeployments(c, t);
    forall i | 0 <= i < |t.ledger| ensures ChargeInv(t, t.ledger[i]) {
      assert ChargeInv(c, c.ledger[i]);
    }
  }

  /** Pod `p` changes its record without being placed anew; its slot does not come back to life. */
  ghost predicate PodMoves(c: Cluster, p: string, pod: Pod) {
    && p in c.pods && pod.deployment == c.pods[p].deployment
    && (Active(pod.status) ==> Active(c.pods[p].status))
    && (c.pods[p].status == DeadLetter ==> pod.status == DeadLetter)
  }

  lemma DeploymentsAfterMove(c: Cluster, t: Cluster, p: string)
    requires DeploymentsInv(c) && t.deployments == c.deployments && p in c.pods && p in t.pods
    requires PodMoves(c, p, t.pods[p]) && t.pods == c.pods[p := t.pods[p]]
    ensures DeploymentsInv(t)
  {
    forall d | d in t.deployments ensures DeploymentInv(t, d) {
      assert DeploymentInv(c, d);
      FewerActive(c, t, d);
      if HasDeadLetter(c, d) {
        var q :| q in c.pods && c.pods[q].deployment == d && c.pods[q].status == DeadLetter;
        assert q in t.pods && t.pods[q].deployment == d && t.pods[q].status == DeadLetter;
      }
    }
  }

  /** A pod moves on and no reservation changes. */
  lemma KeepsPodChange(c: Cluster, p: string, pod: Pod)
    requires Inv(c) && PodMoves(c, p, pod)
    requires PodInv(c.(pods := c.pods[p := pod]), p)
    ensures Inv(c.(pods := c.pods[p := pod]))
  {
    var t := c.(pods := c.pods[p := pod]);
    forall q | q in t.pods ensures PodInv(t, q) {
      assert PodInv(c, q);
    }
    DeploymentsAfterMove(c, t, p);
    SameReservations(c, t);
  }

  /** A finished pod gives its reservation back to a node that holds one for it. The clamp does
      nothing: the node never has more than its capacity to begin with. */
  lemma ReleaseIsExact(c: Cluster, n: string, p: string)
    requires Inv(c) && n in c.nodes && p in c.pods && HasCharge(c.ledger, n, p)
    ensures var back := c.nodes[n].available.Plus(RequestOf(c, p));
            && c.nodes[n].capacity.Covers(back)
            && Clamp(back, c.nodes[n].capacity) == back
            && back == c.nodes[n].capacity.Minus(Reserved(Settle(c.ledger, n, p), n))
  {
    assert NodeInv(c, n);
    forall i | 0 <= i < |c.ledger| && c.ledger[i].pod == p ensures c.ledger[i].amount == RequestOf(c, p) {
      assert ChargeInv(c, c.ledger[i]);
    }
    SettleTakesOne(c.ledger, n, p, RequestOf(c, p), n);
    SettleKeepsOthers(c.ledger, n, p);
    AmountsNonNegative(c);
    ReservedNonNegative(Settle(c.ledger, n, p), n);
  }

  lemma OthersUnaffected(c: Cluster, n: string, p: string, m: string)
    requires Inv(c) && p in c.pods && HasCharge(c.ledger, n, p) && m != n
    ensures Reserved(Settle(c.ledger, n, p), m) == Reserved(c.ledger, m)
  {
    forall i | 0 <= i < |c.ledger| && c.ledger[i].pod == p ensures c.ledger[i].amount == RequestOf(c, p) {
      assert ChargeInv(c, c.ledger[i]);
    }
    SettleTakesOne(c.ledger, n, p, RequestOf(c, p), m);
  }

  /** `t` is `c` after `n` reported the RUNNING pod `p` finished. */
  ghost predicate Releases(c: Cluster, t: Cluster, n: string, p: string) {
    && n in c.nodes && p in c.pods && HasCharge(c.ledger, n, p)
    && c.pods[p].status == Running && p in t.pods && FreesCapacity(t.pods[p].status)
    && t.pods[p] == c.pods[p].(status := t.pods[p].status, exitCode := t.pods[p].exitCode, output := t.pods[p].output)
    && n in t.nodes && t.nodes == c.nodes[n := t.nodes[n]]
    && t.nodes[n] == c.nodes[n].(running := t.nodes[n].running, available := c.nodes[n].available.Plus(RequestOf(c, p)))
    && t.pods == c.pods[p := t.pods[p]] && t.ledger == Settle(c.ledger, n, p)
    && t.deployments == c.deployments && t.polled == c.polled && t.clock == c.clock && t.timeout == c.timeout
  }

  lemma ReleaseKeepsPods(c: Cluster, t: Cluster, n: string, p: string)
    requires Inv(c) && Releases(c, t, n, p)
    ensures PodsInv(t)
  {
    SettleKeepsOthers(c.ledger, n, p);
    forall q | q in t.pods ensures PodInv(t, q) {
      assert PodInv(c, q);
    }
  }

  lemma ReleaseKeepsNodes(c: Cluster, t: Cluster, n: string, p: string)
    requires Inv(c) && Releases(c, t, n, p)
    ensures NodesInv(t)
  {
    forall m | m in t.nodes ensures NodeInv(t, m) {
      assert NodeInv(c, m);
      if m == n {
        ReleaseIsExact(c, n, p);
        assert PodInv(c, p) && DeploymentInv(c, c.pods[p].deployment);
      } else {
        OthersUnaffected(c, n, p, m);
      }
    }
  }

  lemma KeepsRelease(c: Cluster, t: Cluster, n: string, p: string)
    requires Inv(c) && Releases(c, t, n, p)
    ensures Inv(t)
  {
    ReleaseKeepsPods(c, t, n, p);
    ReleaseKeepsNodes(c, t, n, p);
    DeploymentsAfterMove(c, t, p);
    ReleaseKeepsLedger(c, t, n, p);
  }

  lemma ReleaseKeepsLedger(c: Cluster, t: Cluster, n: string, p: string)
    requires LedgerInv(c) && Releases(c, t, n, p)
    ensures LedgerInv(t)
  {
    SettleKeepsOthers(c.ledger, n, p);
    forall i | 0 <= i < |t.ledger| ensures ChargeInv(t, t.ledger[i]) {
      var k :| 0 <= k < |c.ledger| && c.ledger[k] == t.ledger[i];
      assert ChargeInv(c, c.ledger[k]);
    }
  }

  lemma FinalTellReleases(c: Cluster, n: string, p: string, status: PodStatus, exitCode: Option<int>, output: string)
    requires Inv(c) && (n, p) in c.polled && p in c.pods && c.pods[p].status == Running && FreesCapacity(status)
    ensures Releases(c, Report(c, n, p, status, exitCode, output), n, p)
  {
    assert PodInv(c, p);
    ReleaseIsExact(c, n, p);
    ReportWrites(c, n, p, status, exitCode, output);
  }

  /** What a final report writes: the pod's record and, at the node, what it had reserved. */
  lemma ReportWrites(c: Cluster, n: string, p: string, status: PodStatus, exitCode: Option<int>, output: string)
    requires n in c.nodes && p in c.pods && c.pods[p].status == Running && FreesCapacity(status)
    ensures var t, told := Report(c, n, p, status, exitCode, output), c.pods[p].(status := status, exitCode := exitCode, output := output);
            && t.pods == c.pods[p := told] && n in t.nodes && t.nodes == c.nodes[n := t.nodes[n]]
            && t.deployments == c.deployments && t.polled == c.polled && t.clock == c.clock && t.timeout == c.timeout
            && t.ledger == Settle(c.ledger, n, p)
            && (c.pods[p].deployment in c.deployments ==>
                  t.nodes[n] == c.nodes[n].(running := t.nodes[n].running,
                                            available := Clamp(c.nodes[n].available.Plus(RequestOf(c, p)), c.nodes[n].capacity)))
  {
  }

  lemma KeepsQuietTell(c: Cluster, n: string, p: string, status: PodStatus, exitCode: Option<int>, output: string)
    requires Inv(c) && p in c.pods && Reportable(status) && !(c.pods[p].status == Running && FreesCapacity(status))
    ensures Inv(Report(c, n, p, status, exitCode, output))
  {
    var pod := c.pods[p];
    assert PodInv(c, p);
    var written := pod.(exitCode := exitCode, output := output);
    if !PodAllowed(pod.status, status) {
      KeepsPodChange(c, p, written);
    } else {
      assert c.pods[p := written][p := written.(status := status)] == c.pods[p := written.(status := status)];
      KeepsPodChange(c, p, written.(status := status));
    }
  }

  /** A report, however late or repeated, by a node that once picked the pod up. */
  lemma KeepsTell(c: Cluster, n: string, p: string, status: PodStatus, exitCode: Option<int>, output: string)
    requires Inv(c) && Enabled(c, Tell(n, p, status, exitCode, output))
    ensures Inv(Report(c, n, p, status, exitCode, output))
  {
    if c.pods[p].status == Running && FreesCapacity(status) {
      FinalTellReleases(c, n, p, status, exitCode, output);
      KeepsRelease(c, Report(c, n, p, status, exitCode, output), n, p);
    } else {
      KeepsQuietTell(c, n, p, status, exitCode, output);
    }
  }

  lemma KeepsAdvance(c: Cluster, elapsed: nat)
    requires Inv(c)
    ensures Inv(c.(clock := c.clock + elapsed))
  {
    var t := c.(clock := c.clock + elapsed);
    forall q | q in t.pods ensures PodInv(t, q) {
      assert PodInv(c, q);
    }
    SameDeployments(c, t);
    SameReservations(c, t);
  }

  // ----- the scheduler

  lemma KeepsPlace(c: Cluster, p: string, n: string)
    requires Inv(c) && p in c.pods && c.pods[p].status == Pending && GateOpen(c.pods[p], c.clock)
    requires n in c.nodes && Eligible(c.nodes[n], RequestOf(c, p))
    ensures Inv(Place(c, p, n))
  {
    var t := Place(c, p, n);
    var ch := Charge(n, p, RequestOf(c, p));
    forall q | q in t.pods ensures PodInv(t, q) {
      PlaceKeepsPod(c, p, n, q);
    }
    forall m | m in t.nodes ensures NodeInv(t, m) {
      assert NodeInv(c, m);
      ReservedAppend(c.ledger, ch, m);
    }
    DeploymentsAfterMove(c, t, p);
    forall i | 0 <= i < |t.ledger| ensures ChargeInv(t, t.ledger[i]) {
      if i < |c.ledger| {
        assert ChargeInv(c, c.ledger[i]);
      }
    }
  }

  lemma PlaceKeepsPod(c: Cluster, p: string, n: string, q: string)
    requires Inv(c) && p in c.pods && c.pods[p].status == Pending && GateOpen(c.pods[p], c.clock) && q in c.pods
    requires n in c.nodes && Eligible(c.nodes[n], RequestOf(c, p))
    ensures PodInv(Place(c, p, n), q)
  {
    var t := Place(c, p, n);
    var ch := Charge(n, p, RequestOf(c, p));
    assert PodInv(c, q);
    ChargeStays(c.ledger, ch, n, p);
    if Assigned(c.pods[q].status) {
      ChargeStays(c.ledger, ch, c.pods[q].node.value, q);
    }
    if Unfinished(t.pods[q].status) {
      forall m | (m, q) in t.polled ensures m in t.nodes && HasCharge(t.ledger, m, q) {
        ChargeStays(c.ledger, ch, m, q);
      }
    }
  }

  lemma {:induction false} KeepsSchedule(c: Cluster, pending: seq<string>, order: seq<string>)
    requires Inv(c)
    ensures Inv(ScheduleAll(c, pending, order))
    decreases |pending|
  {
    if pending == [] {
    } else {
      KeepsSchedule(c, pending[..|pending| - 1], order);
      var b, p := ScheduleAll(c, pending[..|pending| - 1], order), pending[|pending| - 1];
      if p in b.pods && b.pods[p].status == Pending && GateOpen(b.pods[p], b.clock) {
        var chosen := SelectNode(b.nodes, order, RequestOf(b, p));
        if chosen.Some? {
          KeepsPlace(b, p, chosen.value);
        }
      }
    }
  }
}
