/** The store, the handlers and the two ticks as the code performs them, updating the records in
    place. Each is shown to do to the records what the state machine's event does. */
module CpControlPlane {
  import opened Options
  import opened CpModel
  import opened CpCluster
  import CpReconcile
  import opened CpScheduling
  import opened Listing
  import opened Ordering
  import Backoff

  // ----- choosing a node

  /** The position chosen among listed nodes, scanning left to right. */
  function BestIndex(nodes: seq<Node>, required: Resources): (best: Option<nat>)
    ensures best.Some? ==> best.value < |nodes| && Eligible(nodes[best.value], required)
  {
    if nodes == [] then None
    else
      var front, n := nodes[..|nodes| - 1], nodes[|nodes| - 1];
      var best := BestIndex(front, required);
      if Eligible(n, required) && (best == None || Better(n, front[best.value])) then Some(|nodes| - 1) else best
  }

  /** `listed` holds the records of `order`, in that order. */
  ghost predicate Lists(listed: seq<Node>, nodes: map<string, Node>, order: seq<string>) {
    |listed| == |order| && forall i :: 0 <= i < |order| ==> order[i] in nodes && nodes[order[i]] == listed[i]
  }

  lemma {:induction false} BestIsSelected(listed: seq<Node>, nodes: map<string, Node>, order: seq<string>, required: Resources)
    requires Lists(listed, nodes, order)
    ensures SelectNode(nodes, order, required)
            == match BestIndex(listed, required) case None => None case Some(i) => Some(order[i])
  {
    if order == [] {
    } else {
      BestIsSelected(listed[..|listed| - 1], nodes, order[..|order| - 1], required);
    }
  }

  /** The least loaded healthy node with room, the earliest registered among equals; none exactly
      when no healthy node has room. */
  method ChooseNode(candidates: seq<Node>, required: Resources) returns (best: Option<nat>)
    ensures best == BestIndex(candidates, required)
    ensures best == None <==> forall i :: 0 <= i < |candidates| ==> !HealthyWithRoom(candidates[i], required)
    ensures best.Some? ==>
              && best.value < |candidates| && HealthyWithRoom(candidates[best.value], required)
              && forall i :: 0 <= i < |candidates| && HealthyWithRoom(candidates[i], required)
                             ==> candidates[best.value].running < candidates[i].running
                                 || (&& candidates[best.value].running == candidates[i].running
                                     && candidates[best.value].registeredAt <= candidates[i].registeredAt)
  {
    best := None;
    for k := 0 to |candidates|
      invariant best == BestIndex(candidates[..k], required)
      invariant best == None <==> forall i :: 0 <= i < k ==> !HealthyWithRoom(candidates[i], required)
      invariant best.Some? ==>
                  && best.value < k && HealthyWithRoom(candidates[best.value], required)
                  && forall i :: 0 <= i < k && HealthyWithRoom(candidates[i], required)
                                 ==> NoMoreLoaded(candidates[best.value], candidates[i])
    {
      assert candidates[..k + 1][..k] == candidates[..k];
      var n := candidates[k];
      if n.status == Healthy && HasCapacityFor(n, required) && (best == None || Better(n, candidates[best.value])) {
        best := Some(k);
      }
    }
    assert candidates[..|candidates|] == candidates;
  }

  function CreatedAt(pods: map<string, Pod>, p: string): Time {
    if p in pods then pods[p].createdAt else 0
  }

  datatype ApiError = BadRequest | NoFreeId

  /** What a node has available once a request came back to it: the sum, cut off at its capacity. */
  predicate GivenBack(node: Node, request: Resources, available: Resources) {
    && available.cpu == (if node.available.cpu + request.cpu <= node.capacity.cpu then node.available.cpu + request.cpu else node.capacity.cpu)
    && available.memory == (if node.available.memory + request.memory <= node.capacity.memory
                            then node.available.memory + request.memory else node.capacity.memory)
  }

  /** The pod waits for node `n` to pick it up. */
  predicate Awaits(pod: Pod, n: string) {
    pod.node == Some(n) && pod.status == Scheduled
  }

  class ControlPlane {
    var deployments: map<string, Deployment>
    var pods: map<string, Pod>
    var nodes: map<string, Node>
    const timeout: Time
    ghost var ledger: seq<Charge>
    ghost var polled: set<(string, string)>

    constructor (timeout: Time)
      ensures this.timeout == timeout && forall now :: Initial(View(now))
    {
      this.timeout := timeout;
      deployments, pods, nodes, ledger, polled := map[], map[], map[], [], {};
    }

    /** The records as a state of the cluster, at time `now`. */
    ghost function View(now: Time): Cluster
      reads this
    {
      Cluster(deployments, pods, nodes, timeout, now, ledger, polled)
    }

    // ----- the store

    method UpdatePod(id: string, pod: Pod) returns (ok: bool)
      modifies this`pods
      ensures ok == (id in old(pods))
      ensures pods == if ok then old(pods)[id := pod] else old(pods)
    {
      ok := id in pods;
      if ok {
        pods := pods[id := pod];
      }
    }

    method TransitionPod(id: string, to: PodStatus, ghost now: Time) returns (ok: bool)
      modifies this`pods
      ensures ok <==> id in old(pods) && (old(pods)[id].status, to) in {
                (Pending, Scheduled), (Pending, Cancelled),
                (Scheduled, Running), (Scheduled, Pending), (Scheduled, Cancelled),
                (Running, Succeeded), (Running, Failed), (Running, Cancelled),
                (Failed, Retrying), (Failed, DeadLetter), (Retrying, Pending), (Retrying, Scheduled)}
      ensures pods == if ok then old(pods)[id := old(pods)[id].(status := to)] else old(pods)
      ensures View(now) == CpCluster.TransitionPod(old(View(now)), id, to)
    {
      ok := id in pods && PodAllowed(pods[id].status, to);
      if ok {
        pods := pods[id := pods[id].(status := to)];
      }
    }

    method TransitionNode(id: string, to: NodeStatus, ghost now: Time) returns (ok: bool)
      modifies this`nodes
      ensures ok <==> id in old(nodes) && (old(nodes)[id].status, to) in {
                (Registering, Healthy), (Registering, Unhealthy), (Healthy, Draining), (Healthy, Unhealthy),
                (Draining, Removed), (Draining, Unhealthy), (Unhealthy, Healthy), (Unhealthy, Removed)}
      ensures nodes == if ok then old(nodes)[id := old(nodes)[id].(status := to)] else old(nodes)
      ensures View(now) == CpCluster.TransitionNode(old(View(now)), id, to)
    {
      ok := id in nodes && NodeAllowed(nodes[id].status, to);
      if ok {
        nodes := nodes[id := nodes[id].(status := to)];
      }
    }

    method TransitionDeployment(id: string, to: DeploymentStatus, ghost now: Time) returns (ok: bool)
      modifies this`deployments
      ensures ok <==> id in old(deployments) && (old(deployments)[id].status, to) in {
                (DeploymentPending, DeploymentActive), (DeploymentPending, DeploymentCancelled),
                (DeploymentActive, DeploymentDegraded), (DeploymentActive, DeploymentCancelled),
                (DeploymentDegraded, DeploymentActive), (DeploymentDegraded, DeploymentCancelled)}
      ensures deployments == if ok then old(deployments)[id := old(deployments)[id].(status := to)] else old(deployments)
      ensures View(now) == CpCluster.TransitionDeployment(old(View(now)), id, to)
    {
      ok := id in deployments && DeploymentAllowed(deployments[id].status, to);
      if ok {
        deployments := deployments[id := deployments[id].(status := to)];
      }
    }

    // ----- handlers

    /** Stores the deployment under the first unused of the ids drawn. A request without a name, or with
        neither command nor image, is refused. */
    method CreateDeployment(name: string, command: string, image: string, ids: seq<string>,
        replicas: int, maxRetries: int, resources: Resources, ghost now: Time)
      returns (id: Result<string, ApiError>)
      requires |ids| == MAX_ID_ATTEMPTS
      modifies this`deployments
      ensures id == Failure(BadRequest) <==> name == "" || (command == "" && image == "")
      ensures id == Failure(BadRequest) ==> View(now) == old(View(now))
      ensures id != Failure(BadRequest)
              ==> View(now) == CpCluster.CreateDeployment(old(View(now)), ids, replicas, maxRetries, resources)
      ensures id == Failure(NoFreeId) ==> forall i :: 0 <= i < |ids| ==> ids[i] in old(deployments)
      ensures id.Success? ==>
                && id.value in ids && id.value !in old(deployments)
                && deployments == old(deployments)[id.value := Deployment(if replicas <= 0 then 1 else replicas, maxRetries, resources, DeploymentPending)]
    {
      if name == "" || (command == "" && image == "") {
        return Failure(BadRequest);
      }
      var wanted := if replicas <= 0 then 1 else replicas;
      for attempt := 0 to MAX_ID_ATTEMPTS
        invariant deployments == old(deployments)
        invariant forall i :: 0 <= i < attempt ==> ids[i] in deployments
        invariant FirstUnused(ids, deployments.Keys) == FirstUnused(ids[attempt..], deployments.Keys)
      {
        if ids[attempt] !in deployments {
          deployments := deployments[ids[attempt] := Deployment(wanted, maxRetries, resources, DeploymentPending)];
          return Success(ids[attempt]);
        }
      }
      return Failure(NoFreeId);
    }

    /** Stores the node under the first unused of the ids drawn, and marks it HEALTHY. A node without an
        address is refused. */
    method RegisterNode(address: string, ids: seq<string>, capacity: Resources, maxConcurrent: int, now: Time)
      returns (id: Result<string, ApiError>)
      requires |ids| == MAX_ID_ATTEMPTS
      modifies this`nodes
      ensures id == Failure(BadRequest) <==> address == ""
      ensures id == Failure(BadRequest) ==> View(now) == old(View(now))
      ensures id != Failure(BadRequest) ==> View(now) == CpCluster.RegisterNode(old(View(now)), ids, capacity, maxConcurrent)
      ensures id == Failure(NoFreeId) ==> forall i :: 0 <= i < |ids| ==> ids[i] in old(nodes)
      ensures id.Success? ==>
                && id.value in ids && id.value !in old(nodes)
                && nodes == old(nodes)[id.value := Node(Healthy, capacity, capacity, 0, maxConcurrent, now, now)]
    {
      if address == "" {
        return Failure(BadRequest);
      }
      for attempt := 0 to MAX_ID_ATTEMPTS
        invariant nodes == old(nodes)
        invariant forall i :: 0 <= i < attempt ==> ids[i] in nodes
        invariant FirstUnused(ids, nodes.Keys) == FirstUnused(ids[attempt..], nodes.Keys)
      {
        if ids[attempt] !in nodes {
          nodes := nodes[ids[attempt] := Node(Registering, capacity, capacity, 0, maxConcurrent, now, now)];
          var _ := TransitionNode(ids[attempt], Healthy, now);
          return Success(ids[attempt]);
        }
      }
      return Failure(NoFreeId);
    }

    /** Hands out one pod waiting on node `n`, if there is one: the state machine's PickUp event. */
    method PollPods(n: string, ghost now: Time) returns (p: Option<string>)
      modifies this`polled
      ensures p == None <==> n !in nodes || forall q :: q in pods ==> !(pods[q].node == Some(n) && pods[q].status == Scheduled)
      ensures p == None ==> View(now) == old(View(now))
      ensures p.Some? ==> p.value in pods && pods[p.value].node == Some(n) && pods[p.value].status == Scheduled
      ensures p.Some? ==> Enabled(old(View(now)), PickUp(n, p.value)) && View(now) == Apply(old(View(now)), PickUp(n, p.value))
    {
      if n !in nodes {
        return None;
      }
      var listed := Enumerate(pods.Keys);
      for i := 0 to |listed|
        invariant polled == old(polled)
        invariant forall k :: 0 <= k < i ==> listed[k] in pods && !Awaits(pods[listed[k]], n)
      {
        assert listed[i] in listed;
        if Awaits(pods[listed[i]], n) {
          polled := polled + {(n, listed[i])};
          p := Some(listed[i]);
          assert p.value in pods && Awaits(pods[p.value], n);
          return;
        }
      }
      assert forall q :: q in pods ==> q in listed;
      return None;
    }

    /** A heartbeat; one without an available amount is the state machine's Beat event. */
    method Beat(n: string, running: int, available: Resources, now: Time) returns (found: bool)
      modifies this`nodes
      ensures found == (n in old(nodes))
      ensures View(now) == Heartbeat(old(View(now)), n, running, available)
      ensures available == NONE ==> View(now) == Apply(old(View(now)), CpCluster.Beat(n, running))
      ensures !found ==> nodes == old(nodes)
      ensures found ==>
                && nodes.Keys == old(nodes).Keys && (forall m :: m in nodes && m != n ==> nodes[m] == old(nodes)[m])
                && nodes[n] == old(nodes)[n].(lastHeartbeat := now, running := running,
                                              status := if old(nodes)[n].status == Unhealthy then Healthy else old(nodes)[n].status,
                                              available := if available == Resources(0.0, 0) then old(nodes)[n].available else available)
    {
      found := n in nodes;
      if !found {
        return;
      }
      var node := nodes[n].(lastHeartbeat := now, running := running);
      if available != NONE {
        node := node.(available := available);
      }
      nodes := nodes[n := node];
      if node.status == Unhealthy {
        var _ := TransitionNode(n, Healthy, now);
      }
    }

    method UpdatePodStatus(n: string, p: string, status: PodStatus, exitCode: Option<int>, output: string, ghost now: Time)
      modifies this`pods, this`nodes, this`ledger
      ensures View(now) == Report(old(View(now)), n, p, status, exitCode, output)
    {
      if p !in pods {
        return;
      }
      var pod := pods[p];
      var wasRunning := pod.status == Running;
      var _ := UpdatePod(p, pod.(exitCode := exitCode, output := output));
      var ok := TransitionPod(p, status, now);
      if !ok {
        return;
      }
      if wasRunning && FreesCapacity(status) {
        ReleaseNodeCapacity(n, pod.deployment, now);
        ledger := Settle(ledger, n, p);
      }
    }

    method ReleaseNodeCapacity(n: string, deployment: string, ghost now: Time)
      modifies this`nodes
      ensures View(now) == ReleaseCapacity(old(View(now)), n, deployment)
      ensures n !in old(nodes) ==> nodes == old(nodes)
      ensures n in old(nodes) ==>
                && nodes.Keys == old(nodes).Keys && (forall m :: m in nodes && m != n ==> nodes[m] == old(nodes)[m])
                && nodes[n] == old(nodes)[n].(running := nodes[n].running, available := nodes[n].available)
                && nodes[n].running == (if old(nodes)[n].running > 0 then old(nodes)[n].running - 1 else old(nodes)[n].running)
                && (deployment in deployments ==> GivenBack(old(nodes)[n], deployments[deployment].resources, nodes[n].available))
                && (deployment !in deployments ==> nodes[n].available == old(nodes)[n].available)
    {
      if n !in nodes {
        return;
      }
      var node := nodes[n];
      if node.running > 0 {
        node := node.(running := node.running - 1);
      }
      if deployment in deployments {
        node := node.(available := node.available.Plus(deployments[deployment].resources));
        if node.available.cpu > node.capacity.cpu {
          node := node.(available := node.available.(cpu := node.capacity.cpu));
        }
        if node.available.memory > node.capacity.memory {
          node := node.(available := node.available.(memory := node.capacity.memory));
        }
      }
      nodes := nodes[n := node];
    }

    // ----- the scheduler

    /** The pods in `status`, in some order. */
    method ListPodsByStatus(status: PodStatus, ghost now: Time) returns (ids: seq<string>)
      ensures Enumerates(ids, InStatus(View(now), status))
    {
      var chosen := set p | p in pods && pods[p].status == status;
      ids := Enumerate(chosen);
    }

    method ListNodes() returns (order: seq<string>, listed: seq<Node>)
      ensures Enumerates(order, nodes.Keys) && Lists(listed, nodes, order)
    {
      order := Enumerate(nodes.Keys);
      listed := [];
      for i := 0 to |order|
        invariant |listed| == i && forall k :: 0 <= k < i ==> order[k] in nodes && nodes[order[k]] == listed[k]
      {
        assert order[i] in order;
        listed := listed + [nodes[order[i]]];
      }
    }

    /** PENDING pods, oldest first. */
    method ListPendingByAge(ghost now: Time) returns (pending: seq<string>)
      ensures Enumerates(pending, InStatus(View(now), Pending)) && OldestFirst(View(now), pending)
      ensures forall p :: p in pending <==> p in pods && pods[p].status == Pending
      ensures forall i, j :: 0 <= i < j < |pending| && pending[i] in pods && pending[j] in pods
                             ==> pods[pending[i]].createdAt <= pods[pending[j]].createdAt
    {
      var ids := ListPodsByStatus(Pending, now);
      var stored := pods;
      pending := Sort(ids, (a: string, b: string) => CreatedAt(stored, a) <= CreatedAt(stored, b));
      SortedEnumeration(pending, ids, InStatus(View(now), Pending), (a: string, b: string) => CreatedAt(stored, a) <= CreatedAt(stored, b));
    }

    /** One scheduling pass: the state machine's Schedule event, for the order the listings came in. */
    method Tick(now: Time) returns (ghost pending: seq<string>, ghost order: seq<string>)
      modifies this`pods, this`nodes, this`ledger
      ensures Enabled(old(View(now)), Schedule(pending, order))
      ensures View(now) == Apply(old(View(now)), Schedule(pending, order))
    {
      var queue := ListPendingByAge(now);
      var ids, local := ListNodes();
      pending, order := queue, ids;
      var stored := pods;
      forall k | 0 <= k < |queue| ensures queue[k] in pods && pods[queue[k]].status == Pending {
        assert queue[k] in queue;
      }
      for i := 0 to |queue|
        invariant View(now) == ScheduleAll(old(View(now)), queue[..i], ids)
        invariant Lists(local, nodes, ids)
        invariant forall k :: i <= k < |queue| ==> queue[k] in pods && queue[k] in stored && pods[queue[k]] == stored[queue[k]]
        invariant forall k :: i <= k < |queue| ==> pods[queue[k]].status == Pending
      {
        assert queue[..i + 1][..i] == queue[..i];
        ghost var before := View(now);
        local := ScheduleNext(queue[i], stored[queue[i]], ids, local, now);
        assert View(now) == ScheduleOne(before, queue[i], ids);
      }
      assert queue[..|queue|] == queue;
    }

    /** The body of the pass: one pod, against the listed nodes as they now are. */
    method ScheduleNext(p: string, pod: Pod, ids: seq<string>, listed: seq<Node>, now: Time) returns (local: seq<Node>)
      requires p in pods && pods[p] == pod && pod.status == Pending
      requires Lists(listed, nodes, ids) && Distinct(ids)
      modifies this`pods, this`nodes, this`ledger
      ensures View(now) == ScheduleOne(old(View(now)), p, ids)
      ensures Lists(local, nodes, ids)
      ensures pods.Keys == old(pods).Keys && forall q :: q in pods && q != p ==> pods[q] == old(pods)[q]
    {
      local := listed;
      if pod.runAfter != None && pod.runAfter.value > now {
        return;
      }
      var required := if pod.deployment in deployments then deployments[pod.deployment].resources else NONE;
      BestIsSelected(listed, nodes, ids, required);
      var best := ChooseNode(listed, required);
      if best == None {
        return;
      }
      local := PlaceOn(p, pod, ids, listed, best.value, required, now);
    }

    /** Assigns the pod to the node at position `at` and reserves what it needs there. */
    method PlaceOn(p: string, pod: Pod, ids: seq<string>, listed: seq<Node>, at: nat, required: Resources, ghost now: Time)
      returns (local: seq<Node>)
      requires p in pods && pods[p] == pod && pod.status == Pending
      requires Lists(listed, nodes, ids) && Distinct(ids) && at < |ids| && required == RequestOf(View(now), p)
      modifies this`pods, this`nodes, this`ledger
      ensures View(now) == CpCluster.Place(old(View(now)), p, ids[at])
      ensures Lists(local, nodes, ids)
    {
      var n := ids[at];
      var ok := UpdatePod(p, pod.(node := Some(n)));
      ok := TransitionPod(p, Scheduled, now);
      var node := listed[at];
      node := node.(available := node.available.Minus(required), running := node.running + 1);
      local := listed[at := node];
      nodes := nodes[n := node];
      ledger := ledger + [Charge(n, p, required)];
    }

    // ----- the reconciler: replicas

    /** Counts a deployment's pods the way the reconciler does. */
    method CountPods(d: string, ghost now: Time) returns (active: nat, hasDeadLetter: bool, cancellable: seq<string>)
      ensures active == |ActivePods(View(now), d)|
      ensures hasDeadLetter <==> HasDeadLetter(View(now), d)
      ensures Enumerates(cancellable, Cancellable(View(now), d))
    {
      var all := Enumerate(pods.Keys);
      active, hasDeadLetter, cancellable := 0, false, [];
      for i := 0 to |all|
        invariant (active, hasDeadLetter, cancellable) == Tally(all[..i], pods, d)
      {
        var p := all[i];
        assert p in all;
        assert all[..i + 1][..i] == all[..i];
        if pods[p].deployment == d {
          if Active(pods[p].status) {
            active := active + 1;
          }
          if pods[p].status == DeadLetter {
            hasDeadLetter := true;
          }
          if pods[p].status == Pending || pods[p].status == Scheduled {
            cancellable := cancellable + [p];
          }
        }
      }
      assert all[..|all|] == all;
      TallyCounts(all, View(now), d);
    }

    method Create(d: string, n: nat, ids: IdSource, now: Time)
      modifies this`pods
      ensures View(now) == CreatePods(old(View(now)), d, n, ids)
    {
      for i := 0 to n
        invariant View(now) == CreatePods(old(View(now)), d, i, ids)
      {
        var id := ids(d, i);
        if id !in pods {
          pods := pods[id := NewPod(d, now)];
        }
      }
    }

    method Cancel(newest: seq<string>, n: nat, ghost now: Time)
      requires n <= |newest|
      modifies this`pods
      ensures View(now) == CancelPods(old(View(now)), newest, n)
    {
      for i := 0 to n
        invariant View(now) == CancelPods(old(View(now)), newest, i)
      {
        var _ := TransitionPod(newest[i], Cancelled, now);
      }
    }

    /** Newest first. */
    method SortNewestFirst(cancellable: seq<string>, ghost now: Time) returns (newest: seq<string>)
      ensures forall members :: Enumerates(cancellable, members) ==> Enumerates(newest, members)
      ensures NewestFirst(View(now), newest)
    {
      var stored := pods;
      newest := Sort(cancellable, (a: string, b: string) => CreatedAt(stored, a) >= CreatedAt(stored, b));
      forall members | Enumerates(cancellable, members) ensures Enumerates(newest, members) {
        SortedEnumeration(newest, cancellable, members, (a: string, b: string) => CreatedAt(stored, a) >= CreatedAt(stored, b));
      }
    }

    method ResizeTo(d: string, active: nat, newest: seq<string>, ids: IdSource, now: Time)
      requires d in deployments && active == |ActivePods(View(now), d)|
      modifies this`pods
      ensures View(now) == Resize(old(View(now)), d, newest, ids)
    {
      var replicas := deployments[d].replicas;
      if active < replicas {
        Create(d, replicas - active, ids, now);
      } else if active > replicas {
        Cancel(newest, if active - replicas < |newest| then active - replicas else |newest|, now);
      }
    }

    /** Brings one deployment's pods to its replica count and sets its status. */
    method ReconcileNext(d: string, ids: IdSource, now: Time) returns (newest: seq<string>)
      requires d in deployments
      modifies this`pods, this`deployments
      ensures View(now) == ReconcileOne(old(View(now)), d, newest, ids)
      ensures Enumerates(newest, Cancellable(old(View(now)), d)) && NewestFirst(old(View(now)), newest)
    {
      ghost var before := View(now);
      var active, hasDeadLetter, cancellable := CountPods(d, now);
      newest := SortNewestFirst(cancellable, now);
      if deployments[d].status == DeploymentCancelled {
        return;
      }
      if deployments[d].status == DeploymentPending {
        var _ := TransitionDeployment(d, DeploymentActive, now);
      }
      assert View(now) == CpReconcile.Activated(before, d);
      CpReconcile.SamePods(before, View(now), d);
      var status := deployments[d].status;
      ResizeTo(d, active, newest, ids, now);
      if hasDeadLetter && status == DeploymentActive {
        var _ := TransitionDeployment(d, DeploymentDegraded, now);
      } else if !hasDeadLetter && status == DeploymentDegraded {
        var _ := TransitionDeployment(d, DeploymentActive, now);
      }
    }

    /** The first pass: every deployment, in the order the listing came in. */
    method ReconcileDeployments(ids: IdSource, now: Time) returns (ghost order: seq<string>, ghost newest: map<string, seq<string>>)
      modifies this`pods, this`deployments
      ensures Enumerates(order, old(deployments).Keys)
      ensures forall d :: d in order ==> d in newest && Enumerates(newest[d], Cancellable(old(View(now)), d)) && NewestFirst(old(View(now)), newest[d])
      ensures View(now) == ReconcileAll(old(View(now)), order, newest, ids)
    {
      var all := Enumerate(deployments.Keys);
      order, newest := all, map[];
      for i := 0 to |all|
        invariant Passing(old(View(now)), View(now), all, i, newest, ids)
        invariant deployments.Keys == old(deployments).Keys
      {
        ghost var at := View(now);
        assert all[i] in all;
        var listed := ReconcileNext(all[i], ids, now);
        PassStep(old(View(now)), at, all, i, newest, listed, ids);
        CpReconcile.ReconcileOneLocal(at, all[i], listed, ids);
        newest := newest[all[i] := listed];
      }
      assert all[..|all|] == all;
    }

    // ----- the reconciler: lost nodes

    /** Takes one pod off a node that was just given up. */
    method Requeue(p: string, now: Time)
      requires p in pods
      modifies this`pods
      ensures View(now) == old(View(now)).(pods := old(pods)[p := Requeued(old(pods)[p], MaxRetries(View(now), old(pods)[p].deployment), now)])
    {
      var pod := pods[p];
      if pod.status == Scheduled {
        var _ := UpdatePod(p, pod.(node := None));
        var _ := TransitionPod(p, Pending, now);
        return;
      }
      if pod.status != Running {
        return;
      }
      FailOrGiveUp(p, pod, now);
    }

    /** A running pod uses up an attempt. */
    method FailOrGiveUp(p: string, pod: Pod, now: Time)
      requires p in pods && pods[p] == pod && pod.status == Running
      modifies this`pods
      ensures pods == old(pods)[p := Requeued(pod, MaxRetries(View(now), pod.deployment), now)]
    {
      var maxRetries := if pod.deployment in deployments then deployments[pod.deployment].maxRetries else 0;
      var attempt := pod.attempt + 1;
      if attempt <= maxRetries {
        var _ := UpdatePod(p, pod.(attempt := attempt, runAfter := Some(now + Backoff.Delay(attempt)), node := None));
        var _ := TransitionPod(p, Failed, now);
        var _ := TransitionPod(p, Retrying, now);
        var _ := TransitionPod(p, Pending, now);
      } else {
        var _ := UpdatePod(p, pod.(attempt := attempt));
        var _ := TransitionPod(p, Failed, now);
        var _ := TransitionPod(p, DeadLetter, now);
      }
    }

    /** Takes every pod off node `n`. */
    method ReschedulePodsFor(n: string, now: Time)
      modifies this`pods
      ensures pods == map p | p in old(pods) :: RequeuedFrom(old(View(now)), {n}, old(pods)[p])
    {
      var chosen := set p | p in pods && pods[p].node == Some(n);
      var listed := Enumerate(chosen);
      for i := 0 to |listed|
        invariant pods.Keys == old(pods).Keys
        invariant forall p :: p in pods ==> pods[p] == if p in listed[..i] then RequeuedFrom(old(View(now)), {n}, old(pods)[p]) else old(pods)[p]
      {
        var p := listed[i];
        assert p in listed;
        assert p !in listed[..i];
        assert listed[..i + 1] == listed[..i] + [p];
        Requeue(p, now);
      }
      assert listed[..|listed|] == listed;
    }

    /** Gives node `n` up if it has been silent for too long, and takes its pods off it. */
    method CheckNode(n: string, listed: Node, now: Time)
      requires n in nodes && nodes[n] == listed
      modifies this`pods, this`nodes
      ensures View(now) == GiveUpIfLost(old(View(now)), n)
    {
      var timedOut := now - listed.lastHeartbeat > timeout;
      if listed.status == Healthy && timedOut {
        var _ := TransitionNode(n, Unhealthy, now);
        ReschedulePodsFor(n, now);
      } else if listed.status == Draining && timedOut {
        var _ := TransitionNode(n, Removed, now);
        ReschedulePodsFor(n, now);
      }
    }

    /** The second pass: nodes silent for too long are given up and their pods taken off them. */
    method DetectUnhealthyNodes(now: Time)
      modifies this`pods, this`nodes
      ensures View(now) == DetectLost(old(View(now)))
      ensures nodes.Keys == old(nodes).Keys
      ensures forall n :: n in nodes ==>
                nodes[n] == if old(nodes)[n].status == Healthy && now - old(nodes)[n].lastHeartbeat > timeout
                            then old(nodes)[n].(status := Unhealthy)
                            else if old(nodes)[n].status == Draining && now - old(nodes)[n].lastHeartbeat > timeout
                            then old(nodes)[n].(status := Removed)
                            else old(nodes)[n]
    {
      var order, listed := ListNodes();
      LostAmongNone(View(now));
      for i := 0 to |order|
        invariant View(now) == LostAmong(old(View(now)), order[..i])
      {
        assert order[i] in order;
        assert order[i] !in order[..i];
        LostAmongUnvisited(old(View(now)), order[..i], order[i]);
        LostAmongStep(old(View(now)), order[..i], order[i]);
        assert order[..i + 1] == order[..i] + [order[i]];
        CheckNode(order[i], listed[i], now);
      }
      assert order[..|order|] == order;
      LostAmongAll(old(View(now)), order);
    }

    /** A whole reconciler tick: the state machine's Reconcile event. */
    method ReconcilerTick(ids: IdSource, now: Time) returns (ghost order: seq<string>, ghost newest: map<string, seq<string>>)
      modifies this`pods, this`deployments, this`nodes
      ensures Enabled(old(View(now)), Reconcile(order, newest, ids))
      ensures View(now) == Apply(old(View(now)), Reconcile(order, newest, ids))
    {
      order, newest := ReconcileDeployments(ids, now);
      DetectUnhealthyNodes(now);
    }
  }

  // ----- counting

  /** Active pods, whether there is a dead letter, and cancellable pods of `d` among `ids`. */
  function Tally(ids: seq<string>, pods: map<string, Pod>, d: string): (nat, bool, seq<string>)
    requires forall i :: 0 <= i < |ids| ==> ids[i] in pods
  {
    if ids == [] then (0, false, [])
    else
      var (active, dead, cancellable) := Tally(ids[..|ids| - 1], pods, d);
      var p := ids[|ids| - 1];
      if pods[p].deployment != d then (active, dead, cancellable)
      else
        (if Active(pods[p].status) then active + 1 else active,
         dead || pods[p].status == DeadLetter,
         if pods[p].status == Pending || pods[p].status == Scheduled then cancellable + [p] else cancellable)
  }

  function ActiveAmong(ids: seq<string>, c: Cluster, d: string): set<string> {
    set p | p in ids && p in ActivePods(c, d)
  }

  lemma ActiveAmongGrows(ids: seq<string>, p: string, c: Cluster, d: string)
    requires p !in ids
    ensures |ActiveAmong(ids + [p], c, d)| == |ActiveAmong(ids, c, d)| + if p in ActivePods(c, d) then 1 else 0
  {
    assert ActiveAmong(ids + [p], c, d) == if p in ActivePods(c, d) then ActiveAmong(ids, c, d) + {p} else ActiveAmong(ids, c, d);
  }

  lemma {:induction false} TallyActive(ids: seq<string>, c: Cluster, d: string)
    requires Distinct(ids) && forall i :: 0 <= i < |ids| ==> ids[i] in c.pods
    ensures Tally(ids, c.pods, d).0 == |ActiveAmong(ids, c, d)|
  {
    if ids == [] {
      assert ActiveAmong(ids, c, d) == {};
    } else {
      var front, p := ids[..|ids| - 1], ids[|ids| - 1];
      TallyActive(front, c, d);
      assert p !in front;
      assert ids == front + [p];
      ActiveAmongGrows(front, p, c, d);
    }
  }

  lemma {:induction false} TallyRest(ids: seq<string>, c: Cluster, d: string)
    requires Distinct(ids) && forall i :: 0 <= i < |ids| ==> ids[i] in c.pods
    ensures Tally(ids, c.pods, d).1 <==> exists p :: p in ids && c.pods[p].deployment == d && c.pods[p].status == DeadLetter
    ensures Distinct(Tally(ids, c.pods, d).2)
    ensures forall p :: p in Tally(ids, c.pods, d).2 <==> p in ids && p in Cancellable(c, d)
  {
    if ids == [] {
    } else {
      var front, p := ids[..|ids| - 1], ids[|ids| - 1];
      TallyRest(front, c, d);
      assert p !in front;
      assert ids == front + [p];
    }
  }

  lemma TallyCounts(ids: seq<string>, c: Cluster, d: string)
    requires Enumerates(ids, c.pods.Keys)
    requires forall i :: 0 <= i < |ids| ==> ids[i] in c.pods
    ensures Tally(ids, c.pods, d).0 == |ActivePods(c, d)|
    ensures Tally(ids, c.pods, d).1 <==> HasDeadLetter(c, d)
    ensures Enumerates(Tally(ids, c.pods, d).2, Cancellable(c, d))
  {
    TallyActive(ids, c, d);
    TallyRest(ids, c, d);
    assert ActiveAmong(ids, c, d) == ActivePods(c, d);
  }

  // ----- listings during the first pass

  /** `d`'s pods are the same in both, so a listing of one is a listing of the other. */
  ghost predicate SameListing(c: Cluster, t: Cluster, d: string) {
    && (forall p :: p in c.pods && c.pods[p].deployment == d ==> p in t.pods && t.pods[p] == c.pods[p])
    && (forall p :: p in t.pods && t.pods[p].deployment == d ==> p in c.pods && t.pods[p] == c.pods[p])
  }

  lemma ListingMoves(c: Cluster, t: Cluster, d: string, newest: seq<string>)
    requires SameListing(c, t, d) && Enumerates(newest, Cancellable(t, d)) && NewestFirst(t, newest)
    ensures Enumerates(newest, Cancellable(c, d)) && NewestFirst(c, newest)
  {
    assert Cancellable(t, d) == Cancellable(c, d);
    forall i | 0 <= i < |newest| ensures newest[i] in Cancellable(c, d) {
      assert newest[i] in newest;
    }
  }

  lemma LocalKeepsListing(c: Cluster, b: Cluster, t: Cluster, d: string, e: string)
    requires SameListing(c, b, e) && CpReconcile.PodsLocal(b, t, d) && e != d
    ensures SameListing(c, t, e)
  {
  }

  /** Listings of deployments not in the order play no part. */
  lemma {:induction false} NewestIrrelevant(c: Cluster, order: seq<string>, newest: map<string, seq<string>>, d: string, listed: seq<string>, ids: IdSource)
    requires d !in order
    ensures ReconcileAll(c, order, newest[d := listed], ids) == ReconcileAll(c, order, newest, ids)
    decreases |order|
  {
    if order == [] {
    } else {
      NewestIrrelevant(c, order[..|order| - 1], newest, d, listed, ids);
    }
  }

  /** A pass over `all` has dealt with the first i deployments: `at` is the outcome so far, `newest`
      holds their listings, and the other deployments' pods are as when the pass began. */
  ghost predicate Passing(start: Cluster, at: Cluster, all: seq<string>, i: nat, newest: map<string, seq<string>>, ids: IdSource)
    requires i <= |all|
  {
    && at == ReconcileAll(start, all[..i], newest, ids)
    && (forall j :: 0 <= j < i ==> all[j] in newest && Enumerates(newest[all[j]], Cancellable(start, all[j]))
                                   && NewestFirst(start, newest[all[j]]))
    && (forall e :: e !in all[..i] ==> SameListing(start, at, e))
  }

  /** The next deployment of a pass finds its pods as they were when the pass began. */
  lemma PassStep(start: Cluster, at: Cluster, all: seq<string>, i: nat, newest: map<string, seq<string>>, listed: seq<string>, ids: IdSource)
    requires i < |all| && Distinct(all) && Passing(start, at, all, i, newest, ids)
    requires Enumerates(listed, Cancellable(at, all[i])) && NewestFirst(at, listed)
    ensures Passing(start, ReconcileOne(at, all[i], listed, ids), all, i + 1, newest[all[i] := listed], ids)
  {
    var d := all[i];
    assert d !in all[..i];
    assert all[..i + 1] == all[..i] + [d];
    assert all[..i + 1][..i] == all[..i];
    ListingMoves(start, at, d, listed);
    NewestIrrelevant(start, all[..i], newest, d, listed, ids);
    CpReconcile.ReconcileOneLocal(at, d, listed, ids);
    forall e | e !in all[..i + 1] ensures SameListing(start, ReconcileOne(at, d, listed, ids), e) {
      assert e !in all[..i] && e != d;
      LocalKeepsListing(start, at, ReconcileOne(at, d, listed, ids), d, e);
    }
  }

  // ----- lost nodes, one by one

  /** The pod's record once the nodes in `gone` are given up. */
  function RequeuedFrom(c: Cluster, gone: set<string>, pod: Pod): Pod {
    if pod.node.Some? && pod.node.value in gone then Requeued(pod, MaxRetries(c, pod.deployment), c.clock) else pod
  }

  /** The second pass's body, for one node. */
  ghost function GiveUpIfLost(c: Cluster, n: string): Cluster
    requires n in c.nodes
  {
    if !Lost(c.nodes[n], c.clock, c.timeout) then c
    else c.(nodes := c.nodes[n := Marked(c.nodes[n], c.clock, c.timeout)],
            pods := map p | p in c.pods :: RequeuedFrom(c, {n}, c.pods[p]))
  }

  function LostOf(c: Cluster, ids: seq<string>): set<string> {
    set n | n in ids && n in c.nodes && Lost(c.nodes[n], c.clock, c.timeout)
  }

  /** The cluster once the nodes in `ids` have been looked at. */
  ghost function LostAmong(c: Cluster, ids: seq<string>): Cluster {
    c.(nodes := map n | n in c.nodes :: if n in ids then Marked(c.nodes[n], c.clock, c.timeout) else c.nodes[n],
       pods := map p | p in c.pods :: RequeuedFrom(c, LostOf(c, ids), c.pods[p]))
  }

  lemma LostAmongNone(c: Cluster)
    ensures LostAmong(c, []) == c
  {
    assert LostOf(c, []) == {};
  }

  lemma LostAmongUnvisited(c: Cluster, ids: seq<string>, n: string)
    requires n in c.nodes && n !in ids
    ensures n in LostAmong(c, ids).nodes && LostAmong(c, ids).nodes[n] == c.nodes[n]
  {
  }

  lemma LostAmongAll(c: Cluster, ids: seq<string>)
    requires Enumerates(ids, c.nodes.Keys)
    ensures LostAmong(c, ids) == DetectLost(c)
  {
    forall p | p in c.pods ensures RequeuedFrom(c, LostOf(c, ids), c.pods[p]) == AfterLoss(c, c.pods[p]) {
    }
    assert LostAmong(c, ids).pods == DetectLost(c).pods;
    assert LostAmong(c, ids).nodes == DetectLost(c).nodes;
  }

  /** A pod taken off an earlier node is not on this one, so the walk adds up. */
  lemma RequeuedOnce(c: Cluster, gone: set<string>, n: string, pod: Pod)
    requires n !in gone
    ensures RequeuedFrom(c, {n}, RequeuedFrom(c, gone, pod)) == RequeuedFrom(c, gone + {n}, pod)
  {
  }

  lemma LostAmongStep(c: Cluster, ids: seq<string>, n: string)
    requires n in c.nodes && n !in ids
    ensures GiveUpIfLost(LostAmong(c, ids), n) == LostAmong(c, ids + [n])
  {
    var b := LostAmong(c, ids);
    assert b.nodes[n] == c.nodes[n];
    if Lost(c.nodes[n], c.clock, c.timeout) {
      assert LostOf(c, ids + [n]) == LostOf(c, ids) + {n};
      forall p | p in c.pods ensures GiveUpIfLost(b, n).pods[p] == LostAmong(c, ids + [n]).pods[p] {
        RequeuedOnce(c, LostOf(c, ids), n, c.pods[p]);
      }
      assert GiveUpIfLost(b, n).nodes == LostAmong(c, ids + [n]).nodes;
      assert GiveUpIfLost(b, n).pods == LostAmong(c, ids + [n]).pods;
    } else {
      assert LostOf(c, ids + [n]) == LostOf(c, ids);
      assert b.nodes == LostAmong(c, ids + [n]).nodes;
    }
  }

  /** Reordering an enumeration gives an enumeration. */
  lemma SortedEnumeration(sorted: seq<string>, ids: seq<string>, members: set<string>, le: (string, string) -> bool)
    requires Enumerates(ids, members) && IsSortOf(sorted, ids, le)
    ensures Enumerates(sorted, members)
  {
    SortHasSameElements(sorted, ids, le);
    SortKeepsDistinct(sorted, ids, le);
  }
}
