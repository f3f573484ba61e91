/** What a scheduling tick achieves. */
module CpScheduling {
  import opened Options
  import opened CpModel
  import opened CpCluster
  import opened CpInvariant
  import opened Listing

  // ----- choosing a node

  /** The node is HEALTHY, may take one more pod, and has this much left of everything. */
  predicate HealthyWithRoom(node: Node, required: Resources) {
    && node.status == Healthy && (node.maxConcurrent <= 0 || node.running < node.maxConcurrent)
    && node.available.cpu >= required.cpu && node.available.memory >= required.memory
  }

  /** Node `a` comes before `b`: fewer running pods, or as many and no later registration. */
  predicate NoMoreLoaded(a: Node, b: Node) {
    a.running < b.running || (a.running == b.running && a.registeredAt <= b.registeredAt)
  }

  lemma EligibleIsRoom(node: Node, required: Resources)
    ensures Eligible(node, required) <==> HealthyWithRoom(node, required)
  {
  }

  /** No node is chosen exactly when none is HEALTHY with room. */
  lemma {:induction false} SelectsIfPossible(nodes: map<string, Node>, order: seq<string>, required: Resources)
    ensures SelectNode(nodes, order, required) == None
            <==> forall n :: n in order && n in nodes ==> !HealthyWithRoom(nodes[n], required)
  {
    if order == [] {
    } else {
      var front, last := order[..|order| - 1], order[|order| - 1];
      assert order == front + [last];
      SelectsIfPossible(nodes, front, required);
    }
  }

  /** The chosen node is HEALTHY with room and, of all that are, one with fewest running pods and, among
      those, an earliest registered. */
  lemma {:induction false} SelectsLeastLoaded(nodes: map<string, Node>, order: seq<string>, required: Resources)
    requires SelectNode(nodes, order, required).Some?
    ensures var best := SelectNode(nodes, order, required).value;
            && best in order && best in nodes && HealthyWithRoom(nodes[best], required)
            && (forall n :: n in order && n in nodes && HealthyWithRoom(nodes[n], required)
                            ==> nodes[best].running < nodes[n].running
                                || (nodes[best].running == nodes[n].running && nodes[best].registeredAt <= nodes[n].registeredAt))
  {
    var front, last := order[..|order| - 1], order[|order| - 1];
    assert order == front + [last];
    SelectsIfPossible(nodes, front, required);
    if SelectNode(nodes, front, required).Some? {
      SelectsLeastLoaded(nodes, front, required);
    }
  }

  // ----- capacity only shrinks during a tick

  predicate NodeShrunk(a: Node, b: Node) {
    && b == a.(available := b.available, running := b.running)
    && a.available.Covers(b.available) && a.running <= b.running
  }

  ghost predicate Shrunk(a: map<string, Node>, b: map<string, Node>) {
    a.Keys == b.Keys && forall n :: n in a ==> NodeShrunk(a[n], b[n])
  }

  lemma ShrunkEligible(a: map<string, Node>, b: map<string, Node>, n: string, required: Resources)
    requires Shrunk(a, b) && n in b && Eligible(b[n], required)
    ensures Eligible(a[n], required)
  {
    assert NodeShrunk(a[n], b[n]);
  }

  ghost predicate RequestsNonNegative(c: Cluster) {
    forall d :: d in c.deployments ==> c.deployments[d].resources.NonNegative()
  }

  /** What a step of the tick does not touch. */
  ghost predicate TickStep(c: Cluster, t: Cluster) {
    && Shrunk(c.nodes, t.nodes) && t.deployments == c.deployments && t.clock == c.clock
    && t.pods.Keys == c.pods.Keys
    && forall p :: p in c.pods ==> Placed(c.pods[p], t.pods[p])
  }

  predicate Placed(before: Pod, after: Pod) {
    after == before || (before.status == Pending && after == before.(status := Scheduled, node := after.node))
  }

  lemma OneIsTickStep(c: Cluster, p: string, order: seq<string>)
    requires RequestsNonNegative(c)
    ensures TickStep(c, ScheduleOne(c, p, order))
    ensures forall q :: q in c.pods && q != p ==> ScheduleOne(c, p, order).pods[q] == c.pods[q]
  {
  }

  lemma TickStepsCompose(a: Cluster, b: Cluster, c: Cluster)
    requires TickStep(a, b) && TickStep(b, c)
    ensures TickStep(a, c)
  {
    forall n | n in a.nodes ensures NodeShrunk(a.nodes[n], c.nodes[n]) {
      assert NodeShrunk(a.nodes[n], b.nodes[n]) && NodeShrunk(b.nodes[n], c.nodes[n]);
    }
    forall p | p in a.pods ensures Placed(a.pods[p], c.pods[p]) {
      assert Placed(a.pods[p], b.pods[p]) && Placed(b.pods[p], c.pods[p]);
    }
  }

  /** The tick from position k on. */
  lemma {:induction false} TailIsTickStep(c: Cluster, pending: seq<string>, order: seq<string>, k: nat)
    requires RequestsNonNegative(c) && k <= |pending|
    ensures TickStep(ScheduleAll(c, pending[..k], order), ScheduleAll(c, pending, order))
    ensures ScheduleAll(c, pending[..k], order).deployments == c.deployments
    ensures forall q :: q in ScheduleAll(c, pending[..k], order).pods && q !in pending[k..]
                        ==> ScheduleAll(c, pending, order).pods[q] == ScheduleAll(c, pending[..k], order).pods[q]
    decreases |pending|
  {
    var b := ScheduleAll(c, pending[..k], order);
    if pending == [] || k == |pending| {
      assert pending[..k] == pending;
      DeploymentsKept(c, pending, order);
    } else {
      var front, p := pending[..|pending| - 1], pending[|pending| - 1];
      assert front[..k] == pending[..k];
      TailIsTickStep(c, front, order, k);
      var m := ScheduleAll(c, front, order);
      OneIsTickStep(m, p, order);
      TickStepsCompose(b, m, ScheduleOne(m, p, order));
      assert pending[k..] == front[k..] + [p];
    }
  }

  lemma {:induction false} DeploymentsKept(c: Cluster, pending: seq<string>, order: seq<string>)
    ensures ScheduleAll(c, pending, order).deployments == c.deployments
    decreases |pending|
  {
    if pending == [] {
    } else {
      DeploymentsKept(c, pending[..|pending| - 1], order);
    }
  }

  // ----- the turn of one pod

  /** The cluster when it is the turn of the pod at position i. */
  function AtTurn(c: Cluster, pending: seq<string>, order: seq<string>, i: nat): Cluster
    requires i < |pending|
  {
    ScheduleAll(c, pending[..i], order)
  }

  /** A pod's fate is settled at its turn, against what is then free: it comes to its turn as it
      began, and leaves the tick as it left its turn. */
  lemma FateAtTurn(c: Cluster, pending: seq<string>, order: seq<string>, i: nat)
    requires RequestsNonNegative(c) && i < |pending| && Distinct(pending) && pending[i] in c.pods
    ensures var b, t, p := AtTurn(c, pending, order, i), ScheduleAll(c, pending, order), pending[i];
            && TickStep(c, b) && p in b.pods && p in t.pods
            && b.pods[p] == c.pods[p] && t.pods[p] == ScheduleOne(b, p, order).pods[p]
            && Shrunk(ScheduleOne(b, p, order).nodes, t.nodes) && Shrunk(b.nodes, t.nodes)
            && RequestOf(b, p) == RequestOf(c, p)
  {
    ComesAsItBegan(c, pending, order, i);
    LeavesAsItTurned(c, pending, order, i);
    TailIsTickStep(c, pending, order, i);
  }

  lemma ComesAsItBegan(c: Cluster, pending: seq<string>, order: seq<string>, i: nat)
    requires RequestsNonNegative(c) && i < |pending| && Distinct(pending) && pending[i] in c.pods
    ensures var b, p := AtTurn(c, pending, order, i), pending[i];
            TickStep(c, b) && p in b.pods && b.pods[p] == c.pods[p] && RequestOf(b, p) == RequestOf(c, p)
  {
    TailIsTickStep(c, pending[..i], order, 0);
    assert pending[..i][..0] == [];
    assert pending[i] !in pending[..i][0..];
  }

  lemma LeavesAsItTurned(c: Cluster, pending: seq<string>, order: seq<string>, i: nat)
    requires RequestsNonNegative(c) && i < |pending| && Distinct(pending) && pending[i] in AtTurn(c, pending, order, i).pods
    ensures var a, t, p := ScheduleOne(AtTurn(c, pending, order, i), pending[i], order), ScheduleAll(c, pending, order), pending[i];
            p in a.pods && p in t.pods && t.pods[p] == a.pods[p] && Shrunk(a.nodes, t.nodes)
  {
    TailIsTickStep(c, pending, order, i + 1);
    assert pending[..i + 1][..i] == pending[..i];
    assert pending[i] !in pending[i + 1..];
    assert ScheduleAll(c, pending[..i + 1], order) == ScheduleOne(AtTurn(c, pending, order, i), pending[i], order);
  }

  lemma RequestsFromInv(c: Cluster)
    requires Inv(c)
    ensures RequestsNonNegative(c)
  {
    forall d | d in c.deployments ensures c.deployments[d].resources.NonNegative() {
      assert DeploymentInv(c, d);
    }
  }

  /** The pod at position i is past its backoff. */
  predicate ReadyAt(c: Cluster, pending: seq<string>, i: nat) {
    i < |pending| && pending[i] in c.pods && GateOpen(c.pods[pending[i]], c.clock)
  }

  /** A ready pod is scheduled at its turn exactly when some healthy node has room for it then. */
  lemma ScheduledIff(c: Cluster, pending: seq<string>, order: seq<string>, i: nat)
    requires Inv(c) && Enabled(c, Schedule(pending, order)) && ReadyAt(c, pending, i)
    ensures var b, t, p := AtTurn(c, pending, order, i), ScheduleAll(c, pending, order), pending[i];
            && p in t.pods && t.pods[p].status in {Pending, Scheduled} && b.nodes.Keys == t.nodes.Keys
            && (t.pods[p].status == Scheduled <==> exists n :: n in b.nodes && HealthyWithRoom(b.nodes[n], RequestOf(c, p)))
  {
    var b, p := AtTurn(c, pending, order, i), pending[i];
    assert p in pending;
    RequestsFromInv(c);
    FateAtTurn(c, pending, order, i);
    SelectsIfPossible(b.nodes, order, RequestOf(c, p));
  }

  /** Work conservation: a ready pod the tick leaves PENDING fits no healthy node, not even with
      what is free at the end. */
  lemma WorkConserving(c: Cluster, pending: seq<string>, order: seq<string>, p: string, n: string)
    requires Inv(c) && Enabled(c, Schedule(pending, order))
    requires p in c.pods && c.pods[p].status == Pending && (c.pods[p].runAfter == None || c.pods[p].runAfter.value <= c.clock)
    requires var t := ScheduleAll(c, pending, order);
             p in t.pods && t.pods[p].status == Pending && n in t.nodes
    ensures !HealthyWithRoom(ScheduleAll(c, pending, order).nodes[n], RequestOf(c, p))
  {
    assert p in InStatus(c, Pending);
    var i :| 0 <= i < |pending| && pending[i] == p;
    ScheduledIff(c, pending, order, i);
    NodesShrink(c, pending, order, i);
    var b, t := AtTurn(c, pending, order, i), ScheduleAll(c, pending, order);
    if Eligible(t.nodes[n], RequestOf(c, p)) {
      ShrunkEligible(b.nodes, t.nodes, n, RequestOf(c, p));
    }
  }

  lemma NodesShrink(c: Cluster, pending: seq<string>, order: seq<string>, i: nat)
    requires Inv(c) && Enabled(c, Schedule(pending, order)) && ReadyAt(c, pending, i)
    ensures Shrunk(AtTurn(c, pending, order, i).nodes, ScheduleAll(c, pending, order).nodes)
    ensures RequestOf(c, pending[i]).NonNegative()
  {
    RequestsFromInv(c);
    FateAtTurn(c, pending, order, i);
  }

  /** First come, first served up to size: when a pod is scheduled, so is every ready pod that was
      ahead of it and asks for no more in any respect. */
  lemma DominanceFifo(c: Cluster, pending: seq<string>, order: seq<string>, i: nat, j: nat)
    requires Inv(c) && Enabled(c, Schedule(pending, order)) && i < j < |pending|
    requires ReadyAt(c, pending, i) && ReadyAt(c, pending, j)
    requires RequestOf(c, pending[j]).Covers(RequestOf(c, pending[i]))
    requires var t := ScheduleAll(c, pending, order);
             pending[j] in t.pods && t.pods[pending[j]].status == Scheduled
    ensures pending[i] in ScheduleAll(c, pending, order).pods
    ensures ScheduleAll(c, pending, order).pods[pending[i]].status == Scheduled
  {
    ScheduledIff(c, pending, order, i);
    ScheduledIff(c, pending, order, j);
    RequestsFromInv(c);
    var bi, bj := AtTurn(c, pending, order, i), AtTurn(c, pending, order, j);
    LaterTurn(c, pending, order, i, j);
    var n :| n in bj.nodes && HealthyWithRoom(bj.nodes[n], RequestOf(c, pending[j]));
    assert Eligible(bj.nodes[n], RequestOf(c, pending[i]));
    ShrunkEligible(bi.nodes, bj.nodes, n, RequestOf(c, pending[i]));
  }

  /** A later turn finds no node with more room. */
  lemma LaterTurn(c: Cluster, pending: seq<string>, order: seq<string>, i: nat, j: nat)
    requires RequestsNonNegative(c) && i < j < |pending|
    ensures Shrunk(AtTurn(c, pending, order, i).nodes, AtTurn(c, pending, order, j).nodes)
  {
    TailIsTickStep(c, pending[..j], order, i);
    assert pending[..j][..i] == pending[..i];
  }

  /** Age comes before size: of two ready pods, an older one that asks for no more is not passed over. */
  lemma OlderFirst(c: Cluster, pending: seq<string>, order: seq<string>, p: string, q: string)
    requires Inv(c) && Enabled(c, Schedule(pending, order)) && p in c.pods && q in c.pods
    requires c.pods[p].status == Pending && (c.pods[p].runAfter == None || c.pods[p].runAfter.value <= c.clock)
    requires c.pods[q].status == Pending && (c.pods[q].runAfter == None || c.pods[q].runAfter.value <= c.clock)
    requires c.pods[p].createdAt < c.pods[q].createdAt
    requires RequestOf(c, p).cpu <= RequestOf(c, q).cpu && RequestOf(c, p).memory <= RequestOf(c, q).memory
    requires var t := ScheduleAll(c, pending, order);
             q in t.pods && t.pods[q].status == Scheduled
    ensures p in ScheduleAll(c, pending, order).pods && ScheduleAll(c, pending, order).pods[p].status == Scheduled
  {
    assert p in InStatus(c, Pending) && q in InStatus(c, Pending);
    var i :| 0 <= i < |pending| && pending[i] == p;
    var j :| 0 <= j < |pending| && pending[j] == q;
    assert c.pods[pending[i]].createdAt < c.pods[pending[j]].createdAt;
    DominanceFifo(c, pending, order, i, j);
  }

  /** At its turn a ready pod that finds room goes to a node no more loaded than any other with room, takes
      what it asks for there and one running slot; no other node changes. */
  lemma TurnPlaces(b: Cluster, p: string, order: seq<string>)
    requires Enumerates(order, b.nodes.Keys) && p in b.pods && b.pods[p].status == Pending && GateOpen(b.pods[p], b.clock)
    requires ScheduleOne(b, p, order).pods[p].status == Scheduled
    ensures ScheduleOne(b, p, order).pods[p].node.Some?
    ensures var a, n, required := ScheduleOne(b, p, order), ScheduleOne(b, p, order).pods[p].node.value, RequestOf(b, p);
            && a.pods[p] == b.pods[p].(status := Scheduled, node := Some(n))
            && n in b.nodes && HealthyWithRoom(b.nodes[n], required)
            && (forall m :: m in b.nodes && HealthyWithRoom(b.nodes[m], required) ==> NoMoreLoaded(b.nodes[n], b.nodes[m]))
            && a.nodes == b.nodes[n := a.nodes[n]] && TakesPod(b.nodes[n], a.nodes[n], required)
  {
    SelectsIfPossible(b.nodes, order, RequestOf(b, p));
    SelectsLeastLoaded(b.nodes, order, RequestOf(b, p));
  }

  /** The node after it took on a pod. */
  predicate TakesPod(before: Node, after: Node, required: Resources) {
    && after == before.(running := before.running + 1, available := after.available)
    && after.available.cpu == before.available.cpu - required.cpu
    && after.available.memory == before.available.memory - required.memory
  }

  /** A pod scheduled by a tick is on a node that, at its turn, was HEALTHY with room and had no more running
      pods than any other such node. */
  lemma PlacedOnLeastLoaded(c: Cluster, pending: seq<string>, order: seq<string>, i: nat)
    requires Inv(c) && Enabled(c, Schedule(pending, order)) && ReadyAt(c, pending, i)
    requires var t := ScheduleAll(c, pending, order);
             pending[i] in t.pods && t.pods[pending[i]].status == Scheduled
    ensures var b, t, p := AtTurn(c, pending, order, i), ScheduleAll(c, pending, order), pending[i];
            && t.pods[p].node.Some? && t.pods[p] == c.pods[p].(status := Scheduled, node := t.pods[p].node)
            && var n := t.pods[p].node.value;
            && n in b.nodes && HealthyWithRoom(b.nodes[n], RequestOf(c, p))
            && (forall m :: m in b.nodes && HealthyWithRoom(b.nodes[m], RequestOf(c, p))
                            ==> b.nodes[n].running < b.nodes[m].running
                                || (b.nodes[n].running == b.nodes[m].running && b.nodes[n].registeredAt <= b.nodes[m].registeredAt))
  {
    var b, p := AtTurn(c, pending, order, i), pending[i];
    assert p in pending;
    RequestsFromInv(c);
    FateAtTurn(c, pending, order, i);
    TurnPlaces(b, p, order);
  }

  /** A pod still inside its backoff is left alone. */
  lemma GateHolds(c: Cluster, pending: seq<string>, order: seq<string>, p: string)
    requires Inv(c) && Enabled(c, Schedule(pending, order)) && p in c.pods
    requires c.pods[p].runAfter.Some? && c.pods[p].runAfter.value > c.clock
    ensures p in ScheduleAll(c, pending, order).pods && ScheduleAll(c, pending, order).pods[p] == c.pods[p]
  {
    RequestsFromInv(c);
    GatedStays(c, pending, order, p);
  }

  lemma {:induction false} GatedStays(c: Cluster, pending: seq<string>, order: seq<string>, p: string)
    requires RequestsNonNegative(c) && p in c.pods && !GateOpen(c.pods[p], c.clock)
    ensures var t := ScheduleAll(c, pending, order);
            p in t.pods && t.pods[p] == c.pods[p] && t.clock == c.clock && RequestsNonNegative(t)
    decreases |pending|
  {
    if pending == [] {
    } else {
      GatedStays(c, pending[..|pending| - 1], order, p);
      OneIsTickStep(ScheduleAll(c, pending[..|pending| - 1], order), pending[|pending| - 1], order);
    }
  }
}
