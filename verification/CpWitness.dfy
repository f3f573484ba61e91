/** Runs from an empty cluster that reach what the documents say does not happen, or not for long. One
    deployment "d" of one replica, its pod "p" and one node "n". */
module CpWitness {
  import opened Options
  import opened CpModel
  import opened CpCluster
  import opened CpInvariant
  import opened CpTheorems
  import opened Listing
  import Backoff

  /** One more event at the end of a run. */
  lemma {:induction false} Extend(s: Cluster, es: seq<Event>, e: Event)
    requires Runs(s, es) && Enabled(After(s, es), e)
    ensures Runs(s, es + [e]) && After(s, es + [e]) == Apply(After(s, es), e)
    decreases |es|
  {
    if es == [] {
      assert ([] + [e])[1..] == [];
    } else {
      assert (es + [e])[0] == es[0] && (es + [e])[1..] == es[1..] + [e];
      Extend(Apply(s, es[0]), es[1..], e);
    }
  }

  /** The run leads from an empty cluster with no patience for silent nodes to `c`. */
  ghost predicate Reaches(s: Cluster, es: seq<Event>, c: Cluster) {
    Initial(s) && Runs(s, es) && After(s, es) == c
  }

  lemma Then(s: Cluster, es: seq<Event>, c: Cluster, e: Event) returns (longer: seq<Event>)
    requires Reaches(s, es, c) && Enabled(c, e)
    ensures Reaches(s, longer, Apply(c, e))
  {
    Extend(s, es, e);
    longer := es + [e];
  }

  /** The cluster holds just this deployment, pod and node. */
  ghost predicate Lone(c: Cluster, d: Deployment, pod: Pod, node: Node) {
    && c.deployments == map["d" := d] && c.pods == map["p" := pod] && c.nodes == map["n" := node] && c.timeout == 0
    && pod.deployment == "d" && pod.exitCode == None && pod.output == ""
  }

  function Repeat(id: string): seq<string> {
    [id, id, id, id, id]
  }

  function Always(id: string): IdSource {
    (_, _) => id
  }

  const TICK := Reconcile(["d"], map["d" := []], Always("p"))
  const LATER_TICK := Reconcile(["d"], map["d" := []], Always("q"))

  // ----- single steps

  lemma PodsOfLone(c: Cluster, d: Deployment, pod: Pod, node: Node)
    requires Lone(c, d, pod, node)
    ensures ActivePods(c, "d") == if Active(pod.status) then {"p"} else {}
    ensures Cancellable(c, "d") == if pod.status == Pending || pod.status == Scheduled then {"p"} else {}
    ensures HasDeadLetter(c, "d") <==> pod.status == DeadLetter
  {
    assert "p" in c.pods && c.pods["p"] == pod;
  }

  lemma PlacesPod(c: Cluster, d: Deployment, pod: Pod, node: Node)
    requires Lone(c, d, pod, node) && pod.status == Pending && GateOpen(pod, c.clock) && Eligible(node, d.resources)
    ensures Enabled(c, Schedule(["p"], ["n"]))
    ensures Lone(Apply(c, Schedule(["p"], ["n"])), d, pod.(status := Scheduled, node := Some("n")),
                 node.(available := node.available.Minus(d.resources), running := node.running + 1))
    ensures Apply(c, Schedule(["p"], ["n"])).clock == c.clock
  {
    assert InStatus(c, Pending) == {"p"};
    assert ["p"][..0] == [] && ["n"][..0] == [];
    assert ScheduleAll(c, [], ["n"]) == c;
    assert SelectNode(c.nodes, [], d.resources) == None;
    assert SelectNode(c.nodes, ["n"], d.resources) == Some("n");
  }

  lemma PicksUp(c: Cluster, d: Deployment, pod: Pod, node: Node)
    requires Lone(c, d, pod, node) && pod.status == Scheduled && pod.node == Some("n")
    ensures Enabled(c, PickUp("n", "p")) && Lone(Apply(c, PickUp("n", "p")), d, pod, node)
    ensures ("n", "p") in Apply(c, PickUp("n", "p")).polled && Apply(c, PickUp("n", "p")).clock == c.clock
  {
  }

  lemma Tells(c: Cluster, d: Deployment, pod: Pod, node: Node, status: PodStatus)
    requires Lone(c, d, pod, node) && ("n", "p") in c.polled && PodAllowed(pod.status, status) && (status == Running || status == Failed)
    ensures var e, t := Tell("n", "p", status, None, ""), Apply(c, Tell("n", "p", status, None, ""));
            Enabled(c, e) && t.pods == map["p" := pod.(status := status)] && t.clock == c.clock
            && (status == Running ==> Lone(t, d, pod.(status := status), node))
  {
    assert c.pods["p" := pod]["p" := pod.(status := status)] == map["p" := pod.(status := status)];
  }

  /** A tick on a deployment whose one slot is taken only gives up the node, if it was silent. */
  lemma TicksPod(c: Cluster, d: Deployment, pod: Pod, node: Node)
    requires Lone(c, d, pod, node) && d.replicas == 1 && d.status == DeploymentActive && pod.status == Running && pod.node == Some("n")
    requires Lost(node, c.clock, 0)
    ensures Enabled(c, TICK)
    ensures Lone(Apply(c, TICK), d, Requeued(pod, d.maxRetries, c.clock), Marked(node, c.clock, 0))
    ensures Apply(c, TICK).clock == c.clock
  {
    PodsOfLone(c, d, pod, node);
    assert ["d"][..0] == [];
    assert ReconcileAll(c, [], TICK.newest, TICK.source) == c;
    assert ReconcileOne(c, "d", [], TICK.source) == c;
    assert ReconcileAll(c, ["d"], TICK.newest, TICK.source) == c;
  }

  /** A silent spell long enough, then a sign of life. */
  lemma ComesBack(c: Cluster, d: Deployment, pod: Pod, node: Node, wait: nat)
    requires Lone(c, d, pod, node) && node.status == Unhealthy
    ensures var t := Apply(Apply(c, Advance(wait)), Beat("n", 0));
            && Lone(t, d, pod, node.(status := Healthy, running := 0, lastHeartbeat := c.clock + wait))
            && t.clock == c.clock + wait
  {
  }

  // ----- from nothing to a running pod

  const EMPTY := Cluster(map[], map[], map[], 0, 0, [], {})

  function Fresh(capacity: Resources): Node {
    Node(Healthy, capacity, capacity, 0, 0, 0, 0)
  }

  lemma FirstTick(c: Cluster, d: Deployment, node: Node)
    requires c.deployments == map["d" := d] && c.pods == map[] && c.nodes == map["n" := node] && c.timeout == 0
    requires d.replicas == 1 && d.status == DeploymentPending && !Lost(node, c.clock, 0)
    ensures Enabled(c, TICK) && Apply(c, TICK).clock == c.clock
    ensures Lone(Apply(c, TICK), d.(status := DeploymentActive), NewPod("d", c.clock), node)
  {
    assert Cancellable(c, "d") == {} && ActivePods(c, "d") == {};
    var c1 := c.(deployments := map["d" := d.(status := DeploymentActive)]);
    assert TransitionDeployment(c, "d", DeploymentActive) == c1;
    assert ActivePods(c1, "d") == {};
    assert CreatePods(c1, "d", 0, TICK.source) == c1;
    var c2 := c1.(pods := map["p" := NewPod("d", c.clock)]);
    assert CreatePods(c1, "d", 1, TICK.source) == c2;
    assert ["d"][..0] == [];
    assert ReconcileAll(c, [], TICK.newest, TICK.source) == c;
    assert ReconcileOne(c, "d", [], TICK.source) == c2;
    assert ReconcileAll(c, ["d"], TICK.newest, TICK.source) == c2;
  }

  lemma SetUp(maxRetries: int, resources: Resources, capacity: Resources) returns (es: seq<Event>, c: Cluster)
    requires resources.NonNegative() && capacity.NonNegative()
    ensures Reaches(EMPTY, es, c) && c.clock == 0
    ensures Lone(c, Deployment(1, maxRetries, resources, DeploymentActive), NewPod("d", 0), Fresh(capacity))
  {
    assert Reaches(EMPTY, [], EMPTY);
    var submit, join := Submit(Repeat("d"), 1, maxRetries, resources), Join(Repeat("n"), capacity, 0);
    es := Then(EMPTY, [], EMPTY, submit);
    var d := Deployment(1, maxRetries, resources, DeploymentPending);
    var c1 := Apply(EMPTY, submit);
    assert c1 == EMPTY.(deployments := map["d" := d]);
    es := Then(EMPTY, es, c1, join);
    var c2 := Apply(c1, join);
    assert c2 == c1.(nodes := map["n" := Fresh(capacity)]);
    FirstTick(c2, d, Fresh(capacity));
    es := Then(EMPTY, es, c2, TICK);
    c := Apply(c2, TICK);
  }

  /** The node runs the pod. */
  lemma StartsPod(es: seq<Event>, c: Cluster, d: Deployment, pod: Pod, node: Node) returns (longer: seq<Event>, t: Cluster)
    requires Reaches(EMPTY, es, c) && Lone(c, d, pod, node)
    requires pod.status == Pending && GateOpen(pod, c.clock) && Eligible(node, d.resources)
    ensures Reaches(EMPTY, longer, t) && t.clock == c.clock && ("n", "p") in t.polled
    ensures Lone(t, d, pod.(status := Running, node := Some("n")),
                 node.(available := node.available.Minus(d.resources), running := node.running + 1))
  {
    PlacesPod(c, d, pod, node);
    longer := Then(EMPTY, es, c, Schedule(["p"], ["n"]));
    t := Apply(c, Schedule(["p"], ["n"]));
    var placed := pod.(status := Scheduled, node := Some("n"));
    var used := node.(available := node.available.Minus(d.resources), running := node.running + 1);
    PicksUp(t, d, placed, used);
    longer := Then(EMPTY, longer, t, PickUp("n", "p"));
    t := Apply(t, PickUp("n", "p"));
    Tells(t, d, placed, used, Running);
    longer := Then(EMPTY, longer, t, Tell("n", "p", Running, None, ""));
    t := Apply(t, Tell("n", "p", Running, None, ""));
    assert placed.(status := Running) == pod.(status := Running, node := Some("n"));
  }

  /** The node runs the pod and then goes silent: a reconciler tick is due to give it up. */
  lemma GoesSilent(es: seq<Event>, c: Cluster, d: Deployment, pod: Pod, node: Node) returns (longer: seq<Event>, t: Cluster)
    requires Reaches(EMPTY, es, c) && Lone(c, d, pod, node) && node.lastHeartbeat == c.clock
    requires pod.status == Pending && GateOpen(pod, c.clock) && Eligible(node, d.resources)
    ensures Reaches(EMPTY, longer, t) && t.clock == c.clock + 1
    ensures var silent := node.(available := node.available.Minus(d.resources), running := node.running + 1);
            Lone(t, d, pod.(status := Running, node := Some("n")), silent) && Lost(silent, t.clock, 0)
  {
    longer, t := StartsPod(es, c, d, pod, node);
    longer := Then(EMPTY, longer, t, Advance(1));
    t := Apply(t, Advance(1));
  }

  // ----- the runs

  const ONE := Resources(1.0, 1)

  /** A node that just one pod ran on is given up and left with nothing available and nothing on it. */
  lemma LeakHappens() returns (es: seq<Event>)
    ensures Initial(EMPTY) && Runs(EMPTY, es) && Enabled(After(EMPTY, es), TICK)
    ensures var c, t := After(EMPTY, es), Apply(After(EMPTY, es), TICK);
            && "p" in c.pods && c.pods["p"].status == Running && OnLostNode(c, c.pods["p"])
            && "n" in t.nodes && t.nodes["n"].capacity == ONE && t.nodes["n"].available == NONE
            && (forall q :: q in t.pods ==> !Assigned(t.pods[q].status))
  {
    var c;
    var d, pod := Deployment(1, 0, ONE, DeploymentActive), NewPod("d", 0);
    es, c := SetUp(0, ONE, ONE);
    es, c := GoesSilent(es, c, d, pod, Fresh(ONE));
    TicksPod(c, d, pod.(status := Running, node := Some("n")), Fresh(ONE).(available := ONE.Minus(ONE), running := 1));
  }

  /** That pod is a dead letter, and one tick later its deployment is DEGRADED. */
  lemma DegradedHappens() returns (es: seq<Event>)
    ensures Initial(EMPTY) && Runs(EMPTY, es)
    ensures var c := After(EMPTY, es);
            && "p" in c.pods && c.pods["p"].status == DeadLetter
            && "d" in c.deployments && c.deployments["d"].status == DeploymentDegraded
  {
    var c;
    var d, pod := Deployment(1, 0, ONE, DeploymentActive), NewPod("d", 0);
    es, c := SetUp(0, ONE, ONE);
    es, c := GoesSilent(es, c, d, pod, Fresh(ONE));
    var running, silent := pod.(status := Running, node := Some("n")), Fresh(ONE).(available := ONE.Minus(ONE), running := 1);
    TicksPod(c, d, running, silent);
    es := Then(EMPTY, es, c, TICK);
    var b := Apply(c, TICK);
    Degrades(b, d, Requeued(running, 0, c.clock), Marked(silent, c.clock, 0));
    es := Then(EMPTY, es, b, LATER_TICK);
  }

  /** A tick on a deployment with a dead letter: the pod is replaced, and the deployment is DEGRADED. */
  lemma Degrades(c: Cluster, d: Deployment, pod: Pod, node: Node)
    requires Lone(c, d, pod, node) && d.replicas == 1 && d.status == DeploymentActive && pod.status == DeadLetter
    ensures Enabled(c, LATER_TICK)
    ensures var t := Apply(c, LATER_TICK);
            && "d" in t.deployments && t.deployments["d"].status == DeploymentDegraded
            && "p" in t.pods && t.pods["p"] == pod
  {
    PodsOfLone(c, d, pod, node);
    var ids := LATER_TICK.source;
    assert CreatePods(c, "d", 0, ids) == c;
    var b := c.(pods := c.pods["q" := NewPod("d", c.clock)]);
    assert CreatePods(c, "d", 1, ids) == b;
    var t := b.(deployments := map["d" := d.(status := DeploymentDegraded)]);
    assert ReconcileOne(c, "d", [], ids) == t;
    assert ["d"][..0] == [];
    assert ReconcileAll(c, [], LATER_TICK.newest, ids) == c;
    assert ReconcileAll(c, ["d"], LATER_TICK.newest, ids) == t;
  }

  /** A pod reported FAILED holds the only slot of its deployment, for good. */
  lemma FailedHappens(more: seq<Event>) returns (es: seq<Event>)
    ensures Initial(EMPTY) && Runs(EMPTY, es)
    ensures var c := After(EMPTY, es);
            && "p" in c.pods && c.pods["p"].status == Failed
            && "p" in ActivePods(c, "d") && |ActivePods(c, "d")| == 1
            && "d" in c.deployments && c.deployments["d"].replicas == 1
            && (Runs(c, more) ==> "p" in After(c, more).pods && After(c, more).pods["p"].status == Failed)
  {
    var c;
    var d, pod := Deployment(1, 0, ONE, DeploymentActive), NewPod("d", 0);
    es, c := SetUp(0, ONE, ONE);
    es, c := StartsPod(es, c, d, pod, Fresh(ONE));
    var e := Tell("n", "p", Failed, None, "");
    Tells(c, d, pod.(status := Running, node := Some("n")), Fresh(ONE).(available := ONE.Minus(ONE), running := 1), Failed);
    es := Then(EMPTY, es, c, e);
    var t := Apply(c, e);
    assert ActivePods(t, "d") == {"p"};
    if Runs(t, more) {
      FinishedForever(t, more, "p");
    }
  }

  // ----- losing it again and again

  /** The tick that gives the node up requeues the pod, behind a gate; the 34th time it is open. */
  lemma TickRequeues(c: Cluster, d: Deployment, pod: Pod, node: Node) returns (after: Pod)
    requires Lone(c, d, pod, node) && d.replicas == 1 && d.status == DeploymentActive && pod.status == Running && pod.node == Some("n")
    requires Lost(node, c.clock, 0) && pod.attempt + 1 <= d.maxRetries
    ensures Enabled(c, TICK) && Apply(c, TICK).clock == c.clock
    ensures Lone(Apply(c, TICK), d, after, Marked(node, c.clock, 0))
    ensures after == pod.(attempt := pod.attempt + 1, status := Pending, node := None, runAfter := after.runAfter)
    ensures after.runAfter.Some? && (pod.attempt == 33 ==> GateOpen(after, c.clock))
  {
    TicksPod(c, d, pod, node);
    after := Requeued(pod, d.maxRetries, c.clock);
    if pod.attempt == 33 {
      Backoff.NegativeDelay();
    }
  }

  /** One more loss, then the node comes back and the backoff is waited out. */
  lemma LosesOnce(es: seq<Event>, c: Cluster, d: Deployment, pod: Pod, node: Node)
    returns (longer: seq<Event>, t: Cluster, pod': Pod, node': Node)
    requires Reaches(EMPTY, es, c) && Lone(c, d, pod, node) && Ready(c, d, pod, node) && pod.attempt + 1 <= d.maxRetries
    ensures Reaches(EMPTY, longer, t) && Lone(t, d, pod', node') && Ready(t, d, pod', node')
    ensures pod'.attempt == pod.attempt + 1
  {
    longer, t := GoesSilent(es, c, d, pod, node);
    var running, silent := pod.(status := Running, node := Some("n")), node.(available := NONE.Minus(NONE), running := 1);
    pod' := TickRequeues(t, d, running, silent);
    longer := Then(EMPTY, longer, t, TICK);
    t := Apply(t, TICK);
    var wait := if pod'.runAfter.value > t.clock then pod'.runAfter.value - t.clock else 0;
    var gone := silent.(status := Unhealthy);
    ComesBack(t, d, pod', gone, wait);
    longer := Then(EMPTY, longer, t, Advance(wait));
    longer := Then(EMPTY, longer, Apply(t, Advance(wait)), Beat("n", 0));
    node' := gone.(status := Healthy, running := 0, lastHeartbeat := t.clock + wait);
    t := Apply(Apply(t, Advance(wait)), Beat("n", 0));
  }

  /** A pod that asks for nothing waits, past its gate, beside a node that is up. */
  ghost predicate Ready(c: Cluster, d: Deployment, pod: Pod, node: Node) {
    && d.replicas == 1 && d.status == DeploymentActive && d.resources == NONE
    && pod.status == Pending && GateOpen(pod, c.clock)
    && node == Node(Healthy, NONE, NONE, 0, 0, c.clock, node.registeredAt)
  }

  lemma {:induction false} LosesOften(maxRetries: int, k: nat) returns (es: seq<Event>, c: Cluster, pod: Pod, node: Node)
    requires k <= maxRetries || k == 0
    ensures Reaches(EMPTY, es, c) && Lone(c, Deployment(1, maxRetries, NONE, DeploymentActive), pod, node)
    ensures Ready(c, Deployment(1, maxRetries, NONE, DeploymentActive), pod, node) && pod.attempt == k
  {
    if k == 0 {
      es, c := SetUp(maxRetries, NONE, NONE);
      pod, node := NewPod("d", 0), Fresh(NONE);
    } else {
      es, c, pod, node := LosesOften(maxRetries, k - 1);
      es, c, pod, node := LosesOnce(es, c, Deployment(1, maxRetries, NONE, DeploymentActive), pod, node);
    }
  }

  /** Whenever a deployment allows 34 retries or more, some run places a pod again the moment it was
      requeued, a minute too soon: the bound of 33 in the spacing result is exact. */
  lemma NoSpacingBeyond33(maxRetries: int) returns (es: seq<Event>, es': seq<Event>)
    requires maxRetries >= 34
    ensures Initial(EMPTY) && Runs(EMPTY, es) && Requeues(After(EMPTY, es), TICK, "p")
    ensures var c, b := After(EMPTY, es), Apply(After(EMPTY, es), TICK);
            && MaxRetries(c, c.pods["p"].deployment) == maxRetries
            && Runs(b, es') && "p" in After(b, es').pods
            && Assigned(After(b, es').pods["p"].status) && After(b, es').pods["p"].attempt == b.pods["p"].attempt
            && After(b, es').clock < c.clock + Backoff.Intended(b.pods["p"].attempt)
  {
    var c, pod, node;
    var d := Deployment(1, maxRetries, NONE, DeploymentActive);
    es, c, pod, node := LosesOften(maxRetries, 33);
    es, c := GoesSilent(es, c, d, pod, node);
    var running, silent := pod.(status := Running, node := Some("n")), node.(available := NONE.Minus(NONE), running := 1);
    var requeued := TickRequeues(c, d, running, silent);
    es' := PlacedAtOnce(Apply(c, TICK), d, requeued, silent.(status := Unhealthy));
    assert Backoff.Intended(34) == Backoff.MAX_BACKOFF;
  }

  lemma PlacedAtOnce(b: Cluster, d: Deployment, pod: Pod, node: Node) returns (es: seq<Event>)
    requires Lone(b, d, pod, node) && d.resources == NONE && node.status == Unhealthy && node.available == NONE && node.maxConcurrent == 0
    requires pod.status == Pending && GateOpen(pod, b.clock)
    ensures Runs(b, es) && "p" in After(b, es).pods && After(b, es).clock == b.clock
    ensures After(b, es).pods["p"] == pod.(status := Scheduled, node := Some("n"))
  {
    var back, place := Beat("n", 0), Schedule(["p"], ["n"]);
    ComesBack(b, d, pod, node, 0);
    assert Apply(b, Advance(0)) == b;
    var t := Apply(b, back);
    PlacesPod(t, d, pod, node.(status := Healthy, running := 0, lastHeartbeat := b.clock));
    Extend(b, [], back);
    assert [] + [back] == [back];
    Extend(b, [back], place);
    es := [back] + [place];
  }
}
