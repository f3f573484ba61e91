/** The reconciler's two passes: what they keep, and what they achieve. */
module CpReconcile {
  import opened Options
  import opened CpModel
  import opened CpCluster
  import opened CpInvariant
  import opened CpSteps
  import opened Listing
  import Backoff

  // ----- creating and cancelling pods

  /** `t` is `c` with some new pods of deployment `d`. */
  ghost predicate Gains(c: Cluster, t: Cluster, d: string) {
    && t == c.(pods := t.pods)
    && (forall p :: p in c.pods ==> p in t.pods && t.pods[p] == c.pods[p])
    && (forall p :: p in t.pods && p !in c.pods ==> t.pods[p] == NewPod(d, c.clock))
  }

  lemma GainsKeepsPods(c: Cluster, t: Cluster, d: string)
    requires PodsInv(c) && LedgerInv(c) && Gains(c, t, d) && d in c.deployments
    ensures PodsInv(t)
  {
    forall q | q in t.pods ensures PodInv(t, q) {
      if q in c.pods {
        assert PodInv(c, q);
      }
    }
  }

  lemma GainsKeepsDeployments(c: Cluster, t: Cluster, d: string)
    requires DeploymentsInv(c) && Gains(c, t, d) && d in c.deployments && |ActivePods(t, d)| <= c.deployments[d].replicas
    ensures DeploymentsInv(t)
  {
    forall k | k in t.deployments ensures DeploymentInv(t, k) {
      assert DeploymentInv(c, k);
      if k != d {
        assert ActivePods(t, k) == ActivePods(c, k);
      }
      DeadLettersStay(c, t, k);
    }
  }

  lemma DeadLettersStay(c: Cluster, t: Cluster, d: string)
    requires forall p :: p in c.pods ==> p in t.pods && t.pods[p] == c.pods[p]
    ensures HasDeadLetter(c, d) ==> HasDeadLetter(t, d)
  {
    if HasDeadLetter(c, d) {
      var q :| q in c.pods && c.pods[q].deployment == d && c.pods[q].status == DeadLetter;
      assert q in t.pods && t.pods[q].deployment == d && t.pods[q].status == DeadLetter;
    }
  }

  lemma OneMoreActive(c: Cluster, t: Cluster, p: string, d: string, now: Time)
    requires p !in c.pods && t.pods == c.pods[p := NewPod(d, now)]
    ensures |ActivePods(t, d)| == |ActivePods(c, d)| + 1
  {
    assert ActivePods(t, d) == ActivePods(c, d) + {p};
  }

  lemma {:induction false} AtMostMoreActive(c: Cluster, d: string, n: nat, ids: IdSource)
    ensures |ActivePods(CreatePods(c, d, n, ids), d)| <= |ActivePods(c, d)| + n
  {
    if n == 0 {
    } else {
      var b, p := CreatePods(c, d, n - 1, ids), ids(d, n - 1);
      AtMostMoreActive(c, d, n - 1, ids);
      if p !in b.pods {
        OneMoreActive(b, CreatePods(c, d, n, ids), p, d, c.clock);
      }
    }
  }

  /** Up to n new pods, all of deployment `d`, whatever ids the source hands out. */
  lemma KeepsCreatePods(c: Cluster, d: string, n: nat, ids: IdSource)
    requires Inv(c) && d in c.deployments && |ActivePods(c, d)| + n <= c.deployments[d].replicas
    ensures Inv(CreatePods(c, d, n, ids))
  {
    var t := CreatePods(c, d, n, ids);
    CreateResizes(c, d, n, ids);
    assert Gains(c, t, d);
    AtMostMoreActive(c, d, n, ids);
    GainsKeepsPods(c, t, d);
    GainsKeepsDeployments(c, t, d);
    SameReservations(c, t);
  }

  /** In a state reached by events there is never too much to cancel. */
  lemma KeepsResize(c: Cluster, d: string, newest: seq<string>, ids: IdSource)
    requires Inv(c) && d in c.deployments
    ensures Inv(Resize(c, d, newest, ids))
  {
    var active, replicas := |ActivePods(c, d)|, c.deployments[d].replicas;
    assert DeploymentInv(c, d);
    if active < replicas {
      KeepsCreatePods(c, d, replicas - active, ids);
    }
  }

  // ----- what a resize leaves alone

  /** `t` has every pod of `c`; none of them was revived, moved or changed deployment, and dead
      letters are as they were. */
  ghost predicate Resized(c: Cluster, t: Cluster) {
    && t == c.(pods := t.pods)
    && PodsKeptOrCancelled(c, t)
    && (forall p :: p in t.pods && p !in c.pods ==> t.pods[p].status == Pending)
  }

  predicate KeptOrCancelled(before: Pod, after: Pod) {
    after == before || (after == before.(status := Cancelled) && before.status in {Pending, Scheduled})
  }

  ghost predicate PodsKeptOrCancelled(c: Cluster, t: Cluster) {
    forall p :: p in c.pods ==> p in t.pods && KeptOrCancelled(c.pods[p], t.pods[p])
  }

  lemma {:induction false} CreateResizes(c: Cluster, d: string, n: nat, ids: IdSource)
    ensures Resized(c, CreatePods(c, d, n, ids))
    ensures forall p :: p in c.pods ==> CreatePods(c, d, n, ids).pods[p] == c.pods[p]
    ensures forall p :: p in CreatePods(c, d, n, ids).pods && p !in c.pods ==> CreatePods(c, d, n, ids).pods[p] == NewPod(d, c.clock)
  {
    if n == 0 {
    } else {
      CreateResizes(c, d, n - 1, ids);
    }
  }

  /** `t` is `c` with exactly the first n pods of `order` cancelled. */
  ghost predicate CancelledFirst(c: Cluster, t: Cluster, order: seq<string>, n: nat)
    requires n <= |order|
  {
    && t == c.(pods := t.pods) && t.pods.Keys == c.pods.Keys
    && forall p :: p in c.pods ==> t.pods[p] == if p in order[..n] then c.pods[p].(status := Cancelled) else c.pods[p]
  }

  lemma {:induction false} CancelKeepsRest(c: Cluster, order: seq<string>, n: nat)
    requires n <= |order|
    ensures var t := CancelPods(c, order, n);
            t == c.(pods := t.pods) && t.pods.Keys == c.pods.Keys
  {
    if n == 0 {
    } else {
      CancelKeepsRest(c, order, n - 1);
    }
  }

  lemma {:induction false} CancelledPod(c: Cluster, order: seq<string>, n: nat, p: string)
    requires n <= |order| && p in c.pods && (p in order ==> c.pods[p].status in {Pending, Scheduled})
    ensures p in CancelPods(c, order, n).pods
    ensures CancelPods(c, order, n).pods[p] == if p in order[..n] then c.pods[p].(status := Cancelled) else c.pods[p]
  {
    if n == 0 {
    } else {
      CancelledPod(c, order, n - 1, p);
      assert order[..n] == order[..n - 1] + [order[n - 1]];
    }
  }

  /** Cancelling the first n of a list of cancellable pods cancels exactly those. */
  lemma CancelExactly(c: Cluster, order: seq<string>, n: nat)
    requires n <= |order|
    requires forall i :: 0 <= i < |order| ==> order[i] in c.pods && c.pods[order[i]].status in {Pending, Scheduled}
    ensures CancelledFirst(c, CancelPods(c, order, n), order, n)
  {
    CancelKeepsRest(c, order, n);
    forall p | p in c.pods
      ensures CancelPods(c, order, n).pods[p] == if p in order[..n] then c.pods[p].(status := Cancelled) else c.pods[p]
    {
      CancelledPod(c, order, n, p);
    }
  }

  lemma ResizeResizes(c: Cluster, d: string, newest: seq<string>, ids: IdSource)
    requires d in c.deployments && Enumerates(newest, Cancellable(c, d))
    ensures Resized(c, Resize(c, d, newest, ids))
  {
    var active, replicas := |ActivePods(c, d)|, c.deployments[d].replicas;
    if active < replicas {
      CreateResizes(c, d, replicas - active, ids);
    } else if active > replicas {
      CancellableListed(c, d, newest);
      CancelExactly(c, newest, if active - replicas < |newest| then active - replicas else |newest|);
    }
  }

  lemma CancellableListed(c: Cluster, d: string, newest: seq<string>)
    requires Enumerates(newest, Cancellable(c, d))
    ensures forall i :: 0 <= i < |newest| ==> newest[i] in c.pods && c.pods[newest[i]].status in {Pending, Scheduled}
  {
    forall i | 0 <= i < |newest| ensures newest[i] in c.pods && c.pods[newest[i]].status in {Pending, Scheduled} {
      assert newest[i] in newest;
    }
  }

  lemma ResizedDeadLetters(c: Cluster, t: Cluster, d: string)
    requires Resized(c, t)
    ensures HasDeadLetter(c, d) <==> HasDeadLetter(t, d)
  {
    if HasDeadLetter(c, d) {
      var q :| q in c.pods && c.pods[q].deployment == d && c.pods[q].status == DeadLetter;
      assert t.pods[q] == c.pods[q];
    }
    if HasDeadLetter(t, d) {
      var q :| q in t.pods && t.pods[q].deployment == d && t.pods[q].status == DeadLetter;
      assert q in c.pods && c.pods[q] == t.pods[q];
    }
  }

  // ----- one deployment, then all

  /** Pods decide who is active and who can be cancelled; nothing else does. */
  lemma SamePods(a: Cluster, b: Cluster, d: string)
    requires a.pods == b.pods
    ensures ActivePods(a, d) == ActivePods(b, d) && Cancellable(a, d) == Cancellable(b, d)
    ensures HasDeadLetter(a, d) <==> HasDeadLetter(b, d)
  {
  }

  function Activated(c: Cluster, d: string): Cluster
    requires d in c.deployments
  {
    if c.deployments[d].status == DeploymentPending then TransitionDeployment(c, d, DeploymentActive) else c
  }

  /** A pass changes pods only by resizing. */
  lemma PodsFromResize(c: Cluster, d: string, newest: seq<string>, ids: IdSource)
    requires d in c.deployments && c.deployments[d].status != DeploymentCancelled
    ensures ReconcileOne(c, d, newest, ids).pods == Resize(Activated(c, d), d, newest, ids).pods
    ensures Activated(c, d).pods == c.pods && Activated(c, d).deployments[d].replicas == c.deployments[d].replicas
  {
  }

  lemma KeepsReconcileOne(c: Cluster, d: string, newest: seq<string>, ids: IdSource)
    requires Inv(c) && (d in c.deployments ==> Enumerates(newest, Cancellable(c, d)))
    ensures Inv(ReconcileOne(c, d, newest, ids))
  {
    if d in c.deployments && c.deployments[d].status != DeploymentCancelled {
      var c1 := Activated(c, d);
      KeepsTransitionDeployment(c, d, DeploymentActive);
      KeepsResize(c1, d, newest, ids);
      assert Cancellable(c1, d) == Cancellable(c, d);
      ResizeResizes(c1, d, newest, ids);
      var c2 := Resize(c1, d, newest, ids);
      ResizedDeadLetters(c1, c2, d);
      KeepsSetStatus(c2, d, HasDeadLetter(c1, d), c1.deployments[d].status);
    }
  }

  lemma KeepsSetStatus(c: Cluster, d: string, dead: bool, status: DeploymentStatus)
    requires Inv(c) && (dead ==> HasDeadLetter(c, d))
    ensures Inv(SetStatus(c, d, dead, status))
  {
    KeepsTransitionDeployment(c, d, DeploymentActive);
    if dead {
      KeepsTransitionDeployment(c, d, DeploymentDegraded);
    }
  }

  /** Pods change only in deployment `d`, and new ones belong to it. */
  ghost predicate PodsLocal(c: Cluster, t: Cluster, d: string) {
    && (forall p :: p in c.pods ==> p in t.pods && t.pods[p].deployment == c.pods[p].deployment)
    && (forall p :: p in c.pods && c.pods[p].deployment != d ==> t.pods[p] == c.pods[p])
    && (forall p :: p in t.pods && p !in c.pods ==> t.pods[p] == NewPod(d, c.clock))
  }

  /** Nothing but pods and the status of `d` changes. */
  ghost predicate RestKept(c: Cluster, t: Cluster, d: string) {
    && t == c.(pods := t.pods, deployments := t.deployments) && t.deployments.Keys == c.deployments.Keys
    && (forall k :: k in c.deployments ==>
          t.deployments[k] == if k == d then c.deployments[k].(status := t.deployments[k].status) else c.deployments[k])
  }

  lemma ResizeLocal(c: Cluster, d: string, newest: seq<string>, ids: IdSource)
    requires d in c.deployments && Enumerates(newest, Cancellable(c, d))
    ensures PodsLocal(c, Resize(c, d, newest, ids), d)
  {
    var active, replicas := |ActivePods(c, d)|, c.deployments[d].replicas;
    if active < replicas {
      CreateResizes(c, d, replicas - active, ids);
    } else if active > replicas {
      CancelLocal(c, d, newest, if active - replicas < |newest| then active - replicas else |newest|);
    }
  }

  lemma CancelLocal(c: Cluster, d: string, newest: seq<string>, n: nat)
    requires n <= |newest| && Enumerates(newest, Cancellable(c, d))
    ensures PodsLocal(c, CancelPods(c, newest, n), d)
  {
    CancellableListed(c, d, newest);
    CancelExactly(c, newest, n);
    forall p | p in newest[..n] ensures p in Cancellable(c, d) {
      assert p in newest;
    }
  }

  /** Reconciling `d` leaves every other deployment and its pods alone. */
  lemma ReconcileOneLocal(c: Cluster, d: string, newest: seq<string>, ids: IdSource)
    requires d in c.deployments ==> Enumerates(newest, Cancellable(c, d))
    ensures var t := ReconcileOne(c, d, newest, ids);
            RestKept(c, t, d) && PodsLocal(c, t, d)
  {
    if d in c.deployments && c.deployments[d].status != DeploymentCancelled {
      var c1 := Activated(c, d);
      SamePods(c1, c, d);
      ResizeLocal(c1, d, newest, ids);
      ResizeResizes(c1, d, newest, ids);
      assert RestKept(c, Resize(c1, d, newest, ids), d);
    }
  }

  /** The listing of a deployment's cancellable pods stays right while others are reconciled. */
  lemma CancellableUndisturbed(c: Cluster, d: string, newest: seq<string>, ids: IdSource, k: string)
    requires k != d && (d in c.deployments ==> Enumerates(newest, Cancellable(c, d)))
    ensures Cancellable(ReconcileOne(c, d, newest, ids), k) == Cancellable(c, k)
  {
    ReconcileOneLocal(c, d, newest, ids);
  }

  ghost predicate Listed(c: Cluster, newest: map<string, seq<string>>, ds: seq<string>) {
    forall i :: 0 <= i < |ds| ==> ds[i] in newest && Enumerates(newest[ds[i]], Cancellable(c, ds[i]))
  }

  lemma {:induction false} KeepsReconcileAll(c: Cluster, order: seq<string>, newest: map<string, seq<string>>, ids: IdSource)
    requires Inv(c) && Distinct(order) && Listed(c, newest, order)
    ensures Inv(ReconcileAll(c, order, newest, ids))
    ensures forall k :: k !in order ==> Cancellable(ReconcileAll(c, order, newest, ids), k) == Cancellable(c, k)
    ensures ReconcileAll(c, order, newest, ids).nodes == c.nodes
    decreases |order|
  {
    if order == [] {
    } else {
      var front, d := order[..|order| - 1], order[|order| - 1];
      assert d !in front;
      KeepsReconcileAll(c, front, newest, ids);
      var b := ReconcileAll(c, front, newest, ids);
      assert Cancellable(b, d) == Cancellable(c, d);
      KeepsReconcileOne(b, d, newest[d], ids);
      ReconcileOneLocal(b, d, newest[d], ids);
      forall k | k !in order ensures Cancellable(ReconcileAll(c, order, newest, ids), k) == Cancellable(c, k) {
        assert k != d && k !in front;
        CancellableUndisturbed(b, d, newest[d], ids, k);
      }
    }
  }

  // ----- lost nodes

  lemma LossMoves(c: Cluster, pod: Pod)
    ensures var after := AfterLoss(c, pod);
            && after.deployment == pod.deployment && (Active(after.status) ==> Active(pod.status))
            && (pod.status == DeadLetter ==> after == pod)
  {
  }

  lemma LossPlacesRight(c: Cluster, p: string)
    requires p in c.pods && PlacedRight(c, p)
    ensures PlacedRight(DetectLost(c), p)
  {
    var t := DetectLost(c);
    assert t.pods[p] == AfterLoss(c, c.pods[p]);
    assert forall n :: n in c.nodes ==> n in t.nodes && t.nodes[n] == Marked(c.nodes[n], c.clock, c.timeout);
  }

  lemma LossWithinBudget(c: Cluster, p: string)
    requires p in c.pods && c.pods[p].deployment in c.deployments && WithinBudget(c, p)
    ensures var after := AfterLoss(c, c.pods[p]);
            && after.deployment == c.pods[p].deployment
            && WithinBudget(DetectLost(c), p)
  {
    assert DetectLost(c).pods[p] == AfterLoss(c, c.pods[p]);
  }

  lemma LostKeepsPod(c: Cluster, p: string)
    requires Inv(c) && p in c.pods
    ensures PodInv(DetectLost(c), p)
  {
    assert PodInv(c, p);
    LossPlacesRight(c, p);
    LossMoves(c, c.pods[p]);
    LossWithinBudget(c, p);
    assert DetectLost(c).pods[p] == AfterLoss(c, c.pods[p]);
  }

  lemma LostKeepsDeployment(c: Cluster, d: string)
    requires Inv(c) && d in c.deployments
    ensures DeploymentInv(DetectLost(c), d)
  {
    var t := DetectLost(c);
    assert DeploymentInv(c, d);
    forall p | p in ActivePods(t, d) ensures p in ActivePods(c, d) {
      LossMoves(c, c.pods[p]);
    }
    FewerActive(c, t, d);
    if HasDeadLetter(c, d) {
      var q :| q in c.pods && c.pods[q].deployment == d && c.pods[q].status == DeadLetter;
      LossMoves(c, c.pods[q]);
      assert t.pods[q] == c.pods[q];
    }
  }

  lemma KeepsDetectLost(c: Cluster)
    requires Inv(c)
    ensures Inv(DetectLost(c))
  {
    var t := DetectLost(c);
    forall p | p in t.pods ensures PodInv(t, p) {
      LostKeepsPod(c, p);
    }
    forall n | n in t.nodes ensures NodeInv(t, n) {
      assert NodeInv(c, n);
    }
    forall d | d in t.deployments ensures DeploymentInv(t, d) {
      LostKeepsDeployment(c, d);
    }
    LostKeepsLedger(c);
  }

  lemma LostKeepsLedger(c: Cluster)
    requires Inv(c)
    ensures LedgerInv(DetectLost(c))
  {
    var t := DetectLost(c);
    forall i | 0 <= i < |t.ledger| ensures ChargeInv(t, t.ledger[i]) {
      assert ChargeInv(c, c.ledger[i]);
    }
  }

  lemma KeepsReconcile(c: Cluster, e: Event)
    requires Inv(c) && e.Reconcile? && Enabled(c, e)
    ensures Inv(Apply(c, e))
  {
    forall i | 0 <= i < |e.deployments|
      ensures e.deployments[i] in e.newest && Enumerates(e.newest[e.deployments[i]], Cancellable(c, e.deployments[i]))
    {
      assert e.deployments[i] in e.deployments;
    }
    KeepsReconcileAll(c, e.deployments, e.newest, e.source);
    KeepsDetectLost(ReconcileAll(c, e.deployments, e.newest, e.source));
  }

  // ----- the whole machine

  lemma StepKeepsInv(c: Cluster, e: Event)
    requires Inv(c) && Enabled(c, e)
    ensures Inv(Apply(c, e))
  {
    if e.Schedule? {
      KeepsSchedule(c, e.pending, e.order);
    } else if e.Reconcile? {
      KeepsReconcile(c, e);
    } else {
      CallKeepsInv(c, e);
    }
  }

  lemma CallKeepsInv(c: Cluster, e: Event)
    requires Inv(c) && Enabled(c, e) && !e.Schedule? && !e.Reconcile?
    ensures Inv(Apply(c, e))
  {
    if e.PickUp? || e.Tell? || e.Advance? {
      AgentKeepsInv(c, e);
    } else {
      AdminKeepsInv(c, e);
    }
  }

  lemma AgentKeepsInv(c: Cluster, e: Event)
    requires Inv(c) && Enabled(c, e) && (e.PickUp? || e.Tell? || e.Advance?)
    ensures Inv(Apply(c, e))
  {
    match e
    case PickUp(n, p) =>
      assert Apply(c, e) == Poll(c, n, p);
      KeepsPickUp(c, n, p);
    case Tell(n, p, status, exitCode, output) =>
      assert Apply(c, e) == Report(c, n, p, status, exitCode, output);
      KeepsTell(c, n, p, status, exitCode, output);
    case Advance(elapsed) =>
      assert Apply(c, e) == c.(clock := c.clock + elapsed);
      KeepsAdvance(c, elapsed);
  }

  lemma AdminKeepsInv(c: Cluster, e: Event)
    requires Inv(c) && Enabled(c, e) && (e.Submit? || e.Withdraw? || e.Join? || e.Beat? || e.Drain?)
    ensures Inv(Apply(c, e))
  {
    match e
    case Submit(ids, replicas, maxRetries, resources) => KeepsSubmit(c, ids, replicas, maxRetries, resources);
    case Withdraw(d) => KeepsTransitionDeployment(c, d, DeploymentCancelled);
    case Join(ids, capacity, maxConcurrent) => KeepsJoin(c, ids, capacity, maxConcurrent);
    case Beat(n, running) => KeepsBeat(c, n, running);
    case Drain(n) => KeepsDrain(c, n);
  }

  lemma {:induction false} RunKeepsInv(c: Cluster, es: seq<Event>)
    requires Inv(c) && Runs(c, es)
    ensures Inv(After(c, es))
    decreases |es|
  {
    if es == [] {
    } else {
      StepKeepsInv(c, es[0]);
      RunKeepsInv(Apply(c, es[0]), es[1..]);
    }
  }

  lemma ReachableInv(c: Cluster)
    requires Reachable(c)
    ensures Inv(c)
  {
    var s, es :| Initial(s) && Runs(s, es) && After(s, es) == c;
    assert Inv(s);
    RunKeepsInv(s, es);
  }
}
