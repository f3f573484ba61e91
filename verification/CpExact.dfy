/** What one reconciliation pass achieves, from any state at all. */
module CpExact {
  import opened Options
  import opened CpModel
  import opened CpCluster
  import opened CpInvariant
  import opened CpReconcile
  import opened Listing

  /** The id source never hands out an id twice, nor one already taken. */
  ghost predicate FreshIds(c: Cluster, ids: IdSource) {
    && (forall d, i :: ids(d, i) !in c.pods)
    && (forall d, i, e, j :: ids(d, i) == ids(e, j) ==> d == e && i == j)
  }

  lemma {:induction false} CreatedIds(c: Cluster, d: string, n: nat, ids: IdSource)
    ensures forall p :: p in CreatePods(c, d, n, ids).pods && p !in c.pods ==> exists j :: 0 <= j < n && ids(d, j) == p
  {
    if n == 0 {
    } else {
      CreatedIds(c, d, n - 1, ids);
    }
  }

  /** With fresh ids every creation succeeds. */
  lemma {:induction false} CreateExactly(c: Cluster, d: string, n: nat, ids: IdSource)
    requires forall i :: ids(d, i) !in c.pods
    requires forall i, j :: ids(d, i) == ids(d, j) ==> i == j
    ensures |ActivePods(CreatePods(c, d, n, ids), d)| == |ActivePods(c, d)| + n
  {
    if n == 0 {
    } else {
      CreateExactly(c, d, n - 1, ids);
      CreatedIds(c, d, n - 1, ids);
      var b, p := CreatePods(c, d, n - 1, ids), ids(d, n - 1);
      assert p !in b.pods by {
        assert forall j :: 0 <= j < n - 1 ==> ids(d, j) != p;
      }
      OneMoreActive(b, CreatePods(c, d, n, ids), p, d, c.clock);
    }
  }

  function Max(a: int, b: int): int {
    if a > b then a else b
  }

  /** How many pods a scale-down cancels: the excess, as far as there are cancellable pods. */
  function ToCancel(c: Cluster, d: string): nat
    requires d in c.deployments
  {
    var excess := |ActivePods(c, d)| - c.deployments[d].replicas;
    if excess <= 0 then 0 else if excess < |Cancellable(c, d)| then excess else |Cancellable(c, d)|
  }

  lemma CancelledWereActive(c: Cluster, d: string, newest: seq<string>, n: nat)
    requires Enumerates(newest, Cancellable(c, d)) && n <= |newest|
    ensures (set p | p in newest[..n]) <= ActivePods(c, d)
    ensures |set p | p in newest[..n]| == n
  {
    var gone := set p | p in newest[..n];
    forall p | p in gone ensures p in ActivePods(c, d) {
      assert p in newest;
      assert p in Cancellable(c, d);
    }
    EnumerationSize(newest[..n], gone);
  }

  lemma CancelShrinks(c: Cluster, d: string, newest: seq<string>, n: nat)
    requires Enumerates(newest, Cancellable(c, d)) && n <= |newest|
    ensures |ActivePods(CancelPods(c, newest, n), d)| == |ActivePods(c, d)| - n
  {
    CancellableListed(c, d, newest);
    CancelExactly(c, newest, n);
    CancelledWereActive(c, d, newest, n);
    assert ActivePods(CancelPods(c, newest, n), d) == ActivePods(c, d) - (set p | p in newest[..n]);
  }

  lemma CancellableAreActive(c: Cluster, d: string)
    ensures |Cancellable(c, d)| <= |ActivePods(c, d)|
  {
    assert Cancellable(c, d) <= ActivePods(c, d);
    SubsetSize(Cancellable(c, d), ActivePods(c, d));
  }

  /** One pass leaves exactly Replicas active pods, or as many as cannot be cancelled. */
  lemma ResizeExact(c: Cluster, d: string, newest: seq<string>, ids: IdSource)
    requires d in c.deployments && Enumerates(newest, Cancellable(c, d)) && FreshIds(c, ids)
    ensures |ActivePods(Resize(c, d, newest, ids), d)|
            == Max(c.deployments[d].replicas, |ActivePods(c, d)| - |Cancellable(c, d)|)
  {
    var active, replicas := |ActivePods(c, d)|, c.deployments[d].replicas;
    CancellableAreActive(c, d);
    if active < replicas {
      CreateExactly(c, d, replicas - active, ids);
    } else if active > replicas {
      EnumerationSize(newest, Cancellable(c, d));
      CancelShrinks(c, d, newest, ToCancel(c, d));
    }
  }

  lemma NewestAreCancelled(c: Cluster, d: string, newest: seq<string>, ids: IdSource, p: string, q: string)
    requires d in c.deployments && Enumerates(newest, Cancellable(c, d)) && NewestFirst(c, newest)
    requires |ActivePods(c, d)| > c.deployments[d].replicas
    requires p in c.pods && q in c.pods
    ensures var t := Resize(c, d, newest, ids);
            && t.pods.Keys == c.pods.Keys
            && (t.pods[p] != c.pods[p] ==> p in Cancellable(c, d) && t.pods[p] == c.pods[p].(status := Cancelled))
            && (t.pods[p] != c.pods[p] && q in Cancellable(c, d) && t.pods[q] == c.pods[q]
                ==> c.pods[p].createdAt >= c.pods[q].createdAt)
  {
    EnumerationSize(newest, Cancellable(c, d));
    CancellableListed(c, d, newest);
    var n := ToCancel(c, d);
    CancelExactly(c, newest, n);
    var t := Resize(c, d, newest, ids);
    if t.pods[p] != c.pods[p] {
      assert p in newest[..n];
      var i :| 0 <= i < n && newest[i] == p;
      if q in Cancellable(c, d) && t.pods[q] == c.pods[q] {
        assert q !in newest[..n];
        assert forall k :: 0 <= k < n ==> newest[..n][k] == newest[k];
        var j :| 0 <= j < |newest| && newest[j] == q;
        assert j >= n;
      }
    }
  }

  /** The pod is of deployment `d` and could be cancelled by a scale-down. */
  predicate Waiting(pod: Pod, d: string) {
    pod.deployment == d && (pod.status == Pending || pod.status == Scheduled)
  }

  /** Scale-down takes the newest: it changes only PENDING and SCHEDULED pods of its deployment, by
      cancelling them, and whichever of those survives is no newer than one that was cancelled. */
  lemma ScaleDownTakesNewest(c: Cluster, d: string, newest: seq<string>, ids: IdSource, p: string, q: string)
    requires d in c.deployments && Enumerates(newest, Cancellable(c, d)) && NewestFirst(c, newest)
    requires |ActivePods(c, d)| > c.deployments[d].replicas
    requires p in c.pods && q in c.pods
    ensures var t := Resize(c, d, newest, ids);
            && t.pods.Keys == c.pods.Keys
            && (t.pods[p] != c.pods[p] ==> Waiting(c.pods[p], d) && t.pods[p] == c.pods[p].(status := Cancelled))
            && (t.pods[p] != c.pods[p] && Waiting(c.pods[q], d) && t.pods[q] == c.pods[q]
                ==> c.pods[p].createdAt >= c.pods[q].createdAt)
  {
    NewestAreCancelled(c, d, newest, ids, p, q);
  }

  // ----- status

  /** After a pass a deployment that is not cancelled is DEGRADED exactly when it has a dead letter,
      and ACTIVE otherwise. */
  lemma StatusExact(c: Cluster, d: string, newest: seq<string>, ids: IdSource)
    requires d in c.deployments && c.deployments[d].status != DeploymentCancelled && Enumerates(newest, Cancellable(c, d))
    ensures var t := ReconcileOne(c, d, newest, ids);
            && d in t.deployments
            && t.deployments[d].status == if HasDeadLetter(t, d) then DeploymentDegraded else DeploymentActive
    ensures var t := ReconcileOne(c, d, newest, ids);
            t.deployments[d].status == DeploymentDegraded <==> exists p :: p in t.pods && t.pods[p].deployment == d && t.pods[p].status == DeadLetter
  {
    var c1 := Activated(c, d);
    PodsFromResize(c, d, newest, ids);
    SamePods(c, c1, d);
    ResizeResizes(c1, d, newest, ids);
    var c2 := Resize(c1, d, newest, ids);
    ResizedDeadLetters(c1, c2, d);
    SamePods(ReconcileOne(c, d, newest, ids), c2, d);
  }

  /** The number of active pods after a pass. */
  lemma ReconcileExact(c: Cluster, d: string, newest: seq<string>, ids: IdSource)
    requires d in c.deployments && c.deployments[d].status != DeploymentCancelled
    requires Enumerates(newest, Cancellable(c, d)) && FreshIds(c, ids)
    ensures |ActivePods(ReconcileOne(c, d, newest, ids), d)|
            == Max(c.deployments[d].replicas, |ActivePods(c, d)| - |Cancellable(c, d)|)
  {
    var c1 := Activated(c, d);
    PodsFromResize(c, d, newest, ids);
    SamePods(c, c1, d);
    ResizeExact(c1, d, newest, ids);
    SamePods(ReconcileOne(c, d, newest, ids), Resize(c1, d, newest, ids), d);
  }

  // ----- doing it again

  /** A settled deployment: enough pods, nothing left to cancel if too many, and the right status. */
  ghost predicate Settled(c: Cluster, d: string) {
    && d in c.deployments && c.deployments[d].status != DeploymentCancelled
    && |ActivePods(c, d)| >= c.deployments[d].replicas
    && (|ActivePods(c, d)| > c.deployments[d].replicas ==> Cancellable(c, d) == {})
    && c.deployments[d].status == if HasDeadLetter(c, d) then DeploymentDegraded else DeploymentActive
  }

  lemma SettledStays(c: Cluster, d: string, newest: seq<string>, ids: IdSource)
    requires Settled(c, d) && Enumerates(newest, Cancellable(c, d))
    ensures ReconcileOne(c, d, newest, ids) == c
  {
    EnumerationSize(newest, Cancellable(c, d));
  }

  lemma ResizeLeavesNothing(c: Cluster, d: string, newest: seq<string>, ids: IdSource)
    requires d in c.deployments && Enumerates(newest, Cancellable(c, d)) && FreshIds(c, ids)
    ensures var t := Resize(c, d, newest, ids);
            |ActivePods(t, d)| > c.deployments[d].replicas ==> Cancellable(t, d) == {}
  {
    var active, replicas := |ActivePods(c, d)|, c.deployments[d].replicas;
    ResizeExact(c, d, newest, ids);
    EnumerationSize(newest, Cancellable(c, d));
    if |ActivePods(Resize(c, d, newest, ids), d)| > replicas {
      CancellableListed(c, d, newest);
      CancelExactly(c, newest, |newest|);
      assert newest[..|newest|] == newest;
      assert forall p :: p in Cancellable(c, d) ==> p in newest;
      assert Cancellable(CancelPods(c, newest, |newest|), d) == {};
    }
  }

  /** One turn settles a deployment from any state at all, so a second turn does nothing. */
  lemma TurnIdempotent(c: Cluster, d: string, newest: seq<string>, ids: IdSource, newest': seq<string>, ids': IdSource)
    requires d in c.deployments && Enumerates(newest, Cancellable(c, d)) && FreshIds(c, ids)
    requires Enumerates(newest', Cancellable(ReconcileOne(c, d, newest, ids), d))
    ensures ReconcileOne(ReconcileOne(c, d, newest, ids), d, newest', ids') == ReconcileOne(c, d, newest, ids)
  {
    if c.deployments[d].status != DeploymentCancelled {
      PassSettles(c, d, newest, ids);
      SettledStays(ReconcileOne(c, d, newest, ids), d, newest', ids');
    }
  }

  lemma PassSettles(c: Cluster, d: string, newest: seq<string>, ids: IdSource)
    requires d in c.deployments && c.deployments[d].status != DeploymentCancelled
    requires Enumerates(newest, Cancellable(c, d)) && FreshIds(c, ids)
    ensures Settled(ReconcileOne(c, d, newest, ids), d)
  {
    var t := ReconcileOne(c, d, newest, ids);
    var c1 := Activated(c, d);
    PodsFromResize(c, d, newest, ids);
    SamePods(c, c1, d);
    StatusExact(c, d, newest, ids);
    ReconcileExact(c, d, newest, ids);
    ReconcileOneLocal(c, d, newest, ids);
    ResizeLeavesNothing(c1, d, newest, ids);
    SamePods(t, Resize(c1, d, newest, ids), d);
  }

  // ----- all deployments

  /** Exactly as it should be: cancelled, or with Replicas active pods and the status its pods call for. */
  ghost predicate Filled(c: Cluster, d: string) {
    && d in c.deployments
    && (c.deployments[d].status == DeploymentCancelled
        || (&& |ActivePods(c, d)| == c.deployments[d].replicas
            && c.deployments[d].status == if HasDeadLetter(c, d) then DeploymentDegraded else DeploymentActive))
  }

  /** From any state events lead to, a pass over all deployments with fresh ids fills every
      deployment that is not cancelled to exactly Replicas and sets its status. */
  lemma {:induction false} AllFilled(c: Cluster, order: seq<string>, newest: map<string, seq<string>>, ids: IdSource, d: string)
    requires Inv(c) && Distinct(order) && Listed(c, newest, order) && FreshIds(c, ids) && d in order && d in c.deployments
    ensures var t := ReconcileAll(c, order, newest, ids);
            Filled(t, d) && t.deployments[d] == c.deployments[d].(status := t.deployments[d].status)
    ensures ReconcileAll(c, order, newest, ids).deployments[d].status == DeploymentCancelled
            <==> c.deployments[d].status == DeploymentCancelled
    decreases |order|
  {
    var front, last := order[..|order| - 1], order[|order| - 1];
    var b := ReconcileAll(c, front, newest, ids);
    assert order == front + [last];
    assert last !in front;
    KeepsReconcileAll(c, front, newest, ids);
    if d == last {
      FrontLeaves(c, front, newest, ids, d);
      assert DeploymentInv(c, d);
      LastFills(b, d, newest[d], ids);
    } else {
      AllFilled(c, front, newest, ids, d);
      assert Cancellable(b, last) == Cancellable(c, last);
      OtherStaysFilled(b, last, newest[last], ids, d);
    }
  }

  lemma OtherStaysFilled(c: Cluster, e: string, newest: seq<string>, ids: IdSource, d: string)
    requires e != d && Filled(c, d) && (e in c.deployments ==> Enumerates(newest, Cancellable(c, e)))
    ensures Filled(ReconcileOne(c, e, newest, ids), d)
    ensures ReconcileOne(c, e, newest, ids).deployments[d] == c.deployments[d]
  {
    var t := ReconcileOne(c, e, newest, ids);
    ReconcileOneLocal(c, e, newest, ids);
    assert ActivePods(t, d) == ActivePods(c, d);
    OtherDeadLetters(c, t, e, d);
  }

  lemma OtherDeadLetters(c: Cluster, t: Cluster, e: string, d: string)
    requires PodsLocal(c, t, e) && e != d
    ensures HasDeadLetter(t, d) <==> HasDeadLetter(c, d)
  {
    if HasDeadLetter(c, d) {
      var q :| q in c.pods && c.pods[q].deployment == d && c.pods[q].status == DeadLetter;
      assert q in t.pods && t.pods[q] == c.pods[q];
    }
  }

  lemma FilledStays(c: Cluster, d: string, newest: seq<string>, ids: IdSource)
    requires d in c.deployments ==> Filled(c, d)
    ensures ReconcileOne(c, d, newest, ids) == c
  {
  }

  lemma {:induction false} AllFilledStay(c: Cluster, order: seq<string>, newest: map<string, seq<string>>, ids: IdSource)
    requires forall d :: d in c.deployments ==> Filled(c, d)
    ensures ReconcileAll(c, order, newest, ids) == c
    decreases |order|
  {
    if order == [] {
    } else {
      AllFilledStay(c, order[..|order| - 1], newest, ids);
      var d := order[|order| - 1];
      FilledStays(c, d, if d in newest then newest[d] else [], ids);
    }
  }

  /** After a pass with fresh ids from any state events lead to, a second one, in any order and with
      any listings and ids, changes nothing at all. */
  lemma PassIdempotent(c: Cluster, order: seq<string>, newest: map<string, seq<string>>, ids: IdSource,
      order': seq<string>, newest': map<string, seq<string>>, ids': IdSource)
    requires Inv(c) && Enumerates(order, c.deployments.Keys) && Listed(c, newest, order) && FreshIds(c, ids)
    ensures var t := ReconcileAll(c, order, newest, ids);
            ReconcileAll(t, order', newest', ids') == t
  {
    var t := ReconcileAll(c, order, newest, ids);
    NoNewDeployments(c, order, newest, ids);
    forall d | d in t.deployments ensures Filled(t, d) {
      assert d in order;
      AllFilled(c, order, newest, ids, d);
    }
    AllFilledStay(t, order', newest', ids');
  }

  lemma {:induction false} NoNewDeployments(c: Cluster, order: seq<string>, newest: map<string, seq<string>>, ids: IdSource)
    requires Inv(c) && Distinct(order) && Listed(c, newest, order)
    ensures ReconcileAll(c, order, newest, ids).deployments.Keys == c.deployments.Keys
    decreases |order|
  {
    if order == [] {
    } else {
      var front, d := order[..|order| - 1], order[|order| - 1];
      assert d !in front;
      NoNewDeployments(c, front, newest, ids);
      KeepsReconcileAll(c, front, newest, ids);
      ReconcileOneLocal(ReconcileAll(c, front, newest, ids), d, newest[d], ids);
    }
  }

  /** `d` and the ids meant for it are untouched. */
  ghost predicate Untouched(c: Cluster, t: Cluster, d: string, ids: IdSource) {
    && Cancellable(t, d) == Cancellable(c, d) && ActivePods(t, d) == ActivePods(c, d)
    && d in c.deployments && d in t.deployments && t.deployments[d] == c.deployments[d]
    && forall i :: ids(d, i) !in t.pods
  }

  lemma OtherLeaves(c: Cluster, e: string, newest: seq<string>, ids: IdSource, d: string)
    requires e != d && d in c.deployments && (e in c.deployments ==> Enumerates(newest, Cancellable(c, e)))
    requires forall i, j :: ids(d, i) != ids(e, j)
    requires forall i :: ids(d, i) !in c.pods
    ensures Untouched(c, ReconcileOne(c, e, newest, ids), d, ids)
  {
    var t := ReconcileOne(c, e, newest, ids);
    ReconcileOneLocal(c, e, newest, ids);
    OnlyOwnIds(c, e, newest, ids);
    assert Cancellable(t, d) == Cancellable(c, d) && ActivePods(t, d) == ActivePods(c, d);
    forall i ensures ids(d, i) !in t.pods {
      assert ids(d, i) !in c.pods;
      assert forall j :: ids(e, j) != ids(d, i);
    }
  }

  /** `d` is as it was after other deployments were reconciled. */
  lemma {:induction false} FrontLeaves(c: Cluster, front: seq<string>, newest: map<string, seq<string>>, ids: IdSource, d: string)
    requires Inv(c) && Distinct(front) && Listed(c, newest, front) && FreshIds(c, ids) && d in c.deployments && d !in front
    ensures Untouched(c, ReconcileAll(c, front, newest, ids), d, ids)
    decreases |front|
  {
    if front == [] {
    } else {
      var rest, e := front[..|front| - 1], front[|front| - 1];
      assert front == rest + [e];
      assert e !in rest;
      FrontLeaves(c, rest, newest, ids, d);
      KeepsReconcileAll(c, rest, newest, ids);
      OtherLeaves(ReconcileAll(c, rest, newest, ids), e, newest[e], ids, d);
    }
  }

  /** New pods of `e` carry ids drawn for `e`. */
  lemma OnlyOwnIds(c: Cluster, e: string, newest: seq<string>, ids: IdSource)
    requires e in c.deployments ==> Enumerates(newest, Cancellable(c, e))
    ensures forall p :: p in ReconcileOne(c, e, newest, ids).pods && p !in c.pods ==> exists j :: ids(e, j) == p
  {
    if e in c.deployments && c.deployments[e].status != DeploymentCancelled {
      PodsFromResize(c, e, newest, ids);
      SamePods(c, Activated(c, e), e);
      ResizeOwnIds(Activated(c, e), e, newest, ids);
    }
  }

  lemma ResizeOwnIds(c: Cluster, e: string, newest: seq<string>, ids: IdSource)
    requires e in c.deployments && Enumerates(newest, Cancellable(c, e))
    ensures forall p :: p in Resize(c, e, newest, ids).pods && p !in c.pods ==> exists j :: ids(e, j) == p
  {
    var active, replicas := |ActivePods(c, e)|, c.deployments[e].replicas;
    if active < replicas {
      CreatedIds(c, e, replicas - active, ids);
    } else if active > replicas {
      CancellableListed(c, e, newest);
      CancelExactly(c, newest, if active - replicas < |newest| then active - replicas else |newest|);
    }
  }

  lemma LastFills(c: Cluster, d: string, newest: seq<string>, ids: IdSource)
    requires d in c.deployments && |ActivePods(c, d)| <= c.deployments[d].replicas && Enumerates(newest, Cancellable(c, d))
    requires forall i :: ids(d, i) !in c.pods
    requires forall i, j :: ids(d, i) == ids(d, j) ==> i == j
    ensures var t := ReconcileOne(c, d, newest, ids);
            && Filled(t, d) && t.deployments[d] == c.deployments[d].(status := t.deployments[d].status)
            && (t.deployments[d].status == DeploymentCancelled <==> c.deployments[d].status == DeploymentCancelled)
  {
    if c.deployments[d].status != DeploymentCancelled {
      CountFills(c, d, newest, ids);
      StatusExact(c, d, newest, ids);
      ReconcileOneLocal(c, d, newest, ids);
    }
  }

  lemma CountFills(c: Cluster, d: string, newest: seq<string>, ids: IdSource)
    requires d in c.deployments && c.deployments[d].status != DeploymentCancelled
    requires |ActivePods(c, d)| <= c.deployments[d].replicas
    requires forall i :: ids(d, i) !in c.pods
    requires forall i, j :: ids(d, i) == ids(d, j) ==> i == j
    ensures |ActivePods(ReconcileOne(c, d, newest, ids), d)| == c.deployments[d].replicas
  {
    var c1 := Activated(c, d);
    PodsFromResize(c, d, newest, ids);
    SamePods(c, c1, d);
    SamePods(ReconcileOne(c, d, newest, ids), Resize(c1, d, newest, ids), d);
    if |ActivePods(c1, d)| < c1.deployments[d].replicas {
      CreateExactly(c1, d, c1.deployments[d].replicas - |ActivePods(c1, d)|, ids);
    }
  }
}
