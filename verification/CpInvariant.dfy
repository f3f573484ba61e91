/** What every event of every run keeps. */
module CpInvariant {
  import opened Options
  import opened CpModel
  import opened CpCluster
  import opened Listing

  // ----- the ledger

  ghost predicate HasCharge(ledger: seq<Charge>, n: string, p: string) {
    exists i :: 0 <= i < |ledger| && ledger[i].node == n && ledger[i].pod == p
  }

  /** What is reserved on a node and not given back. */
  function Reserved(ledger: seq<Charge>, n: string): Resources {
    if ledger == [] then NONE
    else
      var rest, last := Reserved(ledger[..|ledger| - 1], n), ledger[|ledger| - 1];
      if last.node == n then rest.Plus(last.amount) else rest
  }

  lemma ReservedAppend(ledger: seq<Charge>, ch: Charge, n: string)
    ensures Reserved(ledger + [ch], n) == if ch.node == n then Reserved(ledger, n).Plus(ch.amount) else Reserved(ledger, n)
  {
    assert (ledger + [ch])[..|ledger|] == ledger;
  }

  lemma {:induction false} ReservedNonNegative(ledger: seq<Charge>, n: string)
    requires forall i :: 0 <= i < |ledger| ==> ledger[i].amount.NonNegative()
    ensures Reserved(ledger, n).NonNegative()
  {
    if ledger == [] {
    } else {
      ReservedNonNegative(ledger[..|ledger| - 1], n);
    }
  }

  /** Settling takes one entry of that placement out and leaves every other placement's entries. */
  lemma {:induction false} SettleTakesOne(ledger: seq<Charge>, n: string, p: string, amount: Resources, m: string)
    requires HasCharge(ledger, n, p)
    requires forall i :: 0 <= i < |ledger| && ledger[i].pod == p ==> ledger[i].amount == amount
    ensures Reserved(ledger, m) == if m == n then Reserved(Settle(ledger, n, p), m).Plus(amount) else Reserved(Settle(ledger, n, p), m)
  {
    var front, last := ledger[..|ledger| - 1], ledger[|ledger| - 1];
    if !(last.node == n && last.pod == p) {
      SettleTakesOne(front, n, p, amount, m);
      ReservedAppend(Settle(front, n, p), last, m);
    }
  }

  lemma {:induction false} SettleKeepsOthers(ledger: seq<Charge>, n: string, p: string)
    ensures forall i :: 0 <= i < |Settle(ledger, n, p)| ==> Settle(ledger, n, p)[i] in ledger
    ensures forall m, q :: (m, q) != (n, p) && HasCharge(ledger, m, q) ==> HasCharge(Settle(ledger, n, p), m, q)
  {
    if ledger == [] {
    } else {
      var front, last := ledger[..|ledger| - 1], ledger[|ledger| - 1];
      SettleKeepsOthers(front, n, p);
      forall m, q | (m, q) != (n, p) && HasCharge(ledger, m, q)
        ensures HasCharge(Settle(ledger, n, p), m, q)
      {
        var i :| 0 <= i < |ledger| && ledger[i].node == m && ledger[i].pod == q;
        if i < |front| {
          assert front[i] == ledger[i];
          assert HasCharge(front, m, q);
          if !(last.node == n && last.pod == p) {
            ChargeStays(Settle(front, n, p), last, m, q);
          }
        } else {
          var kept := Settle(front, n, p) + [last];
          assert kept[|kept| - 1] == last;
        }
      }
    }
  }

  lemma ChargeStays(ledger: seq<Charge>, ch: Charge, n: string, p: string)
    ensures HasCharge(ledger, n, p) ==> HasCharge(ledger + [ch], n, p)
    ensures HasCharge(ledger + [ch], ch.node, ch.pod)
  {
    if HasCharge(ledger, n, p) {
      var i :| 0 <= i < |ledger| && ledger[i].node == n && ledger[i].pod == p;
      assert (ledger + [ch])[i] == ledger[i];
    }
    assert (ledger + [ch])[|ledger|] == ch;
  }

  // ----- the invariant

  /** The pod could still become or be placed. */
  predicate Unfinished(status: PodStatus) {
    status == Pending || Assigned(status)
  }

  ghost predicate PlacedRight(c: Cluster, p: string)
    requires p in c.pods
  {
    var pod := c.pods[p];
    && (pod.status == Pending ==> pod.node == None)
    && (Assigned(pod.status) ==>
          && pod.node.Some? && pod.node.value in c.nodes
          && c.nodes[pod.node.value].status in {Healthy, Draining}
          && HasCharge(c.ledger, pod.node.value, p)
          && GateOpen(pod, c.clock))
  }

  ghost predicate WithinBudget(c: Cluster, p: string)
    requires p in c.pods && c.pods[p].deployment in c.deployments
  {
    var pod, budget := c.pods[p], Budget(c.deployments[c.pods[p].deployment]);
    if pod.status == DeadLetter then pod.attempt == budget + 1 else pod.attempt <= budget
  }

  /** A node that once picked the pod up still has a reservation for it, while it matters. */
  ghost predicate PickUpsCharged(c: Cluster, p: string)
    requires p in c.pods
  {
    Unfinished(c.pods[p].status) ==> forall n :: (n, p) in c.polled ==> n in c.nodes && HasCharge(c.ledger, n, p)
  }

  ghost predicate PodInv(c: Cluster, p: string)
    requires p in c.pods
  {
    && c.pods[p].deployment in c.deployments && c.pods[p].status != Retrying
    && PlacedRight(c, p) && WithinBudget(c, p) && PickUpsCharged(c, p)
  }

  ghost predicate NodeInv(c: Cluster, n: string)
    requires n in c.nodes
  {
    var node := c.nodes[n];
    && node.available == node.capacity.Minus(Reserved(c.ledger, n))
    && node.available.NonNegative()
  }

  ghost predicate DeploymentInv(c: Cluster, d: string)
    requires d in c.deployments
  {
    && c.deployments[d].replicas >= 1 && c.deployments[d].resources.NonNegative()
    && |ActivePods(c, d)| <= c.deployments[d].replicas
    && (c.deployments[d].status == DeploymentDegraded ==> HasDeadLetter(c, d))
  }

  ghost predicate ChargeInv(c: Cluster, ch: Charge) {
    ch.node in c.nodes && ch.pod in c.pods && ch.amount == RequestOf(c, ch.pod)
  }

  ghost predicate PodsInv(c: Cluster) {
    forall p :: p in c.pods ==> PodInv(c, p)
  }

  ghost predicate NodesInv(c: Cluster) {
    forall n :: n in c.nodes ==> NodeInv(c, n)
  }

  ghost predicate DeploymentsInv(c: Cluster) {
    forall d :: d in c.deployments ==> DeploymentInv(c, d)
  }

  ghost predicate LedgerInv(c: Cluster) {
    && (forall i :: 0 <= i < |c.ledger| ==> ChargeInv(c, c.ledger[i]))
    && (forall n, p :: (n, p) in c.polled ==> n in c.nodes && p in c.pods)
  }

  ghost predicate Inv(c: Cluster) {
    PodsInv(c) && NodesInv(c) && DeploymentsInv(c) && LedgerInv(c)
  }

  /** Charges are never negative, because requests are not. */
  lemma AmountsNonNegative(c: Cluster)
    requires Inv(c)
    ensures forall i :: 0 <= i < |c.ledger| ==> c.ledger[i].amount.NonNegative()
  {
    forall i | 0 <= i < |c.ledger| ensures c.ledger[i].amount.NonNegative() {
      assert ChargeInv(c, c.ledger[i]);
      assert PodInv(c, c.ledger[i].pod);
    }
  }

  // ----- slots only ever empty

  /** From `b` to `c` deployment `d` gained no active pod. */
  lemma FewerActive(b: Cluster, c: Cluster, d: string)
    requires ActivePods(c, d) <= ActivePods(b, d)
    ensures |ActivePods(c, d)| <= |ActivePods(b, d)|
  {
    SubsetSize(ActivePods(c, d), ActivePods(b, d));
  }
}
