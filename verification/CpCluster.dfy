/** The cluster as a state machine: one event is one API call or one whole tick of the scheduler or
    the reconciler. Listings of the concurrent maps come in any order, so the events that need one
    carry it. */
module CpCluster {
  import opened Options
  import opened CpModel
  import opened Listing
  import Backoff

  /** `ledger` records, beside the code, which reservations were made and not given back: one entry
      per placement of a pod on a node. `polled` records which pods an agent has picked up. */
  datatype Cluster = Cluster(
    deployments: map<string, Deployment>, pods: map<string, Pod>, nodes: map<string, Node>,
    timeout: Time, clock: Time, ledger: seq<Charge>, polled: set<(string, string)>)

  datatype Charge = Charge(node: string, pod: string, amount: Resources)

  /** The resources a pod of this deployment takes; none if the deployment is unknown. */
  function Request(c: Cluster, deployment: string): Resources {
    if deployment in c.deployments then c.deployments[deployment].resources else NONE
  }

  function RequestOf(c: Cluster, pod: string): Resources {
    if pod in c.pods then Request(c, c.pods[pod].deployment) else NONE
  }

  // ----- API calls

  /** The first candidate not taken yet; ids are drawn at most five times. */
  function FirstUnused(candidates: seq<string>, used: set<string>): Option<string> {
    if candidates == [] then None
    else if candidates[0] !in used then Some(candidates[0])
    else FirstUnused(candidates[1..], used)
  }

  const MAX_ID_ATTEMPTS := 5

  function CreateDeployment(c: Cluster, ids: seq<string>, replicas: int, maxRetries: int, resources: Resources): Cluster {
    match FirstUnused(ids, c.deployments.Keys)
    case None => c
    case Some(id) =>
      var wanted := if replicas <= 0 then 1 else replicas;
      c.(deployments := c.deployments[id := Deployment(wanted, maxRetries, resources, DeploymentPending)])
  }

  function TransitionDeployment(c: Cluster, id: string, to: DeploymentStatus): Cluster {
    if id in c.deployments && DeploymentAllowed(c.deployments[id].status, to)
    then c.(deployments := c.deployments[id := c.deployments[id].(status := to)])
    else c
  }

  function TransitionNode(c: Cluster, id: string, to: NodeStatus): Cluster {
    if id in c.nodes && NodeAllowed(c.nodes[id].status, to)
    then c.(nodes := c.nodes[id := c.nodes[id].(status := to)])
    else c
  }

  function TransitionPod(c: Cluster, id: string, to: PodStatus): Cluster {
    if id in c.pods && PodAllowed(c.pods[id].status, to)
    then c.(pods := c.pods[id := c.pods[id].(status := to)])
    else c
  }

  /** Registering is proof of life: the node is HEALTHY at once. */
  function RegisterNode(c: Cluster, ids: seq<string>, capacity: Resources, maxConcurrent: int): Cluster {
    match FirstUnused(ids, c.nodes.Keys)
    case None => c
    case Some(id) =>
      var node := Node(Registering, capacity, capacity, 0, maxConcurrent, c.clock, c.clock);
      TransitionNode(c.(nodes := c.nodes[id := node]), id, Healthy)
  }

  /** A heartbeat: it reports how many pods the node runs and may overwrite what it has available. */
  function Heartbeat(c: Cluster, n: string, running: int, available: Resources): Cluster {
    if n !in c.nodes then c
    else
      var left := if available != NONE then available else c.nodes[n].available;
      var c1 := c.(nodes := c.nodes[n := c.nodes[n].(lastHeartbeat := c.clock, running := running, available := left)]);
      if c.nodes[n].status == Unhealthy then TransitionNode(c1, n, Healthy) else c1
  }

  function Poll(c: Cluster, n: string, p: string): Cluster {
    c.(polled := c.polled + {(n, p)})
  }

  predicate FreesCapacity(status: PodStatus) {
    status == Succeeded || status == Failed || status == Cancelled
  }

  /** Gives a pod's reservation back to the node that reports it, clamped to the capacity. */
  function ReleaseCapacity(c: Cluster, n: string, deployment: string): Cluster {
    if n !in c.nodes then c
    else
      var node := c.nodes[n];
      var fewer := node.(running := if node.running > 0 then node.running - 1 else node.running);
      var freed :=
        if deployment in c.deployments
        then fewer.(available := Clamp(node.available.Plus(c.deployments[deployment].resources), node.capacity))
        else fewer;
      c.(nodes := c.nodes[n := freed])
  }

  function Clamp(r: Resources, limit: Resources): Resources {
    Resources(if r.cpu > limit.cpu then limit.cpu else r.cpu,
              if r.memory > limit.memory then limit.memory else r.memory)
  }

  /** The ledger without one entry for this placement. */
  function Settle(ledger: seq<Charge>, n: string, p: string): seq<Charge> {
    if ledger == [] then []
    else
      var front, last := ledger[..|ledger| - 1], ledger[|ledger| - 1];
      if last.node == n && last.pod == p then front else Settle(front, n, p) + [last]
  }

  /** A status report by node `n` for pod `p`. Exit code and output are written even if the
      transition is then refused; capacity comes back only when the pod was RUNNING. */
  function Report(c: Cluster, n: string, p: string, status: PodStatus, exitCode: Option<int>, output: string): Cluster {
    if p !in c.pods then c
    else
      var pod := c.pods[p];
      var c1 := c.(pods := c.pods[p := pod.(exitCode := exitCode, output := output)]);
      if !PodAllowed(pod.status, status) then c1
      else
        var c2 := TransitionPod(c1, p, status);
        if pod.status == Running && FreesCapacity(status)
        then ReleaseCapacity(c2, n, pod.deployment).(ledger := Settle(c.ledger, n, p))
        else c2
  }

  // ----- the scheduler's tick

  /** `n` beats `best`: fewer running pods, then earlier registration. */
  predicate Better(n: Node, best: Node) {
    n.running < best.running || (n.running == best.running && n.registeredAt < best.registeredAt)
  }

  /** The node chosen among `order` for this request, scanning left to right. */
  function SelectNode(nodes: map<string, Node>, order: seq<string>, required: Resources): (best: Option<string>)
    ensures best.Some? ==> best.value in order && best.value in nodes && Eligible(nodes[best.value], required)
  {
    if order == [] then None
    else
      var front, n := order[..|order| - 1], order[|order| - 1];
      var best := SelectNode(nodes, front, required);
      if n in nodes && Eligible(nodes[n], required) && (best == None || Better(nodes[n], nodes[best.value]))
      then Some(n)
      else best
  }

  /** Reserves `n` for `p`. */
  function Place(c: Cluster, p: string, n: string): Cluster
    requires p in c.pods && n in c.nodes
  {
    var required := RequestOf(c, p);
    c.(pods := c.pods[p := c.pods[p].(node := Some(n), status := Scheduled)],
       nodes := c.nodes[n := c.nodes[n].(available := c.nodes[n].available.Minus(required), running := c.nodes[n].running + 1)],
       ledger := c.ledger + [Charge(n, p, required)])
  }

  function ScheduleOne(c: Cluster, p: string, order: seq<string>): Cluster {
    if p !in c.pods || c.pods[p].status != Pending || !GateOpen(c.pods[p], c.clock) then c
    else
      match SelectNode(c.nodes, order, RequestOf(c, p))
      case None => c
      case Some(n) => Place(c, p, n)
  }

  function ScheduleAll(c: Cluster, pending: seq<string>, order: seq<string>): Cluster
    decreases |pending|
  {
    if pending == [] then c
    else ScheduleOne(ScheduleAll(c, pending[..|pending| - 1], order), pending[|pending| - 1], order)
  }

  // ----- the reconciler's tick

  function PodsOf(c: Cluster, d: string): set<string> {
    set p | p in c.pods && c.pods[p].deployment == d
  }

  function ActivePods(c: Cluster, d: string): set<string> {
    set p | p in c.pods && c.pods[p].deployment == d && Active(c.pods[p].status)
  }

  function Cancellable(c: Cluster, d: string): set<string> {
    set p | p in c.pods && c.pods[p].deployment == d
            && (c.pods[p].status == Pending || c.pods[p].status == Scheduled)
  }

  predicate HasDeadLetter(c: Cluster, d: string) {
    exists p :: p in c.pods && c.pods[p].deployment == d && c.pods[p].status == DeadLetter
  }

  /** Where new pod ids come from. Nothing is assumed about it: an id already taken is refused. */
  type IdSource = (string, nat) -> string

  function NewPod(d: string, now: Time): Pod {
    Pod(d, None, 0, Pending, None, "", now, None)
  }

  /** Tries to create pods for `d` with the ids number 0 to n-1. */
  function CreatePods(c: Cluster, d: string, n: nat, ids: IdSource): Cluster {
    if n == 0 then c
    else
      var c1 := CreatePods(c, d, n - 1, ids);
      if ids(d, n - 1) in c1.pods then c1
      else c1.(pods := c1.pods[ids(d, n - 1) := NewPod(d, c.clock)])
  }

  /** Cancels the first n pods of `order`. */
  function CancelPods(c: Cluster, order: seq<string>, n: nat): Cluster
    requires n <= |order|
  {
    if n == 0 then c else TransitionPod(CancelPods(c, order, n - 1), order[n - 1], Cancelled)
  }

  /** Creates what is missing or cancels what is too much; `newest` is the cancellable pods, newest
      first. */
  function Resize(c: Cluster, d: string, newest: seq<string>, ids: IdSource): Cluster
    requires d in c.deployments
  {
    var active, replicas := |ActivePods(c, d)|, c.deployments[d].replicas;
    if active < replicas then CreatePods(c, d, replicas - active, ids)
    else if active > replicas then CancelPods(c, newest, if active - replicas < |newest| then active - replicas else |newest|)
    else c
  }

  function ReconcileOne(c: Cluster, d: string, newest: seq<string>, ids: IdSource): Cluster {
    if d !in c.deployments || c.deployments[d].status == DeploymentCancelled then c
    else
      var c1 := if c.deployments[d].status == DeploymentPending then TransitionDeployment(c, d, DeploymentActive) else c;
      var c2 := Resize(c1, d, newest, ids);
      SetStatus(c2, d, HasDeadLetter(c1, d), c1.deployments[d].status)
  }

  /** A dead letter makes an ACTIVE deployment DEGRADED; none makes a DEGRADED one ACTIVE. */
  function SetStatus(c: Cluster, d: string, dead: bool, status: DeploymentStatus): Cluster {
    if dead && status == DeploymentActive then TransitionDeployment(c, d, DeploymentDegraded)
    else if !dead && status == DeploymentDegraded then TransitionDeployment(c, d, DeploymentActive)
    else c
  }

  /** `newest` gives, per deployment, the order in which a scale-down would cancel. */
  function ReconcileAll(c: Cluster, order: seq<string>, newest: map<string, seq<string>>, ids: IdSource): Cluster {
    if order == [] then c
    else
      var d := order[|order| - 1];
      ReconcileOne(ReconcileAll(c, order[..|order| - 1], newest, ids), d, if d in newest then newest[d] else [], ids)
  }

  predicate TimedOut(node: Node, now: Time, timeout: Time) {
    now - node.lastHeartbeat > timeout
  }

  /** The node is given up in this tick. */
  predicate Lost(node: Node, now: Time, timeout: Time) {
    (node.status == Healthy || node.status == Draining) && TimedOut(node, now, timeout)
  }

  function Marked(node: Node, now: Time, timeout: Time): Node {
    if !Lost(node, now, timeout) then node
    else node.(status := if node.status == Healthy then Unhealthy else Removed)
  }

  /** A pod whose node was lost: unstarted ones go back for free, running ones use up an attempt and
      either wait out a backoff or are given up. A pod given up keeps its node. */
  function Requeued(pod: Pod, maxRetries: int, now: Time): Pod {
    match pod.status
    case Scheduled => pod.(node := None, status := Pending)
    case Running =>
      var attempt := pod.attempt + 1;
      if attempt <= maxRetries
      then pod.(attempt := attempt, runAfter := Some(now + Backoff.Delay(attempt)), node := None, status := Pending)
      else pod.(attempt := attempt, status := DeadLetter)
    case _ => pod
  }

  function MaxRetries(c: Cluster, d: string): int {
    if d in c.deployments then c.deployments[d].maxRetries else 0
  }

  predicate OnLostNode(c: Cluster, pod: Pod) {
    pod.node.Some? && pod.node.value in c.nodes && Lost(c.nodes[pod.node.value], c.clock, c.timeout)
  }

  /** The pod's record once lost nodes are dealt with. */
  function AfterLoss(c: Cluster, pod: Pod): Pod {
    if OnLostNode(c, pod) then Requeued(pod, MaxRetries(c, pod.deployment), c.clock) else pod
  }

  /** Heartbeat timeouts. Nodes do not share pods, so the order of the walk does not matter. */
  function DetectLost(c: Cluster): Cluster {
    c.(nodes := map n | n in c.nodes :: Marked(c.nodes[n], c.clock, c.timeout),
       pods := map p | p in c.pods :: AfterLoss(c, c.pods[p]))
  }

  // ----- events

  datatype Event =
    | Submit(ids: seq<string>, replicas: int, maxRetries: int, resources: Resources)
    | Withdraw(d: string)
    | Join(ids: seq<string>, capacity: Resources, maxConcurrent: int)
    | Beat(n: string, running: int)
    | Drain(n: string)
    | PickUp(n: string, p: string)
    | Tell(n: string, p: string, status: PodStatus, exitCode: Option<int>, output: string)
    | Schedule(pending: seq<string>, order: seq<string>)
    | Reconcile(deployments: seq<string>, newest: map<string, seq<string>>, source: IdSource)
    | Advance(elapsed: nat)

  function InStatus(c: Cluster, status: PodStatus): set<string> {
    set p | p in c.pods && c.pods[p].status == status
  }

  /** Oldest first. */
  ghost predicate OldestFirst(c: Cluster, pods: seq<string>) {
    forall i, j :: 0 <= i < j < |pods| && pods[i] in c.pods && pods[j] in c.pods
                   ==> c.pods[pods[i]].createdAt <= c.pods[pods[j]].createdAt
  }

  /** Newest first. */
  ghost predicate NewestFirst(c: Cluster, pods: seq<string>) {
    forall i, j :: 0 <= i < j < |pods| && pods[i] in c.pods && pods[j] in c.pods
                   ==> c.pods[pods[i]].createdAt >= c.pods[pods[j]].createdAt
  }

  /** What an agent may say about a pod. */
  predicate Reportable(status: PodStatus) {
    status == Running || status == Succeeded || status == Failed || status == Cancelled
  }

  /** When an event can happen. Agents are honest: they pick up only pods scheduled on them and
      report only pods they picked up, but may do so late, twice or out of order. Their heartbeats
      leave the available amount empty. */
  ghost predicate Enabled(c: Cluster, e: Event) {
    match e
    case Submit(ids, _, _, resources) => |ids| == MAX_ID_ATTEMPTS && resources.NonNegative()
    case Withdraw(_) | Beat(_, _) | Drain(_) | Advance(_) => true
    case Join(ids, capacity, _) => |ids| == MAX_ID_ATTEMPTS && capacity.NonNegative()
    case PickUp(n, p) => n in c.nodes && p in c.pods && c.pods[p].node == Some(n) && c.pods[p].status == Scheduled
    case Tell(n, p, status, _, _) => (n, p) in c.polled && Reportable(status)
    case Schedule(pending, order) =>
      Enumerates(pending, InStatus(c, Pending)) && OldestFirst(c, pending) && Enumerates(order, c.nodes.Keys)
    case Reconcile(deployments, newest, _) =>
      && Enumerates(deployments, c.deployments.Keys)
      && forall d :: d in deployments ==> d in newest && Enumerates(newest[d], Cancellable(c, d)) && NewestFirst(c, newest[d])
  }

  function Apply(c: Cluster, e: Event): Cluster {
    match e
    case Submit(ids, replicas, maxRetries, resources) => CreateDeployment(c, ids, replicas, maxRetries, resources)
    case Withdraw(d) => TransitionDeployment(c, d, DeploymentCancelled)
    case Join(ids, capacity, maxConcurrent) => RegisterNode(c, ids, capacity, maxConcurrent)
    case Beat(n, running) => Heartbeat(c, n, running, NONE)
    case Drain(n) => TransitionNode(c, n, Draining)
    case PickUp(n, p) => Poll(c, n, p)
    case Tell(n, p, status, exitCode, output) => Report(c, n, p, status, exitCode, output)
    case Schedule(pending, order) => ScheduleAll(c, pending, order)
    case Reconcile(deployments, newest, source) => DetectLost(ReconcileAll(c, deployments, newest, source))
    case Advance(elapsed) => c.(clock := c.clock + elapsed)
  }

  ghost predicate Initial(c: Cluster) {
    c.deployments == map[] && c.pods == map[] && c.nodes == map[] && c.ledger == [] && c.polled == {}
  }

  ghost predicate Runs(c: Cluster, es: seq<Event>)
    decreases |es|
  {
    es == [] || (Enabled(c, es[0]) && Runs(Apply(c, es[0]), es[1..]))
  }

  ghost function After(c: Cluster, es: seq<Event>): Cluster
    requires Runs(c, es)
    decreases |es|
  {
    if es == [] then c else After(Apply(c, es[0]), es[1..])
  }

  ghost predicate Reachable(c: Cluster) {
    exists s, es :: Initial(s) && Runs(s, es) && After(s, es) == c
  }
}
