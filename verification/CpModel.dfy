/** The control plane's records and their transition tables. Each record is stored under its id,
    so the id is not repeated in it. */
module CpModel {
  import opened Options

  type Time = int

  /** CPU as an exact number: rounding is not part of this model. */
  datatype Resources = Resources(cpu: real, memory: int) {
    function Plus(r: Resources): Resources {
      Resources(cpu + r.cpu, memory + r.memory)
    }

    function Minus(r: Resources): Resources {
      Resources(cpu - r.cpu, memory - r.memory)
    }

    /** Componentwise at least `r`. */
    predicate Covers(r: Resources) {
      cpu >= r.cpu && memory >= r.memory
    }

    predicate NonNegative() {
      cpu >= 0.0 && memory >= 0
    }
  }

  const NONE := Resources(0.0, 0)

  datatype PodStatus = Pending | Scheduled | Running | Succeeded | Failed | Retrying | DeadLetter | Cancelled

  predicate PodAllowed(from: PodStatus, to: PodStatus) {
    match from
    case Pending => to == Scheduled || to == Cancelled
    case Scheduled => to == Running || to == Pending || to == Cancelled
    case Running => to == Succeeded || to == Failed || to == Cancelled
    case Failed => to == Retrying || to == DeadLetter
    case Retrying => to == Pending || to == Scheduled
    case Succeeded | DeadLetter | Cancelled => false
  }

  datatype Pod = Pod(
    deployment: string, node: Option<string>, attempt: nat, status: PodStatus,
    exitCode: Option<int>, output: string, createdAt: Time, runAfter: Option<Time>)

  /** The pod still fills one of its deployment's replica slots. */
  predicate Active(status: PodStatus) {
    status != DeadLetter && status != Cancelled
  }

  /** The pod is placed on a node and may still run there. */
  predicate Assigned(status: PodStatus) {
    status == Scheduled || status == Running
  }

  /** The backoff gate: open from RunAfter on. */
  predicate GateOpen(pod: Pod, now: Time) {
    pod.runAfter == None || pod.runAfter.value <= now
  }

  datatype NodeStatus = Registering | Healthy | Draining | Unhealthy | Removed

  predicate NodeAllowed(from: NodeStatus, to: NodeStatus) {
    match from
    case Registering => to == Healthy || to == Unhealthy
    case Healthy => to == Draining || to == Unhealthy
    case Draining => to == Removed || to == Unhealthy
    case Unhealthy => to == Healthy || to == Removed
    case Removed => false
  }

  datatype Node = Node(
    status: NodeStatus, capacity: Resources, available: Resources, running: int, maxConcurrent: int,
    lastHeartbeat: Time, registeredAt: Time)

  predicate HasCapacityFor(node: Node, required: Resources) {
    !(node.maxConcurrent > 0 && node.running >= node.maxConcurrent) && node.available.Covers(required)
  }

  /** The scheduler may place a pod with this request here. */
  predicate Eligible(node: Node, required: Resources) {
    node.status == Healthy && HasCapacityFor(node, required)
  }

  datatype DeploymentStatus = DeploymentPending | DeploymentActive | DeploymentDegraded | DeploymentCancelled

  predicate DeploymentAllowed(from: DeploymentStatus, to: DeploymentStatus) {
    match from
    case DeploymentPending => to == DeploymentActive || to == DeploymentCancelled
    case DeploymentActive => to == DeploymentDegraded || to == DeploymentCancelled
    case DeploymentDegraded => to == DeploymentActive || to == DeploymentCancelled
    case DeploymentCancelled => false
  }

  datatype Deployment = Deployment(replicas: int, maxRetries: int, resources: Resources, status: DeploymentStatus)

  /** How many attempts a deployment's pods may lose before they are given up. */
  function Budget(d: Deployment): nat {
    if d.maxRetries > 0 then d.maxRetries else 0
  }
}
