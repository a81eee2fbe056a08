/** The kinds the Instance lifecycle shares: Instance, InstancePool and TalosCluster. */
module Fleet {
  import opened ApiStore

  const LabelClaimedBy := "kontinuum.sh/claimed-by"
  const InstancePoolFinalizer := "kontinuum.sh/instancepool-teardown"
  const InstanceResetFinalizer := "kontinuum.sh/talos-reset"

  /** How long a reset is retried after the deletion, in seconds. */
  const ResetTimeout: nat := 15 * 60

  const Discovered := "Discovered"
  const Live := "Live"
  const Configured := "Configured"
  const Joined := "Joined"
  const Ready := "Ready"
  const InsufficientCapacity := "InsufficientCapacity"

  /** A status condition; the transition time is not modelled. */
  datatype Condition = Condition(status: bool, reason: string, message: Message)

  /** Condition messages are formatted from a template and two counts. */
  datatype Message = Message(text: string, claimed: int, replicas: int)

  type Conditions = map<string, Condition>

  predicate IsTrue(conds: Conditions, kind: string) {
    kind in conds && conds[kind].status
  }

  datatype InstanceSpec = InstanceSpec(interfaces: seq<string>)

  /** A discovered interface address, with what parsing it as a CIDR yields. */
  datatype Address = Unparseable | Loopback | Routable(ip: string)

  datatype InstanceStatus = InstanceStatus(conditions: Conditions, addresses: seq<Address>)

  type Instance = Object<InstanceSpec, InstanceStatus>
  type InstanceStore = Store<InstanceSpec, InstanceStatus>
  type InstanceCopy = Copy<InstanceSpec, InstanceStatus>

  function ClaimedBy(o: Instance): Option<string> {
    if LabelClaimedBy in o.labels then Some(o.labels[LabelClaimedBy]) else None
  }

  predicate IsDiscovered(o: Instance) { IsTrue(o.status.conditions, Discovered) }
  predicate IsLive(o: Instance) { IsTrue(o.status.conditions, Live) }
  predicate IsConfigured(o: Instance) { IsTrue(o.status.conditions, Configured) }

  /** Eligible for a claim: unclaimed, Discovered and Live. */
  predicate Claimable(o: Instance) {
    ClaimedBy(o).None? && IsDiscovered(o) && IsLive(o)
  }

  /** The copy tryClaim writes back. */
  function WithClaim(c: InstanceCopy, pool: string): InstanceCopy {
    c.(obj := c.obj.(labels := c.obj.labels[LabelClaimedBy := pool]))
  }

  /** The copy release writes back. */
  function WithoutClaim(c: InstanceCopy): InstanceCopy {
    c.(obj := c.obj.(labels := c.obj.labels - {LabelClaimedBy}))
  }

  function WithFinalizer(c: InstanceCopy): InstanceCopy {
    c.(obj := c.obj.(finalizers := c.obj.finalizers + {InstanceResetFinalizer}))
  }

  function WithoutFinalizer(c: InstanceCopy): InstanceCopy {
    c.(obj := c.obj.(finalizers := c.obj.finalizers - {InstanceResetFinalizer}))
  }

  function WithStatus(c: InstanceCopy, s: InstanceStatus): InstanceCopy {
    c.(obj := c.obj.(status := s))
  }

  /** The Instance at `k` is claimed by the pool. */
  predicate Holds(instances: InstanceStore, pool: Key, k: Key) {
    k in instances.objects && k.namespace == pool.namespace && ClaimedBy(instances.objects[k]) == Some(pool.name)
  }

  /** clearMemberConditions: what a cluster recorded about a member is gone, the rest stays. */
  function Cleared(s: InstanceStatus): InstanceStatus {
    s.(conditions := s.conditions - {Configured, Joined, Ready})
  }

  /** A deleting member whose node still has to be reset. */
  predicate AwaitsReset(o: Instance) {
    ClaimedBy(o).Some? && o.deletedAt.Some? && InstanceResetFinalizer in o.finalizers && IsConfigured(o)
  }

  /** One clause of a label selector. */
  datatype Requirement =
    | In(key: string, values: set<string>)
    | NotIn(key: string, values: set<string>)
    | Exists(key: string)
    | DoesNotExist(key: string)

  /** A selector either fails to parse or is a conjunction; the empty one matches everything. */
  datatype Selector = Malformed | Requirements(all: seq<Requirement>)

  predicate Satisfies(labels: map<string, string>, r: Requirement) {
    match r
    case In(key, values) => key in labels && labels[key] in values
    case NotIn(key, values) => key !in labels || labels[key] !in values
    case Exists(key) => key in labels
    case DoesNotExist(key) => key !in labels
  }

  predicate Matches(s: Selector, labels: map<string, string>) {
    s.Requirements? && forall r :: r in s.all ==> Satisfies(labels, r)
  }

  /**
   What selectors mean: a conjunction of clauses, in any order and number, over the labels that are
   there; In and NotIn are opposites, and so are Exists and DoesNotExist.
   */
  lemma SelectorLaws(labels: map<string, string>, a: seq<Requirement>, b: seq<Requirement>, key: string,
          values: set<string>, v: string)
    ensures Matches(Requirements([]), labels) && !Matches(Malformed, labels)
    ensures Matches(Requirements(a + b), labels) <==>
      Matches(Requirements(a), labels) && Matches(Requirements(b), labels)
    ensures Matches(Requirements([Exists(key)]), labels) <==> key in labels
    ensures Matches(Requirements([DoesNotExist(key)]), labels) <==> key !in labels
    ensures Matches(Requirements([In(key, values + {v})]), labels) <==>
      (key in labels && labels[key] == v) || Matches(Requirements([In(key, values)]), labels)
    ensures !Matches(Requirements([In(key, {})]), labels)
    ensures Matches(Requirements([NotIn(key, values)]), labels) <==> !Matches(Requirements([In(key, values)]), labels)
  {
    forall r: Requirement ensures Matches(Requirements([r]), labels) <==> Satisfies(labels, r) {
      assert r in [r];
    }
    assert forall r :: r in a + b <==> r in a || r in b;
  }

  datatype PoolSpec = PoolSpec(selector: Selector, replicas: int)
  datatype PoolStatus = PoolStatus(readyReplicas: int, conditions: Conditions)

  type Pool = Object<PoolSpec, PoolStatus>
  type PoolStore = Store<PoolSpec, PoolStatus>
  type PoolCopy = Copy<PoolSpec, PoolStatus>

  function WithPoolFinalizer(c: PoolCopy): PoolCopy {
    c.(obj := c.obj.(finalizers := c.obj.finalizers + {InstancePoolFinalizer}))
  }

  function WithoutPoolFinalizer(c: PoolCopy): PoolCopy {
    c.(obj := c.obj.(finalizers := c.obj.finalizers - {InstancePoolFinalizer}))
  }

  /** A TalosCluster's pool references, and whether its secrets bundle is recorded and loads. */
  datatype Cluster = Cluster(controlPlane: string, workers: seq<string>, bundle: bool)
  datatype Role = ControlPlaneRole | WorkerRole

  /** The pool has the role in the cluster; a pool referenced twice counts as the control plane. */
  predicate Plays(c: Cluster, pool: string, role: Role) {
    match role
    case ControlPlaneRole => c.controlPlane == pool
    case WorkerRole => c.controlPlane != pool && pool in c.workers
  }

  /** Some cluster of the namespace references the pool. */
  ghost predicate Owned(clusters: map<Key, Cluster>, namespace: string, pool: string) {
    exists k :: k in clusters && k.namespace == namespace &&
      (clusters[k].controlPlane == pool || pool in clusters[k].workers)
  }
}
