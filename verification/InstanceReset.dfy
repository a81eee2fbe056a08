/**
 The instance-reset reconciler: which endpoint a node is reset through, when the finalizer goes,
 and what happens while a whole control plane is drained.
 */
module InstanceReset {
  import opened ApiStore
  import opened Fleet

  datatype ResetCall = ResetCall(endpoint: string, node: string, graceful: bool)

  // ----- addresses

  /** Some address of the Instance can be dialled. */
  predicate Dialable(o: Instance) {
    o.spec.interfaces != [] || exists a :: a in o.status.addresses && a.Routable?
  }

  /** The first routable discovered address, else the first configured interface. */
  ghost predicate IsDialAddress(o: Instance, addr: string) {
    if exists a :: a in o.status.addresses && a.Routable? then
      exists i :: 0 <= i < |o.status.addresses| && o.status.addresses[i] == Routable(addr) &&
        forall j :: 0 <= j < i ==> !o.status.addresses[j].Routable?
    else o.spec.interfaces != [] && addr == o.spec.interfaces[0]
  }

  method DialAddress(o: Instance) returns (addr: string)
    requires Dialable(o)
    ensures IsDialAddress(o, addr)
  {
    for i := 0 to |o.status.addresses|
      invariant forall j :: 0 <= j < i ==> !o.status.addresses[j].Routable?
    {
      if o.status.addresses[i].Routable? {
        assert o.status.addresses[i] in o.status.addresses;
        return o.status.addresses[i].ip;
      }
    }
    addr := o.spec.interfaces[0];
  }

  // ----- members

  /** The Discovered Instances a pool holds. */
  ghost function Members(st: InstanceStore, namespace: string, pool: string): set<Key> {
    set k | k in st.objects && Holds(st, Key(namespace, pool), k) && IsDiscovered(st.objects[k])
  }

  /** The Instances a reset through the cluster may dial have an address: the target and the control plane. */
  ghost predicate Dialled(st: InstanceStore, cluster: Cluster, inst: InstanceCopy) {
    && Dialable(inst.obj)
    && forall k :: k in Members(st, inst.key.namespace, cluster.controlPlane) ==> Dialable(st.objects[k])
  }

  /** The same for whatever cluster turns out to own the Instance at `key`, if it has to be reset. */
  ghost predicate ResetIsDialled(st: InstanceStore, clusters: map<Key, Cluster>, key: Key) {
    key in st.objects && AwaitsReset(st.objects[key]) ==>
      var inst := Copy(key, st.objects[key]);
      forall k :: k in clusters && k.namespace == key.namespace ==>
        (exists role :: Plays(clusters[k], ClaimedBy(inst.obj).value, role)) ==>
        Dialled(st, clusters[k], inst)
  }

  /**
   Who a reset may go through: another control-plane member, gracefully, if there is one;
   otherwise the target itself, ungracefully, but only if it is of the control plane.
   */
  ghost predicate ResolvesTo(st: InstanceStore, cluster: Cluster, inst: InstanceCopy, role: Role,
          endpoint: Option<string>, graceful: bool)
  {
    var others := Members(st, inst.key.namespace, cluster.controlPlane) - {inst.key};
    if others != {} then
      endpoint.Some? && graceful && exists k :: k in others && IsDialAddress(st.objects[k], endpoint.value)
    else if role == WorkerRole then endpoint.None?
    else endpoint.Some? && !graceful && IsDialAddress(inst.obj, endpoint.value)
  }

  /** A Reset RPC as it must be: to the target's own address, through a proper endpoint. */
  ghost predicate ProperCall(st: InstanceStore, cluster: Cluster, inst: InstanceCopy, role: Role, call: ResetCall) {
    && cluster.bundle && IsDialAddress(inst.obj, call.node)
    && ResolvesTo(st, cluster, inst, role, Some(call.endpoint), call.graceful)
  }

  /** At most one call was added, and it is proper for a cluster that references the target's pool. */
  ghost predicate CallsProperly(st: InstanceStore, clusters: map<Key, Cluster>, inst: InstanceCopy,
          before: seq<ResetCall>, after: seq<ResetCall>)
  {
    after == before || (
      && |after| == |before| + 1 && after[..|before|] == before && ClaimedBy(inst.obj).Some?
      && exists k, role ::
           && k in clusters && k.namespace == inst.key.namespace
           && Plays(clusters[k], ClaimedBy(inst.obj).value, role)
           && ProperCall(st, clusters[k], inst, role, after[|before|]))
  }

  /** A reset can be issued: the bundle loads, and there is someone to go through. */
  ghost predicate Resettable(st: InstanceStore, cluster: Cluster, target: Key, role: Role) {
    cluster.bundle &&
    (role == ControlPlaneRole || Members(st, target.namespace, cluster.controlPlane) - {target} != {})
  }

  /** The same, whatever cluster of the namespace that references the pool is found first. */
  ghost predicate SurelyResettable(st: InstanceStore, clusters: map<Key, Cluster>, target: Key, pool: string) {
    forall k, role :: k in clusters && k.namespace == target.namespace && Plays(clusters[k], pool, role) ==>
      Resettable(st, clusters[k], target, role)
  }

  /** A member of a pool that a cluster of its namespace references, be it its control plane or any of its workers. */
  ghost predicate MemberOf(st: InstanceStore, clusters: map<Key, Cluster>, key: Key, pool: string) {
    && key in st.objects && LabelClaimedBy in st.objects[key].labels
    && st.objects[key].labels[LabelClaimedBy] == pool
    && exists k :: k in clusters && k.namespace == key.namespace &&
         (clusters[k].controlPlane == pool || pool in clusters[k].workers)
  }

  /** A deleting member that is Configured and still held by its finalizer. */
  ghost predicate Deleting(st: InstanceStore, clusters: map<Key, Cluster>, key: Key, pool: string) {
    && MemberOf(st, clusters, key, pool) && st.objects[key].deletedAt.Some?
    && InstanceResetFinalizer in st.objects[key].finalizers && IsTrue(st.objects[key].status.conditions, Configured)
  }

  /** A live Instance carries the finalizer, beside whatever else holds it. */
  ghost predicate Secured(before: InstanceStore, after: InstanceStore, key: Key)
    requires key in before.objects
  {
    var o := before.objects[key];
    o.deletedAt.None? ==>
      && key in after.objects
      && after.objects[key] ==
           o.(finalizers := o.finalizers + {InstanceResetFinalizer}, version := after.objects[key].version)
  }

  /** A live Instance has none of the three conditions of a member, and all others as before. */
  ghost predicate Wiped(before: InstanceStore, after: InstanceStore, key: Key)
    requires key in before.objects
  {
    var o := before.objects[key];
    var status := o.status.(conditions := o.status.conditions - {"Configured", "Joined", "Ready"});
    o.deletedAt.None? ==>
      key in after.objects && after.objects[key] == o.(status := status, version := after.objects[key].version)
  }

  // ----- the reconciler

  class Client {
    var instances: InstanceStore
    var clusters: map<Key, Cluster>
    var calls: seq<ResetCall>

    ghost predicate Valid()
      reads this
    {
      WellFormed(instances)
    }

    /** resolveMembers over a current List of the pool's Instances. */
    method ResolveMembers(namespace: string, pool: string) returns (members: seq<InstanceCopy>)
      ensures forall c :: c in members <==>
        c.key in Members(instances, namespace, pool) && c.obj == instances.objects[c.key]
    {
      members := [];
      var claimed := set k | k in instances.objects && Holds(instances, Key(namespace, pool), k);
      ghost var done := {};
      while claimed != {}
        invariant claimed !! done
        invariant done + claimed == set k | k in instances.objects && Holds(instances, Key(namespace, pool), k)
        invariant forall c :: c in members <==>
          c.key in done && c.key in instances.objects && IsDiscovered(c.obj) && c.obj == instances.objects[c.key]
      {
        var k :| k in claimed;
        if IsDiscovered(instances.objects[k]) {
          members := members + [Copy(k, instances.objects[k])];
        }
        claimed, done := claimed - {k}, done + {k};
      }
    }

    /** The first cluster of the namespace that references the pool, its control plane looked at first. */
    method FindOwningCluster(namespace: string, pool: string) returns (owner: Option<Cluster>, role: Role)
      ensures owner.Some? <==>
        exists k :: k in clusters && k.namespace == namespace &&
          (clusters[k].controlPlane == pool || pool in clusters[k].workers)
      ensures owner.Some? ==>
        && (exists k :: k in clusters && k.namespace == namespace && clusters[k] == owner.value)
        && (owner.value.controlPlane == pool || pool in owner.value.workers)
        && (role == ControlPlaneRole <==> owner.value.controlPlane == pool)
    {
      var rest := clusters.Keys;
      role := ControlPlaneRole;
      while rest != {}
        invariant rest <= clusters.Keys
        invariant forall k :: k in clusters && k !in rest && k.namespace == namespace ==>
          clusters[k].controlPlane != pool && pool !in clusters[k].workers
      {
        var k :| k in rest;
        rest := rest - {k};
        if k.namespace == namespace {
          var cluster := clusters[k];
          if cluster.controlPlane == pool {
            return Some(cluster), ControlPlaneRole;
          }
          for i := 0 to |cluster.workers|
            invariant pool !in cluster.workers[..i]
          {
            if cluster.workers[i] == pool {
              return Some(cluster), WorkerRole;
            }
          }
        }
      }
      owner := None;
    }

    method ResolveResetEndpoint(inst: InstanceCopy, cluster: Cluster, role: Role)
      returns (endpoint: Option<string>, graceful: bool)
      requires Dialled(instances, cluster, inst)
      ensures ResolvesTo(instances, cluster, inst, role, endpoint, graceful)
    {
      var members := ResolveMembers(inst.key.namespace, cluster.controlPlane);
      var others: seq<InstanceCopy> := [];
      for i := 0 to |members|
        invariant forall c :: c in others <==> c in members[..i] && c.key.name != inst.key.name
      {
        assert members[..i + 1] == members[..i] + [members[i]];
        if members[i].key.name != inst.key.name {
          others := others + [members[i]];
        }
      }
      assert members[..|members|] == members;
      graceful := false;
      if |others| > 0 {
        assert others[0] in others && others[0] in members;
        assert others[0].key in Members(instances, inst.key.namespace, cluster.controlPlane) - {inst.key};
        var addr := DialAddress(others[0].obj);
        return Some(addr), true;
      }
      forall k | k in Members(instances, inst.key.namespace, cluster.controlPlane) ensures k == inst.key {
        assert Copy(k, instances.objects[k]) in members;
      }
      if role == WorkerRole {
        return None, false;
      }
      var addr := DialAddress(inst.obj);
      endpoint := Some(addr);
    }

    /** resetInstance; `answer` is what the node says to the Reset RPC, if it is issued. */
    method ResetInstance(inst: InstanceCopy, cluster: Cluster, role: Role, answer: bool) returns (ok: bool)
      requires Dialled(instances, cluster, inst)
      modifies this`calls
      ensures ok <==> answer && calls != old(calls)
      ensures calls == old(calls) || (
        && |calls| == |old(calls)| + 1 && calls[..|old(calls)|] == old(calls)
        && ProperCall(instances, cluster, inst, role, calls[|old(calls)|]))
      ensures calls != old(calls) <==> Resettable(instances, cluster, inst.key, role)
    {
      if !cluster.bundle {
        return false;
      }
      var endpoint, graceful := ResolveResetEndpoint(inst, cluster, role);
      if endpoint.None? {
        return false;
      }
      var node := DialAddress(inst.obj);
      calls := calls + [ResetCall(endpoint.value, node, graceful)];
      ok := answer;
      assert |calls| == |old(calls)| + 1;
    }

    method RemoveFinalizer(inst: InstanceCopy)
      requires Valid() && inst.key in instances.objects && inst.obj == instances.objects[inst.key]
      modifies this`instances
      ensures Valid()
      ensures instances == if InstanceResetFinalizer in inst.obj.finalizers
        then Update(old(instances), WithoutFinalizer(inst)) else old(instances)
    {
      if InstanceResetFinalizer in inst.obj.finalizers {
        instances := Update(instances, WithoutFinalizer(inst));
      }
    }

    /** One failure-free reconcile of the Instance at `key`. */
    method Reconcile(key: Key, answer: bool, now: nat)
      requires Valid() && ResetIsDialled(instances, clusters, key)
      modifies this
      ensures Valid() && clusters == old(clusters)
      ensures key !in old(instances).objects ==> instances == old(instances) && calls == old(calls)
      ensures key in old(instances).objects ==>
        instances == Reconciled(old(instances), clusters, key, now, calls != old(calls) && answer)
      ensures key in old(instances).objects ==>
        CallsProperly(old(instances), clusters, Copy(key, old(instances).objects[key]), old(calls), calls)
      ensures calls != old(calls) ==> exists pool :: Deleting(old(instances), clusters, key, pool)
      ensures forall pool :: Deleting(old(instances), clusters, key, pool) ==>
        && (instances == old(instances) <==>
             !(answer && calls != old(calls)) && now <= old(instances).objects[key].deletedAt.value + 15 * 60)
        && (SurelyResettable(old(instances), clusters, key, pool) ==> calls != old(calls))
      ensures forall pool :: MemberOf(old(instances), clusters, key, pool) ==> Secured(old(instances), instances, key)
      ensures key in old(instances).objects && LabelClaimedBy !in old(instances).objects[key].labels ==>
        Wiped(old(instances), instances, key)
    {
      if key !in instances.objects {
        return;
      }
      var inst := Copy(key, instances.objects[key]);
      if ClaimedBy(inst.obj).None? {
        if inst.obj.deletedAt.Some? {
          RemoveFinalizer(inst);
        } else {
          var cleared := Cleared(inst.obj.status);
          if cleared != inst.obj.status {
            instances := UpdateStatus(instances, WithStatus(inst, cleared));
          }
        }
        return;
      }
      var owner, role := FindOwningCluster(key.namespace, ClaimedBy(inst.obj).value);
      if owner.None? {
        if inst.obj.deletedAt.Some? {
          RemoveFinalizer(inst);
        }
        return;
      }
      assert Plays(owner.value, ClaimedBy(inst.obj).value, role);
      if inst.obj.deletedAt.Some? {
        ReconcileTeardown(inst, owner.value, role, answer, now);
        assert calls != old(calls) ==> Deleting(old(instances), clusters, key, ClaimedBy(inst.obj).value);
        return;
      }
      if InstanceResetFinalizer !in inst.obj.finalizers {
        instances := Update(instances, WithFinalizer(inst));
      } else {
        assert inst.obj.finalizers + {InstanceResetFinalizer} == inst.obj.finalizers;
      }
    }

    method ReconcileTeardown(inst: InstanceCopy, cluster: Cluster, role: Role, answer: bool, now: nat)
      requires Valid() && inst.key in instances.objects && inst.obj == instances.objects[inst.key]
      requires inst.obj.deletedAt.Some?
      requires InstanceResetFinalizer in inst.obj.finalizers && IsConfigured(inst.obj) ==>
        Dialled(instances, cluster, inst)
      modifies this
      ensures Valid() && clusters == old(clusters)
      ensures InstanceResetFinalizer !in inst.obj.finalizers ==> instances == old(instances)
      ensures InstanceResetFinalizer in inst.obj.finalizers ==>
        instances == (if !IsConfigured(inst.obj) || (answer && calls != old(calls)) ||
          now > inst.obj.deletedAt.value + ResetTimeout
                      then Update(old(instances), WithoutFinalizer(inst)) else old(instances))
      ensures calls != old(calls) <==>
        && IsConfigured(inst.obj) && InstanceResetFinalizer in inst.obj.finalizers
        && Resettable(old(instances), cluster, inst.key, role)
      ensures calls == old(calls) || (
        && |calls| == |old(calls)| + 1 && calls[..|old(calls)|] == old(calls)
        && ProperCall(old(instances), cluster, inst, role, calls[|old(calls)|]))
    {
      if InstanceResetFinalizer !in inst.obj.finalizers {
        return;
      }
      if !IsConfigured(inst.obj) {
        RemoveFinalizer(inst);
        return;
      }
      var ok := ResetInstance(inst, cluster, role, answer);
      if ok || now > inst.obj.deletedAt.value + ResetTimeout {
        RemoveFinalizer(inst);
      }
    }

    /** Past the timeout one failure-free reconcile lets a deleting Instance go, whatever the node answers. */
    method ReconcileAfterTimeout(key: Key, answer: bool, now: nat)
      requires Valid() && ResetIsDialled(instances, clusters, key)
      requires key in instances.objects && instances.objects[key].deletedAt.Some?
      requires now > instances.objects[key].deletedAt.value + ResetTimeout
      modifies this
      ensures !Held(instances, key)
      ensures old(instances).objects[key].finalizers == {InstanceResetFinalizer} ==> key !in instances.objects
    {
      ghost var before := instances;
      Reconcile(key, answer, now);
      TimeoutReleases(before, clusters, key, now, true);
      TimeoutReleases(before, clusters, key, now, false);
    }
  }

  predicate Held(st: InstanceStore, key: Key) {
    key in st.objects && InstanceResetFinalizer in st.objects[key].finalizers
  }

  /** Nothing stands between a deleting Instance and the removal of its finalizer. */
  ghost predicate MayGo(o: Instance, clusters: map<Key, Cluster>, key: Key, now: nat, reset: bool)
    requires o.deletedAt.Some?
  {
    || ClaimedBy(o).None? || !Owned(clusters, key.namespace, ClaimedBy(o).value)
    || !IsConfigured(o) || reset || now > o.deletedAt.value + ResetTimeout
  }

  /** The store after one reconcile; `reset` says that a Reset was issued and succeeded. */
  ghost function Reconciled(before: InstanceStore, clusters: map<Key, Cluster>, key: Key, now: nat,
          reset: bool): InstanceStore
    requires key in before.objects
  {
    var o, c := before.objects[key], Copy(key, before.objects[key]);
    if o.deletedAt.Some? then
      if Held(before, key) && MayGo(o, clusters, key, now, reset) then Update(before, WithoutFinalizer(c)) else before
    else if ClaimedBy(o).None? then
      if Cleared(o.status) == o.status then before else UpdateStatus(before, WithStatus(c, Cleared(o.status)))
    else if Owned(clusters, key.namespace, ClaimedBy(o).value) && !Held(before, key) then
      Update(before, WithFinalizer(c))
    else before
  }

  /** The finalizer of a deleting Instance goes exactly when it may. */
  lemma FinalizerGoesIff(before: InstanceStore, clusters: map<Key, Cluster>, key: Key, now: nat, reset: bool)
    requires Held(before, key) && before.objects[key].deletedAt.Some?
    ensures Held(Reconciled(before, clusters, key, now, reset), key) <==>
      !MayGo(before.objects[key], clusters, key, now, reset)
    ensures MayGo(before.objects[key], clusters, key, now, reset) ==>
      before.objects[key].finalizers == {InstanceResetFinalizer} ==>
      key !in Reconciled(before, clusters, key, now, reset).objects
  {
    assert before.objects[key].finalizers == {InstanceResetFinalizer} ==>
      before.objects[key].finalizers - {InstanceResetFinalizer} == {};
  }

  lemma TimeoutReleases(before: InstanceStore, clusters: map<Key, Cluster>, key: Key, now: nat, reset: bool)
    requires key in before.objects && before.objects[key].deletedAt.Some?
    requires now > before.objects[key].deletedAt.value + ResetTimeout
    ensures var after := Reconciled(before, clusters, key, now, reset);
      && !Held(after, key)
      && (before.objects[key].finalizers == {InstanceResetFinalizer} ==> key !in after.objects)
  {
    if Held(before, key) { FinalizerGoesIff(before, clusters, key, now, reset); }
  }

  /** A reconcile of a live Instance settles it: doing it again changes nothing. */
  lemma LiveReconcileSettles(before: InstanceStore, clusters: map<Key, Cluster>, key: Key, now: nat)
    requires key in before.objects && before.objects[key].deletedAt.None?
    ensures var after := Reconciled(before, clusters, key, now, false);
      key in after.objects && Reconciled(after, clusters, key, now, false) == after
  {
  }

  // ----- draining a control plane

  /**
   One attempt to reset a deleting member at `at`, and what came of it: whether the node answered
   well, and whether the member left.
   */
  datatype Attempt = Attempt(target: Key, role: Role, at: nat, endpoint: Option<string>, graceful: bool, ok: bool,
    left: bool)

  /** The member is deleting, was configured, and only the reset finalizer holds it. */
  predicate Draining(o: Instance) {
    o.deletedAt.Some? && o.finalizers == {InstanceResetFinalizer} && IsConfigured(o) && IsDiscovered(o)
  }

  ghost predicate RoleHolds(st: InstanceStore, namespace: string, cluster: Cluster, k: Key, role: Role) {
    k in st.objects && k.namespace == namespace && ClaimedBy(st.objects[k]).Some? &&
    Plays(cluster, ClaimedBy(st.objects[k]).value, role)
  }

  /**
   One step of a drain: a reset attempt whose finalizer removal commits when it succeeds or the
   timeout has passed, or anything else that leaves the set of control-plane members alone.
   */
  ghost predicate DrainStep(namespace: string, cluster: Cluster, st: InstanceStore, a: Option<Attempt>,
          st': InstanceStore)
  {
    match a
    case None => Members(st', namespace, cluster.controlPlane) == Members(st, namespace, cluster.controlPlane)
    case Some(attempt) =>
      var k := attempt.target;
      && RoleHolds(st, namespace, cluster, k, attempt.role) && Draining(st.objects[k])
      && ResolvesTo(st, cluster, Copy(k, st.objects[k]), attempt.role, attempt.endpoint, attempt.graceful)
      && (attempt.ok ==> attempt.endpoint.Some?)
      && (attempt.left <==> attempt.ok || attempt.at > st.objects[k].deletedAt.value + ResetTimeout)
      && st' == if attempt.left then Update(st, WithoutFinalizer(Copy(k, st.objects[k]))) else st
  }

  datatype Drain = Drain(states: seq<InstanceStore>, attempts: seq<Option<Attempt>>)

  ghost predicate IsDrain(namespace: string, cluster: Cluster, d: Drain) {
    && |d.states| == |d.attempts| + 1
    && forall i :: 0 <= i < |d.attempts| ==> DrainStep(namespace, cluster, d.states[i], d.attempts[i], d.states[i + 1])
  }

  /** A control-plane member leaves: reset, or given up. */
  predicate LeavesControlPlane(a: Option<Attempt>) {
    a.Some? && a.value.left && a.value.role == ControlPlaneRole
  }

  function Departures(attempts: seq<Option<Attempt>>): nat {
    if attempts == [] then 0
    else Departures(attempts[..|attempts| - 1]) + if LeavesControlPlane(attempts[|attempts| - 1]) then 1 else 0
  }

  lemma DrainStepMembers(namespace: string, cluster: Cluster, st: InstanceStore, a: Option<Attempt>, st': InstanceStore)
    requires DrainStep(namespace, cluster, st, a, st')
    ensures Members(st', namespace, cluster.controlPlane) ==
      if LeavesControlPlane(a) then Members(st, namespace, cluster.controlPlane) - {a.value.target}
        else Members(st, namespace, cluster.controlPlane)
    ensures a.Some? && a.value.role == ControlPlaneRole ==>
      a.value.target in Members(st, namespace, cluster.controlPlane)
  {
    if a.Some? {
      var k := a.value.target;
      assert st.objects[k].finalizers - {InstanceResetFinalizer} == {};
      assert Accepts(st, WithoutFinalizer(Copy(k, st.objects[k])));
    }
  }

  /** Each departure takes exactly one member away. */
  lemma {:induction false} MembersCountDown(namespace: string, cluster: Cluster, d: Drain, i: nat)
    requires IsDrain(namespace, cluster, d) && i <= |d.attempts|
    ensures |Members(d.states[i], namespace, cluster.controlPlane)| + Departures(d.attempts[..i]) ==
      |Members(d.states[0], namespace, cluster.controlPlane)|
    decreases i
  {
    if i > 0 {
      MembersCountDown(namespace, cluster, d, i - 1);
      DrainStepMembers(namespace, cluster, d.states[i - 1], d.attempts[i - 1], d.states[i]);
      assert d.attempts[..i][..i - 1] == d.attempts[..i - 1];
    } else {
      assert d.attempts[..0] == [];
    }
  }

  /** The attempt goes, gracefully, through another member that is still claimed and Discovered. */
  ghost predicate ThroughPeer(st: InstanceStore, namespace: string, cluster: Cluster, a: Attempt) {
    && a.graceful && a.endpoint.Some?
    && exists peer ::
         && peer in Members(st, namespace, cluster.controlPlane) - {a.target}
         && IsDialAddress(st.objects[peer], a.endpoint.value)
  }

  /** The attempt goes, ungracefully, through the target itself. */
  ghost predicate ThroughItself(st: InstanceStore, a: Attempt) {
    !a.graceful && a.endpoint.Some? && a.target in st.objects && IsDialAddress(st.objects[a.target], a.endpoint.value)
  }

  /**
   Draining k control-plane members, in any order, with any number of failures in between and
   members that leave unreset by the timeout:
   control-plane attempts before the last member's are graceful through a live peer, those of the
   last member are ungraceful through its own address; workers go through a live control-plane
   member as long as there is one and are never reset afterwards.
   */
  lemma DrainIsGracefulToTheLast(namespace: string, cluster: Cluster, d: Drain, i: nat)
    requires IsDrain(namespace, cluster, d) && i < |d.attempts| && d.attempts[i].Some?
    ensures var st, a := d.states[i], d.attempts[i].value;
      var k, done := |Members(d.states[0], namespace, cluster.controlPlane)|, Departures(d.attempts[..i]);
      if a.role == ControlPlaneRole then
        && done < k
        && (done + 1 < k ==> ThroughPeer(st, namespace, cluster, a))
        && (done + 1 == k ==> ThroughItself(st, a))
      else
        && (done < k ==> ThroughPeer(st, namespace, cluster, a))
        && (done == k ==> a.endpoint.None? && !a.ok)
  {
    MembersCountDown(namespace, cluster, d, i);
    var st, a := d.states[i], d.attempts[i].value;
    var members := Members(st, namespace, cluster.controlPlane);
    DrainStepMembers(namespace, cluster, st, d.attempts[i], d.states[i + 1]);
    if a.target in members {
      assert |members - {a.target}| == |members| - 1;
    } else {
      assert members - {a.target} == members;
    }
  }
}
