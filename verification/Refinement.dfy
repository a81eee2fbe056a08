/**
 The reconcilers, run undisturbed, are runs of the interleaved lifecycle: what the methods write is
 what some enabled steps write, so the theorems about every run cover them.
 */
module Refinement {
  import opened ApiStore
  import opened Fleet
  import L = Lifecycle
  import Discovery
  import R = InstanceReset

  /** The stored object, as a client reads it now. */
  ghost function Now(w: L.World, key: Key): InstanceCopy
    requires key in w.instances.objects
  {
    Copy(key, w.instances.objects[key])
  }

  lemma One(w: L.World, a: L.Action)
    requires L.Enabled(w, a)
    ensures L.IsRun(w, [a]) && L.After(w, [a]) == L.Apply(w, a)
  {
    assert [a] + [] == [a];
    L.Prepend(w, a, []);
  }

  lemma Two(w: L.World, a: L.Action, b: L.Action)
    requires L.Enabled(w, a) && L.Enabled(L.Apply(w, a), b)
    ensures L.IsRun(w, [a, b]) && L.After(w, [a, b]) == L.Apply(L.Apply(w, a), b)
  {
    One(L.Apply(w, a), b);
    assert [a] + [b] == [a, b];
    L.Prepend(w, a, [b]);
  }

  /** Recording a probe of an unclaimed Instance is the discovery step. */
  lemma ProbeIsStep(w: L.World, key: Key, answers: seq<Discovery.Answer>) returns (a: L.Action)
    requires L.Versioned(w) && Discovery.Probes(w.instances, key, true)
    requires |answers| == |w.instances.objects[key].spec.interfaces|
    ensures L.Enabled(w, a)
    ensures var o := w.instances.objects[key];
      var status := Discovery.Probed(o.status, o.spec.interfaces, answers);
      L.Written(w, a) == UpdateStatus(w.instances, WithStatus(Now(w, key), status))
  {
    var o, copy := w.instances.objects[key], Now(w, key);
    Discovery.FirstReachedIs(answers);
    match Discovery.FirstReached(answers)
    case Some(i) =>
      a := L.Probe(copy, true, "Discovered", Message("discovered via " + o.spec.interfaces[i], 0, 0),
        answers[i].addresses);
    case None =>
      var reason := if o.spec.interfaces == [] then "NoInterfaces" else "ProbeFailed";
      var message := if o.spec.interfaces == [] then Message("spec.interfaces is empty", 0, 0)
        else Message("all %d candidate(s) failed", |o.spec.interfaces|, 0);
      a := L.Probe(copy, false, reason, message, []);
  }

  /** Claiming a claimable Instance and releasing a held one are the pool's steps. */
  lemma ClaimAndReleaseAreSteps(w: L.World, pool: Key, key: Key)
    requires L.Versioned(w) && key in w.instances.objects && key.namespace == pool.namespace
    ensures Claimable(w.instances.objects[key]) ==>
      var a := L.Claim(pool, Now(w, key), Now(w, key));
      L.Enabled(w, a) && L.Written(w, a) == Update(w.instances, WithClaim(Now(w, key), pool.name))
    ensures Holds(w.instances, pool, key) ==>
      var a := L.Release(pool, Now(w, key));
      L.Enabled(w, a) && L.Written(w, a) == Update(w.instances, WithoutClaim(Now(w, key)))
  {
  }

  /** A removal on grounds that are there, and one whose grounds a step of the controller lays first. */
  lemma Removes(w: L.World, key: Key, why: L.Removal)
    requires key in w.instances.objects && L.Enabled(w, L.RemoveFinalizer(Now(w, key), why))
    ensures var actions := [L.RemoveFinalizer(Now(w, key), why)];
      L.IsRun(w, actions) && L.After(w, actions).instances == Update(w.instances, WithoutFinalizer(Now(w, key)))
  {
    One(w, L.RemoveFinalizer(Now(w, key), why));
  }

  lemma RemovesAfter(w: L.World, key: Key, a: L.Action, why: L.Removal)
    requires key in w.instances.objects && w.instances.objects[key].deletedAt.Some?
    requires (a.Reset? || a.SeeNoOwner?) && L.Enabled(w, a) && Now(w, key) in w.past
    requires L.RemovalGuard(L.Apply(w, a), Now(w, key), why)
    ensures var actions := [a, L.RemoveFinalizer(Now(w, key), why)];
      L.IsRun(w, actions) && L.After(w, actions).instances == Update(w.instances, WithoutFinalizer(Now(w, key)))
  {
    Two(w, a, L.RemoveFinalizer(Now(w, key), why));
  }

  /** The finalizer removal a reconcile of a deleting Instance comes to, with the step that justifies it. */
  lemma RemovalIsRun(w: L.World, key: Key, reset: bool) returns (actions: seq<L.Action>)
    requires L.Versioned(w) && R.Held(w.instances, key) && w.instances.objects[key].deletedAt.Some?
    requires R.MayGo(w.instances.objects[key], w.clusters, key, w.now, reset)
    requires reset ==> AwaitsReset(w.instances.objects[key])
    ensures L.IsRun(w, actions) && L.After(w, actions).instances == Update(w.instances, WithoutFinalizer(Now(w, key)))
  {
    var o, copy := w.instances.objects[key], Now(w, key);
    assert copy in w.past;
    if ClaimedBy(o).None? {
      actions := [L.RemoveFinalizer(copy, L.Unclaimed)];
      Removes(w, key, L.Unclaimed);
    } else if reset {
      var call := L.Reset(copy, true);
      assert L.ResetIssued(copy, w.now, true, false) in L.Apply(w, call).log;
      actions := [call, L.RemoveFinalizer(copy, L.ResetDone)];
      RemovesAfter(w, key, call, L.ResetDone);
    } else if !Owned(w.clusters, key.namespace, ClaimedBy(o).value) {
      var look := L.SeeNoOwner(copy);
      assert L.NoOwner(copy, w.now, w.clusters) in L.Apply(w, look).log;
      actions := [look, L.RemoveFinalizer(copy, L.Ownerless)];
      RemovesAfter(w, key, look, L.Ownerless);
    } else if !IsConfigured(o) {
      actions := [L.RemoveFinalizer(copy, L.NeverConfigured)];
      Removes(w, key, L.NeverConfigured);
    } else {
      actions := [L.RemoveFinalizer(copy, L.GaveUp)];
      Removes(w, key, L.GaveUp);
    }
  }

  /** A failure-free reconcile of the reset controller is a run of the lifecycle. */
  lemma ResetReconcileIsRun(w: L.World, key: Key, reset: bool) returns (actions: seq<L.Action>)
    requires L.Versioned(w) && key in w.instances.objects && (reset ==> AwaitsReset(w.instances.objects[key]))
    ensures L.IsRun(w, actions)
    ensures L.After(w, actions).instances == R.Reconciled(w.instances, w.clusters, key, w.now, reset)
  {
    var o, copy := w.instances.objects[key], Now(w, key);
    assert copy in w.past;
    actions := [];
    if o.deletedAt.Some? {
      if R.Held(w.instances, key) && R.MayGo(o, w.clusters, key, w.now, reset) {
        actions := RemovalIsRun(w, key, reset);
      }
    } else if ClaimedBy(o).None? {
      if Cleared(o.status) != o.status {
        actions := [L.ClearUnclaimed(copy)];
        One(w, actions[0]);
      }
    } else if Owned(w.clusters, key.namespace, ClaimedBy(o).value) && !R.Held(w.instances, key) {
      actions := [L.AddFinalizer(copy)];
      One(w, actions[0]);
    }
  }

  /** The Instance is the same one, unclaimed and no longer Configured. */
  ghost predicate Freed(before: Instance, after: Instance) {
    && ClaimedBy(after).None? && !IsConfigured(after) && after.uid == before.uid
    && IsDiscovered(after) == IsDiscovered(before)
  }

  /** The clearing lands on the object that was listed. */
  lemma MemberIsCleared(w: L.World, pool: Key, key: Key)
    requires L.Versioned(w) && Holds(w.instances, pool, key) && L.Clean(w.log, Now(w, key))
    ensures var a := L.TeardownClear(pool, Now(w, key));
      && L.Enabled(w, a) && key in L.Apply(w, a).instances.objects
      && var o := L.Apply(w, a).instances.objects[key];
         && o == w.instances.objects[key].(status := Cleared(w.instances.objects[key].status), version := o.version)
         && Copy(key, o) in L.Apply(w, a).past
  {
    assert Now(w, key) in w.past;
  }

  lemma MemberIsReleased(w: L.World, pool: Key, key: Key)
    requires Holds(w.instances, pool, key) && Now(w, key) in w.past && !IsConfigured(w.instances.objects[key])
    requires w.instances.objects[key].deletedAt.Some? ==> w.instances.objects[key].finalizers != {}
    ensures var a := L.TeardownRelease(pool, Now(w, key));
      && L.Enabled(w, a) && key in L.Apply(w, a).instances.objects
      && Freed(w.instances.objects[key], L.Apply(w, a).instances.objects[key])
  {
  }

  /**
   The teardown of a cluster can let every member go: reset if it was Configured, cleared of what the
   cluster recorded, and released.
   */
  lemma TeardownFreesMember(w: L.World, pool: Key, key: Key) returns (actions: seq<L.Action>)
    requires L.Versioned(w) && Holds(w.instances, pool, key)
    ensures L.IsRun(w, actions) && key in L.After(w, actions).instances.objects
    ensures Freed(w.instances.objects[key], L.After(w, actions).instances.objects[key])
  {
    var copy := Now(w, key);
    assert copy in w.past;
    if IsConfigured(copy.obj) {
      var call := L.TeardownReset(pool, copy, true);
      var w1 := L.Apply(w, call);
      L.VersionedStep(w, call);
      assert L.ResetIssued(copy, w.now, true, true) in w1.log;
      var rest := CleanMemberIsFreed(w1, pool, key);
      L.Prepend(w, call, rest);
      actions := [call] + rest;
    } else {
      actions := CleanMemberIsFreed(w, pool, key);
    }
  }

  lemma CleanMemberIsFreed(w: L.World, pool: Key, key: Key) returns (actions: seq<L.Action>)
    requires L.Versioned(w) && Holds(w.instances, pool, key) && L.Clean(w.log, Now(w, key))
    ensures L.IsRun(w, actions) && key in L.After(w, actions).instances.objects
    ensures Freed(w.instances.objects[key], L.After(w, actions).instances.objects[key])
  {
    var clear := L.TeardownClear(pool, Now(w, key));
    assert Now(w, key) in w.past;
    MemberIsCleared(w, pool, key);
    var w' := L.Apply(w, clear);
    assert Discovered !in {Configured, Joined, Ready};
    MemberIsReleased(w', pool, key);
    var release := L.TeardownRelease(pool, Now(w', key));
    Two(w, clear, release);
    actions := [clear, release];
  }
}
