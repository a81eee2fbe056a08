/** How a cluster's reconciler records a member's progress on its Instance. */
module MemberConditions {
  import opened ApiStore
  import opened Fleet
  import Lifecycle

  /** A condition to be set, as setMemberCondition and persistMemberProbe receive it. */
  datatype Change = Change(kind: string, condition: Condition)

  /** The kinds this package sets, with the latched ones only ever set true. */
  predicate Proper(c: Change) {
    c.kind in {Configured, Joined, Ready, Live} && (c.kind in {Configured, Joined} ==> c.condition.status)
  }

  function SetAll(conds: Conditions, changes: seq<Change>): Conditions
    decreases |changes|
  {
    if changes == [] then conds else SetAll(conds[changes[0].kind := changes[0].condition], changes[1..])
  }

  /** The last change of a kind wins, and a kind no change speaks of keeps its condition. */
  lemma {:induction false} LaterWins(conds: Conditions, changes: seq<Change>, kind: string)
    ensures kind in SetAll(conds, changes) <==>
      kind in conds || exists i :: 0 <= i < |changes| && changes[i].kind == kind
    ensures (forall i :: 0 <= i < |changes| ==> changes[i].kind != kind) && kind in conds ==>
      SetAll(conds, changes)[kind] == conds[kind]
    ensures forall i ::
      (0 <= i < |changes| && changes[i].kind == kind && forall j :: i < j < |changes| ==> changes[j].kind != kind) ==>
        SetAll(conds, changes)[kind] == changes[i].condition
    decreases |changes|
  {
    if changes != [] {
      var rest := changes[1..];
      LaterWins(conds[changes[0].kind := changes[0].condition], rest, kind);
      assert forall i :: 0 <= i < |rest| ==> rest[i] == changes[i + 1];
      assert forall i :: 1 <= i < |changes| ==> changes[i] == rest[i - 1];
    }
  }

  class Recorder {
    var instances: InstanceStore

    /** A copy in memory, with its status changed, is written back under its old version. */
    method WriteBack(member: InstanceCopy, status: InstanceStatus) returns (updated: InstanceCopy)
      modifies this
      ensures instances == UpdateStatus(old(instances), WithStatus(member, status))
      ensures updated ==
        if Accepts(old(instances), member) && member.key in instances.objects
        then Copy(member.key, instances.objects[member.key])
        else WithStatus(member, status)
    {
      updated := WithStatus(member, status);
      var accepted := Accepts(instances, member);
      instances := UpdateStatus(instances, updated);
      if accepted && member.key in instances.objects {
        updated := Copy(member.key, instances.objects[member.key]);
      }
    }

    /** setMemberCondition: no write when the condition already says so. */
    method SetMemberCondition(member: InstanceCopy, change: Change) returns (updated: InstanceCopy)
      modifies this
      ensures
        var conds := member.obj.status.conditions[change.kind := change.condition];
        var status := member.obj.status.(conditions := conds);
        if status == member.obj.status then instances == old(instances) && updated == member
        else
          && instances == UpdateStatus(old(instances), WithStatus(member, status))
          && updated == if Accepts(old(instances), member) && member.key in instances.objects
             then Copy(member.key, instances.objects[member.key]) else WithStatus(member, status)
    {
      var conds := member.obj.status.conditions;
      var changed := change.kind !in conds || conds[change.kind] != change.condition;
      if !changed {
        assert conds[change.kind := change.condition] == conds;
        return member;
      }
      updated := WriteBack(member, member.obj.status.(conditions := conds[change.kind := change.condition]));
    }

    /** clearMemberConditions: removes the three kinds one by one, writes only if one was there. */
    method ClearMemberConditions(member: InstanceCopy)
      modifies this
      ensures instances ==
        if Cleared(member.obj.status) == member.obj.status then old(instances)
        else UpdateStatus(old(instances), WithStatus(member, Cleared(member.obj.status)))
      ensures Copy(member.key, member.obj) in Lifecycle.Copies(old(instances)) && member.key in instances.objects ==>
        var conds, before := instances.objects[member.key].status.conditions, member.obj.status.conditions;
        && conds.Keys == before.Keys - {"Configured", "Joined", "Ready"}
        && forall kind :: kind in conds ==> conds[kind] == before[kind]
    {
      var kinds := [Configured, Joined, Ready];
      var conds := member.obj.status.conditions;
      var changed := false;
      for i := 0 to |kinds|
        invariant conds == member.obj.status.conditions - (set j | 0 <= j < i :: kinds[j])
        invariant changed <==> conds != member.obj.status.conditions
      {
        assert (set j | 0 <= j < i + 1 :: kinds[j]) == (set j | 0 <= j < i :: kinds[j]) + {kinds[i]};
        if kinds[i] in conds {
          assert kinds[i] !in conds - {kinds[i]} && kinds[i] in member.obj.status.conditions;
          changed := true;
        }
        conds := conds - {kinds[i]};
      }
      assert (set j | 0 <= j < 3 :: kinds[j]) == {Configured, Joined, Ready} by {
        assert kinds[0] == Configured && kinds[1] == Joined && kinds[2] == Ready;
      }
      if changed {
        var _ := WriteBack(member, member.obj.status.(conditions := conds));
      }
    }

    /** persistMemberProbe: sets every condition and always writes. */
    method PersistMemberProbe(member: InstanceCopy, changes: seq<Change>)
      modifies this
      ensures
        var status := member.obj.status.(conditions := SetAll(member.obj.status.conditions, changes));
        instances == UpdateStatus(old(instances), WithStatus(member, status))
    {
      var conds := member.obj.status.conditions;
      for i := 0 to |changes|
        invariant SetAll(conds, changes[i..]) == SetAll(member.obj.status.conditions, changes)
        invariant instances == old(instances)
      {
        assert changes[i..][1..] == changes[i + 1..];
        conds := conds[changes[i].kind := changes[i].condition];
      }
      var _ := WriteBack(member, member.obj.status.(conditions := conds));
    }
  }

  /** Any batch of proper changes keeps the latches, so every such write is a member write of the lifecycle. */
  lemma {:induction false} ChangesKeepLatches(s: InstanceStatus, changes: seq<Change>)
    requires forall c :: c in changes ==> Proper(c)
    ensures Lifecycle.MemberChange(s, s.(conditions := SetAll(s.conditions, changes)))
    decreases |changes|
  {
    if changes != [] {
      var first := s.(conditions := s.conditions[changes[0].kind := changes[0].condition]);
      assert changes[0] in changes;
      ChangesKeepLatches(first, changes[1..]);
    }
  }

  /** So recording progress never un-discovers a member and never undoes Configured or Joined. */
  lemma RecordingIsSafe(w: Lifecycle.World, member: InstanceCopy, changes: seq<Change>)
    requires Lifecycle.Versioned(w) && member in w.past && ClaimedBy(member.obj).Some? && IsDiscovered(member.obj)
    requires forall c :: c in changes ==> Proper(c)
    ensures
      var status := member.obj.status.(conditions := SetAll(member.obj.status.conditions, changes));
      var a := Lifecycle.MemberStatus(member, status);
      && Lifecycle.Enabled(w, a)
      && Lifecycle.Written(w, a) == UpdateStatus(w.instances, WithStatus(member, a.status))
      && (Lifecycle.Commits(w, a) ==>
            w.instances.objects[member.key] == member.obj && IsDiscovered(Lifecycle.AtomicEffect(w, member.obj, a)))
  {
    ChangesKeepLatches(member.obj.status, changes);
    var status := member.obj.status.(conditions := SetAll(member.obj.status.conditions, changes));
    var a := Lifecycle.MemberStatus(member, status);
    Lifecycle.WritesAreAtomic(w, a);
    if Lifecycle.Commits(w, a) {
      assert Accepts(w.instances, member);
      Lifecycle.AcceptedIsCurrent(w, member);
      Lifecycle.EffectKeepsLatches(w, member.obj, a);
    }
  }
}
