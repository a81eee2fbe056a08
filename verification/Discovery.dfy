/** The discovery reconciler: maintenance-mode probes of an unclaimed Instance. */
module Discovery {
  import opened ApiStore
  import opened Fleet
  import Lifecycle

  /** What the node at a candidate address answers. */
  datatype Answer = Unreachable | Reached(addresses: seq<Address>)

  /** The first candidate that answers. */
  function FirstReached(answers: seq<Answer>): Option<nat> {
    if answers == [] then None
    else if answers[0].Reached? then Some(0)
    else
      var rest := FirstReached(answers[1..]);
      if rest.Some? then Some(rest.value + 1) else None
  }

  /** The status one probe of the candidates leaves behind. */
  function Probed(s: InstanceStatus, interfaces: seq<string>, answers: seq<Answer>): InstanceStatus
    requires |answers| == |interfaces|
  {
    FirstReachedIs(answers);
    match FirstReached(answers)
    case Some(i) => Lifecycle.ProbeStatus(s, true, "Discovered", Message("discovered via " + interfaces[i], 0, 0),
      answers[i].addresses)
    case None =>
      if interfaces == [] then Lifecycle.ProbeStatus(s, false, "NoInterfaces",
        Message("spec.interfaces is empty", 0, 0), [])
      else Lifecycle.ProbeStatus(s, false, "ProbeFailed", Message("all %d candidate(s) failed", |interfaces|, 0), [])
  }

  lemma {:induction false} FirstReachedIs(answers: seq<Answer>)
    ensures match FirstReached(answers)
      case Some(i) => i < |answers| && answers[i].Reached? && forall j :: 0 <= j < i ==> !answers[j].Reached?
      case None => forall j :: 0 <= j < |answers| ==> !answers[j].Reached?
  {
    if answers != [] { FirstReachedIs(answers[1..]); }
  }

  class Prober {
    var instances: InstanceStore
    var writes: nat

    /** recordProbeResult: conditions first, then a write only if something changed. */
    method RecordProbeResult(inst: InstanceCopy, status: InstanceStatus, live: bool, fieldsChanged: bool,
            reason: string, message: Message)
      requires inst.key in instances.objects && inst.obj == instances.objects[inst.key]
      requires status.conditions == inst.obj.status.conditions && (!live ==> status == inst.obj.status)
      requires fieldsChanged <==> status.addresses != inst.obj.status.addresses
      modifies this
      ensures var after := Lifecycle.ProbeStatus(inst.obj.status, live, reason, message, status.addresses);
        if after == inst.obj.status then instances == old(instances) && writes == old(writes)
        else instances == UpdateStatus(old(instances), WithStatus(inst, after)) && writes == old(writes) + 1
    {
      var conds := status.conditions;
      var discoveredChanged := false;
      if live {
        discoveredChanged := Discovered !in conds || conds[Discovered] != Condition(true, reason, message);
        conds := conds[Discovered := Condition(true, reason, message)];
      }
      var liveChanged := Live !in conds || conds[Live] != Condition(live, reason, message);
      conds := conds[Live := Condition(live, reason, message)];
      assert conds == Lifecycle.ProbeStatus(inst.obj.status, live, reason, message, status.addresses).conditions;
      assert Discovered != Live;
      if fieldsChanged || discoveredChanged || liveChanged {
        instances := UpdateStatus(instances, WithStatus(inst, InstanceStatus(conds, status.addresses)));
        writes := writes + 1;
      } else {
        assert conds == inst.obj.status.conditions;
      }
    }

    /** probeCandidates: the first address that answers decides. */
    method ProbeCandidates(inst: InstanceCopy, answers: seq<Answer>)
      requires inst.key in instances.objects && inst.obj == instances.objects[inst.key]
      requires |answers| == |inst.obj.spec.interfaces| && inst.obj.spec.interfaces != []
      modifies this
      ensures Recorded(old(instances), instances, old(writes), writes, inst,
        Probed(inst.obj.status, inst.obj.spec.interfaces, answers))
    {
      FirstReachedIs(answers);
      for i := 0 to |answers|
        invariant forall j :: 0 <= j < i ==> !answers[j].Reached?
        invariant instances == old(instances) && writes == old(writes)
      {
        if answers[i].Reached? {
          var found := inst.obj.status.(addresses := answers[i].addresses);
          RecordProbeResult(inst, found, true, found.addresses != inst.obj.status.addresses, "Discovered",
            Message("discovered via " + inst.obj.spec.interfaces[i], 0, 0));
          return;
        }
      }
      RecordProbeResult(inst, inst.obj.status, false, false, "ProbeFailed",
        Message("all %d candidate(s) failed", |answers|, 0));
    }

    /** Reconcile: a claimed Instance is never touched; `acquired` is the zone lease's answer. */
    method Reconcile(key: Key, acquired: bool, answers: seq<Answer>)
      requires key in instances.objects ==> |answers| == |instances.objects[key].spec.interfaces|
      modifies this
      ensures !Probes(old(instances), key, acquired) ==> instances == old(instances) && writes == old(writes)
      ensures Probes(old(instances), key, acquired) ==>
        var o := old(instances).objects[key];
        Recorded(old(instances), instances, old(writes), writes, Copy(key, o),
          Probed(o.status, o.spec.interfaces, answers))
    {
      if key !in instances.objects {
        return;
      }
      var inst := Copy(key, instances.objects[key]);
      if ClaimedBy(inst.obj).Some? || !acquired {
        return;
      }
      FirstReachedIs(answers);
      if inst.obj.spec.interfaces == [] {
        RecordProbeResult(inst, inst.obj.status, false, false, "NoInterfaces",
          Message("spec.interfaces is empty", 0, 0));
        return;
      }
      ProbeCandidates(inst, answers);
    }

    /** A second probe with the same answers writes nothing, so status writes do not feed on themselves. */
    method ReconcileTwice(key: Key, answers: seq<Answer>) returns (between: nat)
      requires key in instances.objects && |answers| == |instances.objects[key].spec.interfaces|
      requires WellFormed(instances)
      modifies this
      ensures writes == between
    {
      ghost var before := instances;
      Reconcile(key, true, answers);
      between := writes;
      if Probes(before, key, true) {
        ProbedTwice(before.objects[key].status, before.objects[key].spec.interfaces, answers);
      }
      Reconcile(key, true, answers);
    }
  }

  predicate Probes(st: InstanceStore, key: Key, acquired: bool) {
    key in st.objects && ClaimedBy(st.objects[key]).None? && acquired
  }

  /** The status was written, unless it was already there. */
  ghost predicate Recorded(before: InstanceStore, after: InstanceStore, writes: nat, writes': nat, inst: InstanceCopy,
          status: InstanceStatus)
  {
    if status == inst.obj.status then after == before && writes' == writes
    else after == UpdateStatus(before, WithStatus(inst, status)) && writes' == writes + 1
  }

  lemma ProbedTwice(s: InstanceStatus, interfaces: seq<string>, answers: seq<Answer>)
    requires |answers| == |interfaces|
    ensures Probed(Probed(s, interfaces, answers), interfaces, answers) == Probed(s, interfaces, answers)
  {
    FirstReachedIs(answers);
    assert Discovered != Live;
  }

  /** What a probe says about the Instance: Live exactly if a candidate answered, Discovered from then on. */
  lemma ProbeMeaning(s: InstanceStatus, interfaces: seq<string>, answers: seq<Answer>)
    requires |answers| == |interfaces|
    ensures var t := Probed(s, interfaces, answers); var reached := exists a :: a in answers && a.Reached?;
      && (IsTrue(t.conditions, Live) <==> reached)
      && (IsTrue(t.conditions, Discovered) <==> reached || IsTrue(s.conditions, Discovered))
      && (forall i :: 0 <= i < |answers| && answers[i].Reached? && (forall j :: 0 <= j < i ==> !answers[j].Reached?) ==>
            t.addresses == answers[i].addresses)
      && (!reached ==> t.addresses == s.addresses && (Discovered in s.conditions ==>
            t.conditions[Discovered] == s.conditions[Discovered]))
      && t.conditions[Live].reason ==
           (if reached then "Discovered" else if interfaces == [] then "NoInterfaces" else "ProbeFailed")
      && (forall kind :: kind != Live && kind != Discovered ==>
           (kind in t.conditions <==> kind in s.conditions) &&
           (kind in s.conditions ==> t.conditions[kind] == s.conditions[kind]))
  {
    FirstReachedIs(answers);
    assert Discovered != Live;
    if FirstReached(answers).Some? { assert answers[FirstReached(answers).value] in answers; }
  }
}
