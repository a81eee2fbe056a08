/** Converging the managed ClusterRoleBindings on the configured admin groups. */
module AdminBindings {
  import opened ApiStore

  /** A binding, whether it carries the controller's label, and the group it is annotated with. */
  datatype Binding = Binding(managed: bool, group: Option<string>)

  type Bindings = map<string, Binding>

  /** A missing annotation reads as the empty group, which is never desired. */
  function GroupOf(b: Binding): string {
    if b.group.Some? then b.group.value else ""
  }

  function ManagedNames(b: Bindings): set<string> {
    set n | n in b && b[n].managed
  }

  function ManagedGroups(b: Bindings): set<string> {
    set n | n in b && b[n].managed :: GroupOf(b[n])
  }

  /** Managed bindings of groups that are no longer wanted. */
  function Stale(b: Bindings, desired: seq<string>): set<string> {
    set n | n in b && b[n].managed && GroupOf(b[n]) !in desired
  }

  /** The content hash that names a group's binding. */
  type Naming = string -> string

  ghost predicate Injective(name: Naming, desired: seq<string>) {
    forall g, h :: g in desired && h in desired && name(g) == name(h) ==> g == h
  }

  // ----- one pass

  /** createBinding for a group without a managed binding; an occupied name is left alone. */
  function CreateOne(b: Bindings, name: Naming, known: set<string>, group: string): Bindings {
    if group in known || name(group) in b then b else b[name(group) := Binding(true, Some(group))]
  }

  function CreateAll(b: Bindings, name: Naming, known: set<string>, desired: seq<string>): Bindings
    decreases |desired|
  {
    if desired == [] then b else CreateAll(CreateOne(b, name, known, desired[0]), name, known, desired[1..])
  }

  /** For each managed group one of its bindings, whichever the list put last. */
  ghost predicate IsIndex(b: Bindings, index: map<string, string>) {
    && index.Keys == ManagedGroups(b)
    && forall g :: g in index ==> index[g] in b && b[index[g]].managed && GroupOf(b[index[g]]) == g
  }

  function Victims(index: map<string, string>, desired: seq<string>): set<string> {
    set g | g in index && g !in desired :: index[g]
  }

  ghost predicate IsPass(before: Bindings, after: Bindings, name: Naming, desired: seq<string>) {
    exists index :: IsIndex(before, index) &&
      after == CreateAll(before, name, ManagedGroups(before), desired) - Victims(index, desired)
  }

  class Controller {
    var bindings: Bindings

    /** reconcileBindings, failure-free; `listed` is the List in the order the API returned it. */
    method ReconcileBindings(name: Naming, desired: seq<string>, listed: seq<string>)
      requires forall n :: n in listed <==> n in ManagedNames(bindings)
      modifies this
      ensures IsPass(old(bindings), bindings, name, desired)
    {
      var existingByGroup := IndexByGroup(listed);
      var desiredSet := CreateMissing(name, desired, existingByGroup);
      DeleteStale(existingByGroup, desiredSet, desired);
    }

    method IndexByGroup(listed: seq<string>) returns (existingByGroup: map<string, string>)
      requires forall n :: n in listed <==> n in ManagedNames(bindings)
      ensures IsIndex(bindings, existingByGroup)
    {
      existingByGroup := map[];
      for i := 0 to |listed|
        invariant forall g :: g in existingByGroup ==>
          && existingByGroup[g] in bindings && bindings[existingByGroup[g]].managed
          && GroupOf(bindings[existingByGroup[g]]) == g
        invariant forall j :: 0 <= j < i ==> listed[j] in bindings && GroupOf(bindings[listed[j]]) in existingByGroup
      {
        assert listed[i] in listed;
        existingByGroup := existingByGroup[GroupOf(bindings[listed[i]]) := listed[i]];
      }
      forall n | n in ManagedNames(bindings) ensures GroupOf(bindings[n]) in existingByGroup {
        assert n in listed;
      }
      assert existingByGroup.Keys == ManagedGroups(bindings);
    }

    method CreateMissing(name: Naming, desired: seq<string>, existingByGroup: map<string, string>)
      returns (desiredSet: set<string>)
      modifies this
      ensures bindings == CreateAll(old(bindings), name, existingByGroup.Keys, desired)
      ensures forall g :: g in desiredSet <==> g in desired
    {
      desiredSet := {};
      ghost var known := existingByGroup.Keys;
      for i := 0 to |desired|
        invariant forall g :: g in desiredSet <==> g in desired[..i]
        invariant CreateAll(bindings, name, known, desired[i..]) == CreateAll(old(bindings), name, known, desired)
      {
        var group := desired[i];
        assert desired[..i + 1] == desired[..i] + [group];
        assert desired[i..][1..] == desired[i + 1..];
        desiredSet := desiredSet + {group};
        if group !in existingByGroup {
          if name(group) !in bindings {
            bindings := bindings[name(group) := Binding(true, Some(group))];
          }
        }
      }
      assert desired[..|desired|] == desired;
    }

    method DeleteStale(existingByGroup: map<string, string>, desiredSet: set<string>, ghost desired: seq<string>)
      requires forall g :: g in desiredSet <==> g in desired
      modifies this
      ensures bindings == old(bindings) - Victims(existingByGroup, desired)
    {
      var rest := existingByGroup.Keys;
      ghost var gone := {};
      while rest != {}
        invariant rest <= existingByGroup.Keys
        invariant gone == set g | g in existingByGroup && g !in rest && g !in desired :: existingByGroup[g]
        invariant bindings == old(bindings) - gone
      {
        var group :| group in rest;
        rest := rest - {group};
        if group !in desiredSet {
          bindings := bindings - {existingByGroup[group]};
          gone := gone + {existingByGroup[group]};
        }
      }
      assert gone == Victims(existingByGroup, desired);
    }
  }

  // ----- what creation does

  lemma {:induction false} CreateAllKeeps(b: Bindings, name: Naming, known: set<string>, desired: seq<string>)
    ensures var c := CreateAll(b, name, known, desired);
      && (forall n :: n in b ==> n in c && c[n] == b[n])
      && (forall n :: n in c && n !in b ==>
            c[n].managed && GroupOf(c[n]) in desired && GroupOf(c[n]) !in known && n == name(GroupOf(c[n])))
    decreases |desired|
  {
    if desired != [] {
      CreateAllKeeps(CreateOne(b, name, known, desired[0]), name, known, desired[1..]);
    }
  }

  /** With distinct names, a group without a binding gets one exactly when its name is free. */
  lemma {:induction false} CreatedIffFree(b: Bindings, name: Naming, known: set<string>, desired: seq<string>,
          g: string)
    requires Injective(name, desired) && g in desired && g !in known
    ensures var c := CreateAll(b, name, known, desired);
      name(g) !in b ==> name(g) in c && c[name(g)] == Binding(true, Some(g))
    decreases |desired|
  {
    var next := CreateOne(b, name, known, desired[0]);
    CreateAllKeeps(next, name, known, desired[1..]);
    if g != desired[0] || name(g) in b {
      if g in desired[1..] { CreatedIffFree(next, name, known, desired[1..], g); }
    }
  }

  // ----- what a pass does

  lemma PassFacts(before: Bindings, after: Bindings, name: Naming, desired: seq<string>)
    requires IsPass(before, after, name, desired)
    ensures forall n :: n in before && !before[n].managed ==> n in after && after[n] == before[n]
    ensures forall n :: n in after && !after[n].managed ==> n in before && before[n] == after[n]
    ensures forall n :: n in before && before[n].managed && GroupOf(before[n]) in desired ==>
      n in after && after[n] == before[n]
    ensures Stale(after, desired) <= Stale(before, desired)
    ensures Stale(before, desired) != {} ==> Stale(after, desired) < Stale(before, desired)
    ensures forall n :: n in after && n !in before ==>
      after[n].managed && GroupOf(after[n]) in desired && n == name(GroupOf(after[n]))
    ensures forall n :: n in after && n in before ==> after[n] == before[n]
  {
    CreateAllKeeps(before, name, ManagedGroups(before), desired);
    var index :| IsIndex(before, index) &&
      after == CreateAll(before, name, ManagedGroups(before), desired) - Victims(index, desired);
    if Stale(before, desired) != {} {
      var n :| n in Stale(before, desired);
      var g := GroupOf(before[n]);
      assert g in index && index[g] in Victims(index, desired);
      assert index[g] in Stale(before, desired) && index[g] !in Stale(after, desired);
    }
  }

  /** A failure-free pass never touches a binding without the label, and adds none. */
  lemma PassLeavesOthersAlone(before: Bindings, after: Bindings, name: Naming, desired: seq<string>, n: string)
    requires IsPass(before, after, name, desired)
    ensures n in before && !before[n].managed <==> n in after && !after[n].managed
    ensures n in before && !before[n].managed ==> after[n] == before[n]
  {
    PassFacts(before, after, name, desired);
  }

  // ----- convergence

  predicate Converged(b: Bindings, desired: seq<string>) {
    ManagedGroups(b) == (set g | g in desired)
  }

  /**
   What convergence means, if the empty group is not wanted: every managed binding is annotated with
   a wanted group, and every wanted group has one.
   */
  lemma ConvergedMeans(b: Bindings, desired: seq<string>)
    requires "" !in desired
    ensures Converged(b, desired) <==>
      && (forall n :: n in b && b[n].managed ==> b[n].group.Some? && b[n].group.value in desired)
      && (forall g :: g in desired ==> exists n :: n in b && b[n].managed && b[n].group == Some(g))
  {
    if Converged(b, desired) {
      forall n | n in b && b[n].managed ensures b[n].group.Some? && b[n].group.value in desired {
        assert GroupOf(b[n]) in ManagedGroups(b);
      }
      forall g | g in desired ensures exists n :: n in b && b[n].managed && b[n].group == Some(g) {
        assert g in ManagedGroups(b);
      }
    }
  }

  /**
   A wanted group has no binding and its name is taken for good: by an unmanaged binding or by
   another wanted group's.
   */
  predicate Blocked(b: Bindings, name: Naming, desired: seq<string>, g: string) {
    && g in desired && g !in ManagedGroups(b)
    && name(g) in b && (b[name(g)].managed ==> GroupOf(b[name(g)]) in desired)
  }

  predicate Unblocked(b: Bindings, name: Naming, desired: seq<string>) {
    forall g :: g in desired ==> !Blocked(b, name, desired, g)
  }

  /** Managed groups that are wanted stay, and a free name is filled. */
  lemma PassBinds(before: Bindings, after: Bindings, name: Naming, desired: seq<string>, g: string)
    requires IsPass(before, after, name, desired) && Injective(name, desired) && g in desired
    ensures g in ManagedGroups(after) <==> g in ManagedGroups(before) || name(g) !in before
  {
    PassFacts(before, after, name, desired);
    var known := ManagedGroups(before);
    if g in known {
      var n :| n in before && before[n].managed && GroupOf(before[n]) == g;
      assert n in after && after[n].managed && GroupOf(after[n]) == g;
    } else if name(g) !in before {
      CreatedIffFree(before, name, known, desired, g);
      var index :| IsIndex(before, index) && after == CreateAll(before, name, known, desired) - Victims(index, desired);
      assert name(g) !in Victims(index, desired);
      assert name(g) in after && GroupOf(after[name(g)]) == g;
    }
  }

  lemma BlockedIsForever(before: Bindings, after: Bindings, name: Naming, desired: seq<string>, g: string)
    requires IsPass(before, after, name, desired) && Injective(name, desired) && Blocked(before, name, desired, g)
    ensures Blocked(after, name, desired, g)
  {
    PassFacts(before, after, name, desired);
    PassBinds(before, after, name, desired, g);
  }

  lemma UnblockedStays(before: Bindings, after: Bindings, name: Naming, desired: seq<string>)
    requires IsPass(before, after, name, desired) && Injective(name, desired) && Unblocked(before, name, desired)
    ensures Unblocked(after, name, desired)
    ensures Stale(before, desired) == {} ==> Converged(after, desired)
  {
    PassFacts(before, after, name, desired);
    forall g | g in desired ensures !Blocked(after, name, desired, g) {
      PassBinds(before, after, name, desired, g);
    }
    if Stale(before, desired) == {} {
      forall g | g in desired ensures g in ManagedGroups(after) {
        PassBinds(before, after, name, desired, g);
        assert name(g) in before && before[name(g)].managed && GroupOf(before[name(g)]) !in desired ==>
          name(g) in Stale(before, desired);
      }
      forall g | g in ManagedGroups(after) ensures g in desired {
        var n :| n in after && after[n].managed && GroupOf(after[n]) == g;
        assert g !in desired ==> n in Stale(after, desired);
      }
    }
  }

  /** At the fixpoint a pass writes nothing. */
  lemma ConvergedIsFixpoint(before: Bindings, after: Bindings, name: Naming, desired: seq<string>)
    requires IsPass(before, after, name, desired) && Converged(before, desired)
    ensures after == before
  {
    var index :| IsIndex(before, index) &&
      after == CreateAll(before, name, ManagedGroups(before), desired) - Victims(index, desired);
    assert forall g :: g in desired ==> g in ManagedGroups(before);
    NothingToCreate(before, name, ManagedGroups(before), desired);
    assert Victims(index, desired) == {};
  }

  lemma {:induction false} NothingToCreate(b: Bindings, name: Naming, known: set<string>, desired: seq<string>)
    requires forall g :: g in desired ==> g in known
    ensures CreateAll(b, name, known, desired) == b
    decreases |desired|
  {
    if desired != [] { NothingToCreate(b, name, known, desired[1..]); }
  }

  /** A sequence of passes, each by whatever index its List gave it. */
  ghost predicate ArePasses(states: seq<Bindings>, name: Naming, desired: seq<string>) {
    states != [] && forall i :: 0 <= i < |states| - 1 ==> IsPass(states[i], states[i + 1], name, desired)
  }

  lemma {:induction false} SmallerSet(a: set<string>, b: set<string>)
    requires a < b
    ensures |a| < |b|
  {
    assert b == a + (b - a);
    assert b - a != {};
  }

  /** Each pass shrinks the stale bindings until none is left. */
  lemma {:induction false} StaleShrinks(states: seq<Bindings>, name: Naming, desired: seq<string>, i: nat)
    requires ArePasses(states, name, desired) && i < |states|
    ensures |Stale(states[i], desired)| == 0 || |Stale(states[i], desired)| + i <= |Stale(states[0], desired)|
  {
    if i > 0 {
      StaleShrinks(states, name, desired, i - 1);
      assert IsPass(states[i - 1], states[i - 1 + 1], name, desired);
      PassFacts(states[i - 1], states[i], name, desired);
      if Stale(states[i - 1], desired) != {} {
        SmallerSet(Stale(states[i], desired), Stale(states[i - 1], desired));
      } else {
        assert Stale(states[i], desired) == {};
      }
    }
  }

  lemma {:induction false} BlockingPersists(states: seq<Bindings>, name: Naming, desired: seq<string>, i: nat)
    requires ArePasses(states, name, desired) && Injective(name, desired) && i < |states|
    ensures Unblocked(states[0], name, desired) <==> Unblocked(states[i], name, desired)
  {
    if i > 0 {
      BlockingPersists(states, name, desired, i - 1);
      assert IsPass(states[i - 1], states[i - 1 + 1], name, desired);
      if Unblocked(states[i - 1], name, desired) {
        UnblockedStays(states[i - 1], states[i], name, desired);
      } else {
        var g :| g in desired && Blocked(states[i - 1], name, desired, g);
        BlockedIsForever(states[i - 1], states[i], name, desired, g);
      }
    }
  }

  /**
   After one pass more than there are stale bindings, the managed groups are exactly the desired
   ones, if and only if no desired group was blocked to begin with.
   */
  lemma ConvergesIffUnblocked(states: seq<Bindings>, name: Naming, desired: seq<string>, i: nat)
    requires ArePasses(states, name, desired) && Injective(name, desired)
    requires |Stale(states[0], desired)| < i < |states|
    ensures Converged(states[i], desired) <==> Unblocked(states[0], name, desired)
  {
    StaleShrinks(states, name, desired, i - 1);
    BlockingPersists(states, name, desired, i - 1);
    BlockingPersists(states, name, desired, i);
    assert IsPass(states[i - 1], states[i - 1 + 1], name, desired);
    if Unblocked(states[0], name, desired) {
      UnblockedStays(states[i - 1], states[i], name, desired);
    } else {
      var g :| g in desired && Blocked(states[i], name, desired, g);
    }
  }
}
