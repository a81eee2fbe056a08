/**
 Claim labels never dangle.

 Each InstancePool has at most one reconcile in flight, held in `phases`; its API calls are
 separate steps that interleave with the reconciles of other pools, with users creating,
 editing and deleting pools, and with every other writer of Instances.
 */
module PoolClaims {
  import opened ApiStore
  import opened Fleet
  import L = Lifecycle

  /** How far a pool's reconcile got, with what it holds in memory; `count` is what it takes for claimed. */
  datatype Phase =
    | Fetched(copy: PoolCopy)
    | Working(copy: PoolCopy)
    | Scaling(copy: PoolCopy, count: nat)
    | Claiming(copy: PoolCopy, count: nat, candidate: InstanceCopy)
    | TearingDown(copy: PoolCopy)
    | Emptied(copy: PoolCopy)

  datatype World = World(
    pools: PoolStore,
    past: set<PoolCopy>,
    instances: InstanceStore,
    phases: map<Key, Phase>)

  datatype Action =
    // the environment
    | CreatePool(pool: Key, labels: map<string, string>, spec: PoolSpec)
    | EditPool(pool: Key, labels: map<string, string>, finalizers: set<string>, spec: PoolSpec)
    | DeletePool(pool: Key, now: nat)
    | ChangeInstances(instances: InstanceStore)
    // the reconcile of one pool
    | Fetch(pool: Key, copy: PoolCopy)
    | EnsureFinalizer(pool: Key)
    | Release(pool: Key, instance: InstanceCopy)
    | ListClaimed(pool: Key, listed: set<Key>)
    | GetCandidate(pool: Key, candidate: InstanceCopy, instance: InstanceCopy)
    | ClaimCandidate(pool: Key)
    | WriteStatus(pool: Key, status: PoolStatus)
    | ListForTeardown(pool: Key, listed: set<Key>)
    | DropFinalizer(pool: Key)
    | Stop(pool: Key)

  predicate HasFinalizer(p: Pool) { InstancePoolFinalizer in p.finalizers }

  /** The pool is stored and its finalizer keeps it there. */
  predicate Anchored(pools: PoolStore, pool: Key) {
    pool in pools.objects && HasFinalizer(pools.objects[pool])
  }

  /** Other writers of Instances may drop claims but never make one. */
  ghost predicate NoNewClaims(before: InstanceStore, after: InstanceStore) {
    forall k, pool :: Holds(after, pool, k) ==> Holds(before, pool, k)
  }

  /** Indeed none of them does: of all writers of Instances only a claim adds a claim label. */
  lemma OnlyClaimsMakeClaims(w: L.World, a: L.Action)
    requires L.Versioned(w) && L.Enabled(w, a) && !a.Claim?
    ensures NoNewClaims(w.instances, L.Written(w, a))
  {
    L.WritesAreAtomic(w, a);
  }

  // ----- guards

  ghost predicate Enabled(w: World, a: Action) {
    match a
    case CreatePool(pool, labels, spec) => true
    case EditPool(pool, labels, finalizers, spec) =>
      pool in w.pools.objects && (InstancePoolFinalizer in finalizers <==> HasFinalizer(w.pools.objects[pool]))
    case DeletePool(pool, now) => true
    case ChangeInstances(instances) => NoNewClaims(w.instances, instances)
    case Fetch(pool, copy) => pool !in w.phases && copy in w.past && copy.key == pool
    case EnsureFinalizer(pool) => pool in w.phases && w.phases[pool].Fetched? && w.phases[pool].copy.obj.deletedAt.None?
    case Release(pool, instance) =>
      && pool in w.phases && (w.phases[pool].TearingDown? || Above(w.phases[pool]))
      && instance.key.namespace == pool.namespace && ClaimedBy(instance.obj) == Some(pool.name)
    case ListClaimed(pool, listed) => pool in w.phases && w.phases[pool].Working?
    case GetCandidate(pool, listed, instance) =>
      && pool in w.phases && Below(w.phases[pool]) && IsCandidate(w.phases[pool].copy.obj.spec.selector, listed)
      && instance.key == listed.key && instance.key.namespace == pool.namespace && ClaimedBy(instance.obj).None?
    case ClaimCandidate(pool) => pool in w.phases && w.phases[pool].Claiming?
    case WriteStatus(pool, status) => pool in w.phases && w.phases[pool].Scaling?
    case ListForTeardown(pool, listed) =>
      && pool in w.phases && w.phases[pool].Fetched?
      && w.phases[pool].copy.obj.deletedAt.Some? && HasFinalizer(w.phases[pool].copy.obj)
    case DropFinalizer(pool) => pool in w.phases && w.phases[pool].Emptied?
    case Stop(pool) => pool in w.phases
  }

  /** The pool holds an Instance. */
  ghost predicate HoldsAny(instances: InstanceStore, pool: Key) {
    exists k :: Holds(instances, pool, k)
  }

  /** The reconcile sees more claims than replicas, and releases; or fewer, and claims. */
  predicate Above(p: Phase) { p.Scaling? && p.count > 0 && p.count > p.copy.obj.spec.replicas }

  predicate Below(p: Phase) { p.Scaling? && p.count < p.copy.obj.spec.replicas }

  /** What the candidate List and its filter let through. */
  predicate IsCandidate(selector: Selector, listed: InstanceCopy) {
    Matches(selector, listed.obj.labels) && Claimable(listed.obj)
  }

  /** The pool wants Instances, and its selector parses and matches some unclaimed one there could be. */
  ghost predicate Wants(spec: PoolSpec) {
    spec.replicas > 0 && exists labels :: LabelClaimedBy !in labels && Matches(spec.selector, labels)
  }

  /** A copy from which a reconcile can go on to claim without writing the pool first. */
  ghost predicate ClaimsAtOnce(p: Pool) { p.deletedAt.None? && HasFinalizer(p) && Wants(p.spec) }

  /**
   What reads must not do, and all they must not do: show a live pool that wants Instances with its
   finalizer, when it is no longer anchored, or show an empty claim list to a teardown whose
   finalizer removal would commit.  Any other stale read is harmless.
   */
  ghost predicate SafeRead(w: World, a: Action)
    requires Enabled(w, a)
  {
    && (a.Fetch? && ClaimsAtOnce(a.copy.obj) ==> Anchored(w.pools, a.pool))
    && (a.ListForTeardown? && a.listed == {} && Accepts(w.pools, w.phases[a.pool].copy) ==>
         !HoldsAny(w.instances, a.pool))
  }

  // ----- effects

  function Pools(w: World, a: Action): PoolStore
    requires a.EditPool? ==> a.pool in w.pools.objects
    requires a.EnsureFinalizer? || a.DropFinalizer? || a.WriteStatus? ==> a.pool in w.phases
  {
    match a
    case CreatePool(pool, labels, spec) => Create(w.pools, pool, labels, spec, PoolStatus(0, map[]))
    case EditPool(pool, labels, finalizers, spec) =>
      Commit(w.pools, pool, w.pools.objects[pool].(labels := labels, finalizers := finalizers, spec := spec))
    case DeletePool(pool, now) => Delete(w.pools, pool, now)
    case EnsureFinalizer(pool) =>
      if HasFinalizer(w.phases[pool].copy.obj) then w.pools else Update(w.pools, WithPoolFinalizer(w.phases[pool].copy))
    case WriteStatus(pool, status) =>
      UpdateStatus(w.pools, w.phases[pool].copy.(obj := w.phases[pool].copy.obj.(status := status)))
    case DropFinalizer(pool) => Update(w.pools, WithoutPoolFinalizer(w.phases[pool].copy))
    case _ => w.pools
  }

  function Instances(w: World, a: Action): InstanceStore
    requires a.ClaimCandidate? ==> a.pool in w.phases && w.phases[a.pool].Claiming?
  {
    match a
    case ChangeInstances(instances) => instances
    case Release(pool, instance) => Update(w.instances, WithoutClaim(instance))
    case ClaimCandidate(pool) => Update(w.instances, WithClaim(w.phases[pool].candidate, pool.name))
    case _ => w.instances
  }

  ghost function Phases(w: World, a: Action): map<Key, Phase>
    requires Enabled(w, a)
  {
    match a
    case Fetch(pool, copy) => w.phases[pool := Fetched(copy)]
    case EnsureFinalizer(pool) =>
      var copy := w.phases[pool].copy;
      if HasFinalizer(copy.obj) then w.phases[pool := Working(copy)]
      else if Accepts(w.pools, copy) && pool == copy.key then
        var held := WithPoolFinalizer(copy);
        w.phases[pool := Working(held.(obj := held.obj.(version := w.pools.next)))]
      else w.phases - {pool}
    case Release(pool, instance) =>
      var phase := w.phases[pool];
      if phase.Scaling? then w.phases[pool := Scaling(phase.copy, phase.count - 1)] else w.phases
    case ListClaimed(pool, listed) => w.phases[pool := Scaling(w.phases[pool].copy, |listed|)]
    case GetCandidate(pool, listed, instance) =>
      w.phases[pool := Claiming(w.phases[pool].copy, w.phases[pool].count, instance)]
    case ClaimCandidate(pool) =>
      var phase := w.phases[pool];
      var taken := if Accepts(w.instances, phase.candidate) then 1 else 0;
      w.phases[pool := Scaling(phase.copy, phase.count + taken)]
    case ListForTeardown(pool, listed) =>
      w.phases[pool := if listed != {} then TearingDown(w.phases[pool].copy) else Emptied(w.phases[pool].copy)]
    case WriteStatus(pool, status) => w.phases - {pool}
    case DropFinalizer(pool) => w.phases - {pool}
    case Stop(pool) => w.phases - {pool}
    case _ => w.phases
  }

  ghost function Apply(w: World, a: Action): World
    requires Enabled(w, a)
  {
    var pools := Pools(w, a);
    World(pools, w.past + (set k | k in pools.objects :: Copy(k, pools.objects[k])), Instances(w, a), Phases(w, a))
  }

  // ----- invariant

  ghost predicate NoDangling(w: World) {
    forall pool, k :: Holds(w.instances, pool, k) ==> Anchored(w.pools, pool)
  }

  /** What a reconcile in flight may rely on. */
  ghost predicate PhaseSound(w: World, pool: Key, phase: Phase) {
    && phase.copy.key == pool
    && match phase
       case Fetched(copy) => ClaimsAtOnce(copy.obj) ==> Anchored(w.pools, pool)
       case TearingDown(copy) => true
       case Emptied(copy) => Accepts(w.pools, copy) ==> !HoldsAny(w.instances, pool)
       case Claiming(copy, _, candidate) => Anchored(w.pools, pool) && candidate.key.namespace == pool.namespace
       case _ => Wants(phase.copy.obj.spec) ==> Anchored(w.pools, pool)
  }

  /** All versions, stored and remembered, are behind the counter. */
  ghost predicate Behind(w: World) {
    && (forall k :: k in w.pools.objects ==> w.pools.objects[k].version < w.pools.next)
    && (forall c :: c in w.past ==> c.obj.version < w.pools.next)
    && (forall pool :: pool in w.phases ==> w.phases[pool].copy.obj.version < w.pools.next)
  }

  ghost predicate Sound(w: World) {
    && Behind(w) && NoDangling(w)
    && (forall pool :: pool in w.phases ==> PhaseSound(w, pool, w.phases[pool]))
  }

  lemma PoolsBehind(w: World, a: Action)
    requires Behind(w) && Enabled(w, a)
    ensures w.pools.next <= Pools(w, a).next
    ensures forall k :: k in Pools(w, a).objects ==> Pools(w, a).objects[k].version < Pools(w, a).next
  {
  }

  lemma PhasesBehind(w: World, a: Action, pool: Key)
    requires Behind(w) && Enabled(w, a) && pool in Phases(w, a)
    ensures Phases(w, a)[pool].copy.obj.version < Pools(w, a).next
  {
    PoolsBehind(w, a);
  }

  lemma BehindStep(w: World, a: Action)
    requires Behind(w) && Enabled(w, a)
    ensures Behind(Apply(w, a))
  {
    PoolsBehind(w, a);
    forall pool | pool in Phases(w, a) ensures Phases(w, a)[pool].copy.obj.version < Pools(w, a).next {
      PhasesBehind(w, a, pool);
    }
  }

  /** A copy that has been overtaken stays so. */
  lemma StaleStays(w: World, a: Action, copy: PoolCopy)
    requires Behind(w) && Enabled(w, a) && copy.obj.version < w.pools.next && !Accepts(w.pools, copy)
    ensures !Accepts(Pools(w, a), copy)
  {
  }

  /** Only a pool's own DropFinalizer takes its finalizer away. */
  lemma AnchorsStay(w: World, a: Action, pool: Key)
    requires Sound(w) && Enabled(w, a) && Anchored(w.pools, pool) && !(a.DropFinalizer? && a.pool == pool)
    ensures Anchored(Pools(w, a), pool)
  {
  }

  /** Only a pool's own ClaimCandidate gives it an Instance. */
  lemma ClaimsCome(w: World, a: Action, pool: Key, k: Key)
    requires Sound(w) && Enabled(w, a) && Holds(Instances(w, a), pool, k) && !Holds(w.instances, pool, k)
    ensures a.ClaimCandidate? && a.pool == pool
  {
  }

  lemma NoDanglingStep(w: World, a: Action)
    requires Sound(w) && Enabled(w, a)
    ensures NoDangling(Apply(w, a))
  {
    forall pool, k | Holds(Instances(w, a), pool, k) ensures Anchored(Pools(w, a), pool) {
      if !Holds(w.instances, pool, k) { ClaimsCome(w, a, pool, k); }
      if !(a.DropFinalizer? && a.pool == pool) { AnchorsStay(w, a, pool); }
    }
  }

  /** What everyone else does leaves a reconcile in flight what it relies on. */
  lemma PhaseKept(w: World, a: Action, pool: Key)
    requires Sound(w) && Enabled(w, a) && pool in w.phases && !(a.DropFinalizer? && a.pool == pool)
    ensures PhaseSound(Apply(w, a), pool, w.phases[pool])
  {
    if Anchored(w.pools, pool) { AnchorsStay(w, a, pool); }
    if w.phases[pool].Emptied? { EmptiedStep(w, a, pool); }
  }

  lemma PhaseStep(w: World, a: Action, pool: Key)
    requires Sound(w) && Enabled(w, a) && SafeRead(w, a) && pool in Apply(w, a).phases
    ensures PhaseSound(Apply(w, a), pool, Apply(w, a).phases[pool])
  {
    if pool in w.phases && Apply(w, a).phases[pool] == w.phases[pool] {
      PhaseKept(w, a, pool);
    } else if Anchored(w.pools, pool) {
      AnchorsStay(w, a, pool);
    }
  }

  /** Whoever was told that nothing is held gains nothing, and loses only the right to write. */
  lemma EmptiedStep(w: World, a: Action, pool: Key)
    requires Sound(w) && Enabled(w, a) && pool in w.phases && w.phases[pool].Emptied?
    ensures Accepts(Pools(w, a), w.phases[pool].copy) ==> !HoldsAny(Instances(w, a), pool)
  {
    if !Accepts(w.pools, w.phases[pool].copy) {
      StaleStays(w, a, w.phases[pool].copy);
    } else {
      forall k | Holds(Instances(w, a), pool, k) ensures Holds(w.instances, pool, k) {
        if !Holds(w.instances, pool, k) { ClaimsCome(w, a, pool, k); }
      }
    }
  }

  lemma SoundStep(w: World, a: Action)
    requires Sound(w) && Enabled(w, a) && SafeRead(w, a)
    ensures Sound(Apply(w, a))
  {
    BehindStep(w, a);
    NoDanglingStep(w, a);
    forall pool | pool in Apply(w, a).phases ensures PhaseSound(Apply(w, a), pool, Apply(w, a).phases[pool]) {
      PhaseStep(w, a, pool);
    }
  }

  // ----- every run

  ghost predicate IsRun(w: World, actions: seq<Action>)
    decreases |actions|
  {
    actions == [] || (Enabled(w, actions[0]) && IsRun(Apply(w, actions[0]), actions[1..]))
  }

  /** Every read of the run is safe. */
  ghost predicate SafeReads(w: World, actions: seq<Action>)
    requires IsRun(w, actions)
    decreases |actions|
  {
    actions == [] || (SafeRead(w, actions[0]) && SafeReads(Apply(w, actions[0]), actions[1..]))
  }

  ghost function After(w: World, actions: seq<Action>): World
    requires IsRun(w, actions)
    decreases |actions|
  {
    if actions == [] then w else After(Apply(w, actions[0]), actions[1..])
  }

  /** Nothing is claimed and nothing is in flight. */
  ghost predicate Initial(w: World) {
    w.phases == map[] && Behind(w) && forall pool, k :: !Holds(w.instances, pool, k)
  }

  lemma {:induction false} SoundRun(w: World, actions: seq<Action>)
    requires Sound(w) && IsRun(w, actions) && SafeReads(w, actions)
    ensures Sound(After(w, actions))
    decreases |actions|
  {
    if actions != [] {
      SoundStep(w, actions[0]);
      SoundRun(Apply(w, actions[0]), actions[1..]);
    }
  }

  /** In every reachable state the pool named by a claim label exists and carries its finalizer. */
  lemma ClaimsNeverDangle(w: World, actions: seq<Action>, pool: Key, k: Key)
    requires Initial(w) && IsRun(w, actions) && SafeReads(w, actions)
    requires Holds(After(w, actions).instances, pool, k)
    ensures Anchored(After(w, actions).pools, pool)
  {
    SoundRun(w, actions);
  }

  /** So a pool leaves the store, or loses its finalizer, only once it holds nothing. */
  lemma PoolGoesEmptyHanded(w: World, actions: seq<Action>, a: Action, pool: Key)
    requires Initial(w) && IsRun(w, actions) && SafeReads(w, actions) && Enabled(After(w, actions), a)
    requires Anchored(After(w, actions).pools, pool) && !Anchored(Apply(After(w, actions), a).pools, pool)
    ensures a.DropFinalizer? && a.pool == pool && !HoldsAny(After(w, actions).instances, pool)
  {
    SoundRun(w, actions);
    if !(a.DropFinalizer? && a.pool == pool) { AnchorsStay(After(w, actions), a, pool); }
  }

  // ----- the conditions on reads are exact

  /** With current reads of pools and Instances every read is safe. */
  lemma CurrentReadsAreSafe(w: World, a: Action)
    requires Enabled(w, a)
    requires a.Fetch? ==> a.pool in w.pools.objects && a.copy == Copy(a.pool, w.pools.objects[a.pool])
    requires a.ListForTeardown? ==> forall k :: Holds(w.instances, a.pool, k) ==> k in a.listed
    ensures SafeRead(w, a)
  {
  }

  /** From this state a claim can be left dangling although every further read is safe. */
  ghost predicate MayDangle(w: World) {
    exists actions :: IsRun(w, actions) && SafeReads(w, actions) && !NoDangling(After(w, actions))
  }

  lemma Prepend(w: World, a: Action, rest: seq<Action>)
    requires Enabled(w, a) && IsRun(Apply(w, a), rest)
    ensures IsRun(w, [a] + rest) && After(w, [a] + rest) == After(Apply(w, a), rest)
    ensures SafeReads(w, [a] + rest) <==> SafeRead(w, a) && SafeReads(Apply(w, a), rest)
  {
    assert ([a] + rest)[1..] == rest;
  }

  lemma SoundNeverDangles(w: World)
    requires Sound(w)
    ensures !MayDangle(w)
  {
    forall actions | IsRun(w, actions) && SafeReads(w, actions) ensures NoDangling(After(w, actions)) {
      SoundRun(w, actions);
    }
  }

  /** There is always a name nobody uses. */
  lemma {:induction false} UnusedName(keys: set<Key>) returns (name: string)
    ensures name != "" && forall k :: k in keys ==> |k.name| < |name|
  {
    name := "i";
    if keys != {} {
      var k :| k in keys;
      var rest := UnusedName(keys - {k});
      name := rest + k.name;
      assert forall x :: x in keys ==> x == k || x in keys - {k};
    }
  }

  /** The environment registers an Instance under a new name, and discovery finds it alive. */
  lemma CandidateAppears(w: World, selector: Selector, labels: map<string, string>, namespace: string)
    returns (register: Action, probe: Action, k: Key)
    requires LabelClaimedBy !in labels && Matches(selector, labels)
    ensures register.ChangeInstances? && probe.ChangeInstances?
    ensures Enabled(w, register) && Enabled(Apply(w, register), probe) && k.namespace == namespace
    ensures var st := Apply(Apply(w, register), probe).instances;
      k in st.objects && IsCandidate(selector, Copy(k, st.objects[k])) && st.objects[k].deletedAt.None?
  {
    var name := UnusedName(w.instances.objects.Keys);
    k := Key(namespace, name);
    assert k !in w.instances.objects;
    register := ChangeInstances(Create(w.instances, k, labels, InstanceSpec(["192.0.2.1"]), InstanceStatus(map[], [])));
    var fresh' := Copy(k, register.instances.objects[k]);
    var found := L.ProbeStatus(fresh'.obj.status, true, "Discovered", Message("discovered", 0, 0), []);
    assert Discovered != Live;
    probe := ChangeInstances(UpdateStatus(register.instances, WithStatus(fresh', found)));
  }

  /** A reconcile below its replicas whose pool is not anchored can claim a candidate, which dangles. */
  lemma ScalingDangles(w: World, pool: Key, k: Key)
    requires pool in w.phases && Below(w.phases[pool]) && w.phases[pool].copy.key == pool && !Anchored(w.pools, pool)
    requires k.namespace == pool.namespace && k in w.instances.objects && w.instances.objects[k].deletedAt.None?
    requires IsCandidate(w.phases[pool].copy.obj.spec.selector, Copy(k, w.instances.objects[k]))
    ensures MayDangle(w)
  {
    var candidate := Copy(k, w.instances.objects[k]);
    var get, claim := GetCandidate(pool, candidate, candidate), ClaimCandidate(pool);
    var w1 := Apply(w, get);
    var w2 := Apply(w1, claim);
    assert Holds(w2.instances, pool, k);
    assert [claim] + [] == [claim];
    Prepend(w1, claim, []);
    Prepend(w, get, [claim]);
  }

  /** A reconcile past its finalizer that wants Instances while the pool is not anchored can leave a dangling claim. */
  lemma WorkingDangles(w: World, pool: Key)
    requires pool in w.phases && w.phases[pool].Working? && w.phases[pool].copy.key == pool && !Anchored(w.pools, pool)
    requires Wants(w.phases[pool].copy.obj.spec)
    ensures MayDangle(w)
  {
    var spec := w.phases[pool].copy.obj.spec;
    var labels :| LabelClaimedBy !in labels && Matches(spec.selector, labels);
    var register, probe, k := CandidateAppears(w, spec.selector, labels, pool.namespace);
    var w1 := Apply(w, register);
    var w2 := Apply(w1, probe);
    var list := ListClaimed(pool, {});
    ScalingDangles(Apply(w2, list), pool, k);
    DanglesEarlier(w2, list);
    DanglesEarlier(w1, probe);
    DanglesEarlier(w, register);
  }

  /**
   A read of the pool does harm exactly if the copy is live, carries the finalizer, has replicas and
   a selector that some unclaimed Instance could match, while the stored pool has no finalizer or is
   gone.
   */
  lemma FetchDanglesIff(w: World, pool: Key, copy: PoolCopy)
    requires Sound(w) && Enabled(w, Fetch(pool, copy))
    ensures MayDangle(Apply(w, Fetch(pool, copy))) <==> ClaimsAtOnce(copy.obj) && !Anchored(w.pools, pool)
  {
    var fetch, ensure := Fetch(pool, copy), EnsureFinalizer(pool);
    var w1 := Apply(w, fetch);
    if ClaimsAtOnce(copy.obj) && !Anchored(w.pools, pool) {
      WorkingDangles(Apply(w1, ensure), pool);
      DanglesEarlier(w1, ensure);
    } else {
      SoundStep(w, fetch);
      SoundNeverDangles(w1);
    }
  }

  lemma DanglesEarlier(w: World, a: Action)
    requires Enabled(w, a) && SafeRead(w, a) && MayDangle(Apply(w, a))
    ensures MayDangle(w)
  {
    var rest :| IsRun(Apply(w, a), rest) && SafeReads(Apply(w, a), rest) && !NoDangling(After(Apply(w, a), rest));
    Prepend(w, a, rest);
  }

  /** Removing the finalizer leaves a dangling claim exactly if it commits and something is held. */
  lemma DropDanglesIff(w: World, pool: Key)
    requires NoDangling(w)
    requires Enabled(w, DropFinalizer(pool)) && w.phases[pool].copy.key == pool
    ensures !NoDangling(Apply(w, DropFinalizer(pool))) <==>
      Accepts(w.pools, w.phases[pool].copy) && HoldsAny(w.instances, pool)
  {
    if HoldsAny(w.instances, pool) {
      var k :| Holds(w.instances, pool, k);
      assert Holds(Instances(w, DropFinalizer(pool)), pool, k);
    }
  }

  /** An empty List does harm exactly if something is held and the finalizer removal would commit. */
  lemma EmptyListDanglesIff(w: World, pool: Key)
    requires Sound(w) && Enabled(w, ListForTeardown(pool, {}))
    ensures MayDangle(Apply(w, ListForTeardown(pool, {}))) <==>
      Accepts(w.pools, w.phases[pool].copy) && HoldsAny(w.instances, pool)
  {
    var list, drop := ListForTeardown(pool, {}), DropFinalizer(pool);
    var w1 := Apply(w, list);
    if Accepts(w.pools, w.phases[pool].copy) && HoldsAny(w.instances, pool) {
      DropDanglesIff(w1, pool);
      assert IsRun(Apply(w1, drop), []) && SafeReads(Apply(w1, drop), []);
      DanglesEarlier(w1, drop);
    } else {
      SoundStep(w, list);
      SoundNeverDangles(w1);
    }
  }

  /** A List that shows a claim, however stale, does no harm. */
  lemma NonEmptyListIsHarmless(w: World, pool: Key, listed: set<Key>)
    requires Sound(w) && Enabled(w, ListForTeardown(pool, listed)) && listed != {}
    ensures !MayDangle(Apply(w, ListForTeardown(pool, listed)))
  {
    SoundStep(w, ListForTeardown(pool, listed));
    SoundNeverDangles(Apply(w, ListForTeardown(pool, listed)));
  }

  // ----- pools come and go

  lemma {:induction false} Append(w: World, xs: seq<Action>, ys: seq<Action>)
    requires IsRun(w, xs) && IsRun(After(w, xs), ys)
    ensures IsRun(w, xs + ys) && After(w, xs + ys) == After(After(w, xs), ys)
    ensures SafeReads(w, xs + ys) <==> SafeReads(w, xs) && SafeReads(After(w, xs), ys)
    decreases |xs|
  {
    if xs == [] {
      assert xs + ys == ys;
    } else {
      Append(Apply(w, xs[0]), xs[1..], ys);
      assert (xs + ys)[1..] == xs[1..] + ys;
    }
  }

  lemma Extend(w: World, xs: seq<Action>, a: Action)
    requires IsRun(w, xs) && SafeReads(w, xs) && Enabled(After(w, xs), a) && SafeRead(After(w, xs), a)
    ensures IsRun(w, xs + [a]) && SafeReads(w, xs + [a]) && After(w, xs + [a]) == Apply(After(w, xs), a)
  {
    assert [a] + [] == [a];
    Prepend(After(w, xs), a, []);
    Append(w, xs, [a]);
  }

  /** The pool is stored, can be read, and nobody is at it. */
  ghost predicate AtRest(w: World, pool: Key) {
    pool in w.pools.objects && Copy(pool, w.pools.objects[pool]) in w.past && pool !in w.phases
  }

  ghost function HeldKeys(w: World, pool: Key): set<Key> {
    set k | k in w.instances.objects && Holds(w.instances, pool, k)
  }

  /** The first reconcile of a live pool anchors it before anything is claimed. */
  lemma LivePoolIsAnchored(w: World, pool: Key) returns (actions: seq<Action>)
    requires AtRest(w, pool) && w.pools.objects[pool].deletedAt.None? && !HasFinalizer(w.pools.objects[pool])
    ensures IsRun(w, actions) && SafeReads(w, actions)
    ensures Anchored(After(w, actions).pools, pool) && After(w, actions).instances == w.instances
  {
    var fetch := Fetch(pool, Copy(pool, w.pools.objects[pool]));
    assert [] + [fetch] == [fetch];
    Extend(w, [], fetch);
    Extend(w, [fetch], EnsureFinalizer(pool));
    actions := [fetch] + [EnsureFinalizer(pool)];
  }

  /** A reconcile of a deleted pool can release one Instance more. */
  lemma OneIsReleased(w: World, pool: Key, k: Key) returns (actions: seq<Action>)
    requires AtRest(w, pool) && w.pools.objects[pool].deletedAt.Some? && HasFinalizer(w.pools.objects[pool])
    requires Holds(w.instances, pool, k)
    ensures IsRun(w, actions) && SafeReads(w, actions) && AtRest(After(w, actions), pool)
    ensures After(w, actions).pools == w.pools && HeldKeys(After(w, actions), pool) == HeldKeys(w, pool) - {k}
  {
    var fetch, list := Fetch(pool, Copy(pool, w.pools.objects[pool])), ListForTeardown(pool, {k});
    var release, stop := Release(pool, Copy(k, w.instances.objects[k])), Stop(pool);
    assert [] + [fetch] == [fetch];
    Extend(w, [], fetch);
    Extend(w, [fetch], list);
    Extend(w, [fetch] + [list], release);
    Extend(w, [fetch] + [list] + [release], stop);
    actions := [fetch] + [list] + [release] + [stop];
  }

  /**
   A deleted pool can always go: with current reads it releases one Instance after the other, and
   leaves the store once it holds none.
   */
  lemma {:induction false} DeletedPoolLeaves(w: World, pool: Key) returns (actions: seq<Action>)
    requires AtRest(w, pool) && w.pools.objects[pool].deletedAt.Some?
    requires w.pools.objects[pool].finalizers == {InstancePoolFinalizer}
    ensures IsRun(w, actions) && SafeReads(w, actions)
    ensures pool !in After(w, actions).pools.objects && HeldKeys(After(w, actions), pool) == {}
    decreases |HeldKeys(w, pool)|
  {
    if HeldKeys(w, pool) == {} {
      var copy := Copy(pool, w.pools.objects[pool]);
      assert copy.obj.finalizers - {InstancePoolFinalizer} == {};
      assert !HoldsAny(w.instances, pool) by {
        forall k ensures !Holds(w.instances, pool, k) { assert k !in HeldKeys(w, pool); }
      }
      assert [] + [Fetch(pool, copy)] == [Fetch(pool, copy)];
      Extend(w, [], Fetch(pool, copy));
      Extend(w, [Fetch(pool, copy)], ListForTeardown(pool, {}));
      Extend(w, [Fetch(pool, copy)] + [ListForTeardown(pool, {})], DropFinalizer(pool));
      actions := [Fetch(pool, copy)] + [ListForTeardown(pool, {})] + [DropFinalizer(pool)];
    } else {
      var k :| k in HeldKeys(w, pool);
      var first := OneIsReleased(w, pool, k);
      var rest := DeletedPoolLeaves(After(w, first), pool);
      Append(w, first, rest);
      actions := first + rest;
    }
  }

  /** A reconcile of a live pool that is past its finalizer and has listed its claims. */
  lemma ListedPool(w: World, pool: Key) returns (actions: seq<Action>)
    requires AtRest(w, pool) && w.pools.objects[pool].deletedAt.None? && HasFinalizer(w.pools.objects[pool])
    ensures IsRun(w, actions) && SafeReads(w, actions)
    ensures After(w, actions) ==
      w.(phases := w.phases[pool := Scaling(Copy(pool, w.pools.objects[pool]), |HeldKeys(w, pool)|)],
         past := After(w, actions).past)
  {
    var fetch, list := Fetch(pool, Copy(pool, w.pools.objects[pool])), ListClaimed(pool, HeldKeys(w, pool));
    assert [] + [fetch] == [fetch];
    Extend(w, [], fetch);
    Extend(w, [fetch], EnsureFinalizer(pool));
    Extend(w, [fetch] + [EnsureFinalizer(pool)], list);
    actions := [fetch] + [EnsureFinalizer(pool)] + [list];
  }

  /** A live pool that holds more than its replicas can release any one of them. */
  lemma SurplusIsReleased(w: World, pool: Key, k: Key) returns (actions: seq<Action>)
    requires AtRest(w, pool) && w.pools.objects[pool].deletedAt.None? && HasFinalizer(w.pools.objects[pool])
    requires Holds(w.instances, pool, k) && |HeldKeys(w, pool)| > w.pools.objects[pool].spec.replicas
    ensures IsRun(w, actions) && SafeReads(w, actions)
    ensures HeldKeys(After(w, actions), pool) == HeldKeys(w, pool) - {k}
  {
    var scaling := ListedPool(w, pool);
    assert k in HeldKeys(w, pool);
    var release := Release(pool, Copy(k, w.instances.objects[k]));
    Extend(w, scaling, release);
    actions := scaling + [release];
  }

  /** A live pool that holds fewer can claim any candidate of its namespace. */
  lemma CandidateIsClaimed(w: World, pool: Key, k: Key) returns (actions: seq<Action>)
    requires AtRest(w, pool) && w.pools.objects[pool].deletedAt.None? && HasFinalizer(w.pools.objects[pool])
    requires k in w.instances.objects && k.namespace == pool.namespace && WellFormed(w.instances)
    requires Matches(w.pools.objects[pool].spec.selector, w.instances.objects[k].labels)
    requires ClaimedBy(w.instances.objects[k]).None? && IsDiscovered(w.instances.objects[k])
    requires IsLive(w.instances.objects[k]) && |HeldKeys(w, pool)| < w.pools.objects[pool].spec.replicas
    ensures IsRun(w, actions) && SafeReads(w, actions)
    ensures HeldKeys(After(w, actions), pool) == HeldKeys(w, pool) + {k}
  {
    var scaling := ListedPool(w, pool);
    var copy := Copy(k, w.instances.objects[k]);
    Extend(w, scaling, GetCandidate(pool, copy, copy));
    Extend(w, scaling + [GetCandidate(pool, copy, copy)], ClaimCandidate(pool));
    actions := scaling + [GetCandidate(pool, copy, copy)] + [ClaimCandidate(pool)];
  }

  // ----- a reconcile moves no more than its List says

  /** The Instances a pool's reconciles try to release. */
  function Releases(actions: seq<Action>, pool: Key): nat {
    if actions == [] then 0
    else (if actions[0].Release? && actions[0].pool == pool then 1 else 0) + Releases(actions[1..], pool)
  }

  /** The Instances a step gives to a pool. */
  function Gained(before: InstanceStore, after: InstanceStore, pool: Key): set<Key> {
    set k | k in after.objects && Holds(after, pool, k) && !Holds(before, pool, k)
  }

  ghost function Gains(w: World, actions: seq<Action>, pool: Key): nat
    requires IsRun(w, actions)
    decreases |actions|
  {
    if actions == [] then 0
    else
      var next := Apply(w, actions[0]);
      |Gained(w.instances, next.instances, pool)| + Gains(next, actions[1..], pool)
  }

  /** How many Instances a reconcile may still release, and still take. */
  function Excess(p: Phase): nat {
    if Above(p) then p.count - (if p.copy.obj.spec.replicas < 0 then 0 else p.copy.obj.spec.replicas) else 0
  }

  function Missing(p: Phase): nat {
    if (p.Scaling? || p.Claiming?) && p.count < p.copy.obj.spec.replicas then p.copy.obj.spec.replicas - p.count else 0
  }

  function ExcessOf(w: World, pool: Key): nat { if pool in w.phases then Excess(w.phases[pool]) else 0 }

  function MissingOf(w: World, pool: Key): nat { if pool in w.phases then Missing(w.phases[pool]) else 0 }

  /** Whoever is about to claim is short of replicas and has a candidate of its own namespace. */
  predicate ClaimsForItself(w: World) {
    forall p :: p in w.phases && w.phases[p].Claiming? ==>
      Missing(w.phases[p]) > 0 && w.phases[p].candidate.key.namespace == p.namespace
  }

  /** The pool's reconcile is past its List of claims, or over. */
  predicate Scales(w: World, pool: Key) {
    pool in w.phases ==> w.phases[pool].Scaling? || w.phases[pool].Claiming?
  }

  lemma ClaimsForItselfStep(w: World, a: Action)
    requires ClaimsForItself(w) && Enabled(w, a)
    ensures ClaimsForItself(Apply(w, a))
  {
  }

  lemma {:induction false} ClaimsForItselfRun(w: World, actions: seq<Action>)
    requires ClaimsForItself(w) && IsRun(w, actions)
    ensures ClaimsForItself(After(w, actions))
    decreases |actions|
  {
    if actions != [] {
      ClaimsForItselfStep(w, actions[0]);
      ClaimsForItselfRun(Apply(w, actions[0]), actions[1..]);
    }
  }

  /** A step gives the pool at most one Instance, and only the pool's own claim does. */
  lemma GainStep(w: World, a: Action, pool: Key)
    requires ClaimsForItself(w) && Enabled(w, a)
    ensures |Gained(w.instances, Instances(w, a), pool)| <= 1
    ensures Gained(w.instances, Instances(w, a), pool) != {} ==>
      a == ClaimCandidate(pool) && Accepts(w.instances, w.phases[pool].candidate)
  {
    var got := Gained(w.instances, Instances(w, a), pool);
    if a.ClaimCandidate? {
      var key := w.phases[a.pool].candidate.key;
      assert got <= {key};
      assert got == {} || got == {key};
    } else {
      assert got == {};
    }
  }

  /** What a step releases or takes is used up. */
  lemma ScaleStep(w: World, a: Action, pool: Key)
    requires ClaimsForItself(w) && Enabled(w, a) && Scales(w, pool) && !(a.Fetch? && a.pool == pool)
    ensures Scales(Apply(w, a), pool)
    ensures (if a.Release? && a.pool == pool then 1 else 0) + ExcessOf(Apply(w, a), pool) <= ExcessOf(w, pool)
    ensures |Gained(w.instances, Instances(w, a), pool)| + MissingOf(Apply(w, a), pool) <= MissingOf(w, pool)
  {
    GainStep(w, a, pool);
  }

  lemma {:induction false} ScaleRun(w: World, actions: seq<Action>, pool: Key)
    requires ClaimsForItself(w) && IsRun(w, actions) && Scales(w, pool)
    requires forall a :: a in actions && a.Fetch? ==> a.pool != pool
    ensures Releases(actions, pool) <= ExcessOf(w, pool) && Gains(w, actions, pool) <= MissingOf(w, pool)
    decreases |actions|
  {
    if actions != [] {
      ClaimsForItselfStep(w, actions[0]);
      ScaleStep(w, actions[0], pool);
      ScaleRun(Apply(w, actions[0]), actions[1..], pool);
    }
  }

  /**
   From its List of claims to its end a reconcile tries to release at most as many Instances as
   the List shows beyond the replicas, and gets at most as many as it shows missing, whatever
   everybody else does meanwhile and however stale the List is.
   */
  lemma MovesWithinItsList(w: World, before: seq<Action>, pool: Key, listed: set<Key>, actions: seq<Action>)
    requires Initial(w) && IsRun(w, before) && Enabled(After(w, before), ListClaimed(pool, listed))
    requires IsRun(Apply(After(w, before), ListClaimed(pool, listed)), actions)
    requires forall a :: a in actions && a.Fetch? ==> a.pool != pool
    ensures
      var start := Apply(After(w, before), ListClaimed(pool, listed));
      var released, got := Releases(actions, pool), Gains(start, actions, pool);
      var replicas := After(w, before).phases[pool].copy.obj.spec.replicas;
      && (released > 0 ==> released <= |listed| && released <= |listed| - replicas)
      && (got > 0 ==> got <= replicas - |listed|)
      && (released == 0 || got == 0)
  {
    ClaimsForItselfRun(w, before);
    ClaimsForItselfStep(After(w, before), ListClaimed(pool, listed));
    ScaleRun(Apply(After(w, before), ListClaimed(pool, listed)), actions, pool);
  }
}
