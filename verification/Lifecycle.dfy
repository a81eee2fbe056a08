/**
 Every writer of Instance objects, interleaved in any order and reading copies of any age.

 A controller is a read, a decision and a write with anything in between.  The world remembers
 every version an Instance ever had (`past`), so a write may be prepared from any of them: this
 covers stale caches, delayed goroutines, overlapping reconciles and crashed ones, since a crash
 is a write that never comes.  What a reconcile learned from a step other than a read of the
 Instance, a reset answered or an owner not found, is kept in `log`.
 */
module Lifecycle {
  import opened ApiStore
  import opened Fleet

  datatype Event =
    | ResetIssued(copy: InstanceCopy, at: nat, succeeded: bool, teardown: bool)
    | NoOwner(copy: InstanceCopy, at: nat, clusters: map<Key, Cluster>)

  datatype World = World(
    instances: InstanceStore,
    past: set<InstanceCopy>,
    clusters: map<Key, Cluster>,
    now: nat,
    log: seq<Event>)

  /** Why removeFinalizer was reached. */
  datatype Removal = Unclaimed | Ownerless | NeverConfigured | ResetDone | GaveUp

  datatype Action =
    // the environment: users, zone add, garbage collection, time
    | CreateInstance(key: Key, labels: map<string, string>, spec: InstanceSpec)
    | EditInstance(key: Key, labels: map<string, string>, finalizers: set<string>, spec: InstanceSpec)
    | DeleteInstance(key: Key)
    | ChangeClusters(clusters: map<Key, Cluster>)
    | Tick
    // discovery
    | Probe(copy: InstanceCopy, live: bool, reason: string, message: Message, addresses: seq<Address>)
    // pools
    | Claim(pool: Key, listed: InstanceCopy, copy: InstanceCopy)
    | Release(pool: Key, copy: InstanceCopy)
    // clusters
    | MemberStatus(copy: InstanceCopy, status: InstanceStatus)
    | TeardownReset(pool: Key, copy: InstanceCopy, succeeded: bool)
    | TeardownClear(pool: Key, copy: InstanceCopy)
    | TeardownRelease(pool: Key, copy: InstanceCopy)
    // reset on delete
    | ClearUnclaimed(copy: InstanceCopy)
    | AddFinalizer(copy: InstanceCopy)
    | SeeNoOwner(copy: InstanceCopy)
    | Reset(copy: InstanceCopy, succeeded: bool)
    | RemoveFinalizer(copy: InstanceCopy, why: Removal)

  // ----- what each writer computes

  /** recordProbeResult: Discovered only ever becomes true, Live follows the probe. */
  function ProbeStatus(s: InstanceStatus, live: bool, reason: string, message: Message,
          addresses: seq<Address>): InstanceStatus {
    var latched := if live then s.conditions[Discovered := Condition(true, reason, message)] else s.conditions;
    InstanceStatus(latched[Live := Condition(live, reason, message)], if live then addresses else s.addresses)
  }

  /** Member bookkeeping touches Configured, Joined, Ready and Live; the first two only to set them. */
  ghost predicate MemberChange(s: InstanceStatus, t: InstanceStatus) {
    && (forall kind :: kind !in {Configured, Joined, Ready, Live} ==>
         IsTrue(s.conditions, kind) == IsTrue(t.conditions, kind))
    && (forall kind :: kind in {Configured, Joined} && IsTrue(s.conditions, kind) ==> IsTrue(t.conditions, kind))
  }

  // ----- when a writer may act

  ghost predicate Enabled(w: World, a: Action) {
    match a
    case CreateInstance(key, labels, spec) => LabelClaimedBy !in labels
    case EditInstance(key, labels, finalizers, spec) =>
      && key in w.instances.objects && EnvKeepsClaim(w.instances.objects[key].labels, labels)
      && (InstanceResetFinalizer in finalizers <==> InstanceResetFinalizer in w.instances.objects[key].finalizers)
    case DeleteInstance(key) => true
    case ChangeClusters(clusters) => true
    case Tick => true
    case Probe(copy, live, reason, message, addresses) => copy in w.past && ClaimedBy(copy.obj).None?
    case Claim(pool, listed, copy) =>
      && listed in w.past && copy in w.past && listed.key == copy.key
      && copy.key.namespace == pool.namespace
      && Claimable(listed.obj) && ClaimedBy(copy.obj).None?
    case Release(pool, copy) =>
      copy in w.past && copy.key.namespace == pool.namespace && ClaimedBy(copy.obj) == Some(pool.name)
    case MemberStatus(copy, status) =>
      copy in w.past && ClaimedBy(copy.obj).Some? && IsDiscovered(copy.obj) && MemberChange(copy.obj.status, status)
    case TeardownReset(pool, copy, succeeded) => copy in w.past && ListedBy(pool, copy) && IsConfigured(copy.obj)
    case TeardownClear(pool, copy) => copy in w.past && ListedBy(pool, copy) && Clean(w.log, copy)
    case TeardownRelease(pool, copy) => copy in w.past && ListedBy(pool, copy) && Clean(w.log, copy)
    case ClearUnclaimed(copy) => copy in w.past && ClaimedBy(copy.obj).None? && copy.obj.deletedAt.None?
    case AddFinalizer(copy) => copy in w.past && ClaimedBy(copy.obj).Some? && copy.obj.deletedAt.None?
    case SeeNoOwner(copy) =>
      && copy in w.past && ClaimedBy(copy.obj).Some? && copy.obj.deletedAt.Some?
      && !Owned(w.clusters, copy.key.namespace, ClaimedBy(copy.obj).value)
    case Reset(copy, succeeded) => copy in w.past && AwaitsReset(copy.obj)
    case RemoveFinalizer(copy, why) =>
      copy in w.past && copy.obj.deletedAt.Some? && RemovalGuard(w, copy, why)
  }

  /** A List of the pool's Instances returned the copy. */
  predicate ListedBy(pool: Key, copy: InstanceCopy) {
    copy.key.namespace == pool.namespace && ClaimedBy(copy.obj) == Some(pool.name)
  }

  /** teardownMember goes on only with a member that was never configured or that it has just reset. */
  ghost predicate Clean(log: seq<Event>, copy: InstanceCopy) {
    IsConfigured(copy.obj) ==> exists e :: e in log && e.ResetIssued? && e.copy == copy && e.succeeded
  }

  /**
   Users and zone add edit labels, finalizers and spec but leave the claim to the pools and the
   reset finalizer to its controller.
   */
  predicate EnvKeepsClaim(before: map<string, string>, after: map<string, string>) {
    && (LabelClaimedBy in before <==> LabelClaimedBy in after)
    && (LabelClaimedBy in before ==> after[LabelClaimedBy] == before[LabelClaimedBy])
  }

  ghost predicate RemovalGuard(w: World, copy: InstanceCopy, why: Removal)
    requires copy.obj.deletedAt.Some?
  {
    match why
    case Unclaimed => ClaimedBy(copy.obj).None?
    case Ownerless => exists e :: e in w.log && e.NoOwner? && e.copy == copy
    case NeverConfigured => ClaimedBy(copy.obj).Some? && !IsConfigured(copy.obj)
    case ResetDone => exists e :: e in w.log && e.ResetIssued? && e.copy == copy && e.succeeded
    case GaveUp => AwaitsReset(copy.obj) && w.now > copy.obj.deletedAt.value + ResetTimeout
  }

  // ----- effect

  /** The store after the action; a rejected write leaves it alone. */
  function Written(w: World, a: Action): InstanceStore
    requires a.EditInstance? ==> a.key in w.instances.objects
  {
    var st := w.instances;
    match a
    case CreateInstance(key, labels, spec) => Create(st, key, labels, spec, InstanceStatus(map[], []))
    case EditInstance(key, labels, finalizers, spec) =>
      Commit(st, key, st.objects[key].(labels := labels, finalizers := finalizers, spec := spec))
    case DeleteInstance(key) => Delete(st, key, w.now)
    case Probe(copy, live, reason, message, addresses) =>
      UpdateStatus(st, WithStatus(copy, ProbeStatus(copy.obj.status, live, reason, message, addresses)))
    case Claim(pool, listed, copy) => Update(st, WithClaim(copy, pool.name))
    case Release(pool, copy) => Update(st, WithoutClaim(copy))
    case MemberStatus(copy, status) => UpdateStatus(st, WithStatus(copy, status))
    case TeardownClear(_, copy) => UpdateStatus(st, WithStatus(copy, Cleared(copy.obj.status)))
    case TeardownRelease(_, copy) => Update(st, WithoutClaim(copy))
    case TeardownReset(_, _, _) => st
    case ClearUnclaimed(copy) => UpdateStatus(st, WithStatus(copy, Cleared(copy.obj.status)))
    case AddFinalizer(copy) => Update(st, WithFinalizer(copy))
    case RemoveFinalizer(copy, why) => Update(st, WithoutFinalizer(copy))
    case ChangeClusters(_) => st
    case Tick => st
    case SeeNoOwner(_) => st
    case Reset(_, _) => st
  }

  function Observed(w: World, a: Action): seq<Event> {
    match a
    case SeeNoOwner(copy) => w.log + [NoOwner(copy, w.now, w.clusters)]
    case Reset(copy, succeeded) => w.log + [ResetIssued(copy, w.now, succeeded, false)]
    case TeardownReset(_, copy, succeeded) => w.log + [ResetIssued(copy, w.now, succeeded, true)]
    case _ => w.log
  }

  ghost function Apply(w: World, a: Action): World
    requires Enabled(w, a)
  {
    var st := Written(w, a);
    World(
      st,
      w.past + Copies(st),
      if a.ChangeClusters? then a.clusters else w.clusters,
      if a.Tick? then w.now + 1 else w.now,
      Observed(w, a))
  }

  function Copies(st: InstanceStore): set<InstanceCopy> {
    set k | k in st.objects :: Copy(k, st.objects[k])
  }

  // ----- runs

  predicate Initial(w: World) {
    w.instances.objects == map[] && w.past == {} && w.log == []
  }

  /** A run: each action is enabled where it happens. */
  ghost predicate IsRun(w: World, actions: seq<Action>)
    decreases |actions|
  {
    actions == [] || (Enabled(w, actions[0]) && IsRun(Apply(w, actions[0]), actions[1..]))
  }

  ghost function After(w: World, actions: seq<Action>): World
    requires IsRun(w, actions)
    decreases |actions|
  {
    if actions == [] then w else After(Apply(w, actions[0]), actions[1..])
  }

  lemma Prepend(w: World, a: Action, rest: seq<Action>)
    requires Enabled(w, a) && IsRun(Apply(w, a), rest)
    ensures IsRun(w, [a] + rest) && After(w, [a] + rest) == After(Apply(w, a), rest)
  {
    assert ([a] + rest)[1..] == rest;
  }

  /** No Instance is deleted and recreated under its name between a claim's List and its Get. */
  predicate NoRecreate(a: Action) {
    a.Claim? ==> a.listed.obj.uid == a.copy.obj.uid
  }

  // ----- what versions guarantee

  /** A version names one copy, and a UID one key. */
  ghost predicate Identified(past: set<InstanceCopy>) {
    && (forall c, d :: c in past && d in past && c.obj.version == d.obj.version ==> c == d)
    && (forall c, d :: c in past && d in past && c.obj.uid == d.obj.uid ==> c.key == d.key)
  }

  /** Versions and UIDs are behind the counter, and a deleted Instance was kept only by a finalizer. */
  ghost predicate Behind(past: set<InstanceCopy>, next: nat) {
    forall c :: c in past ==>
      c.obj.version < next && c.obj.uid < next && (c.obj.deletedAt.Some? ==> c.obj.finalizers != {})
  }

  /** Whatever is stored is the newest copy of its key. */
  ghost predicate StoredIsNewest(past: set<InstanceCopy>, objects: map<Key, Instance>) {
    && (forall k :: k in objects ==> Copy(k, objects[k]) in past)
    && (forall c :: c in past && c.key in objects ==> c.obj.version <= objects[c.key].version)
  }

  ghost predicate Versioned(w: World) {
    Identified(w.past) && Behind(w.past, w.instances.next) && StoredIsNewest(w.past, w.instances.objects)
  }

  /** An accepted write was prepared from the stored object itself, however old the read. */
  lemma AcceptedIsCurrent(w: World, c: InstanceCopy)
    requires Versioned(w) && c in w.past && Accepts(w.instances, c)
    ensures w.instances.objects[c.key] == c.obj
  {
    assert Copy(c.key, w.instances.objects[c.key]) in w.past;
  }

  // ----- stale reads refine atomic ones

  /** The key an action writes, if it writes one. */
  function Target(a: Action): Key {
    if a.CreateInstance? || a.EditInstance? || a.DeleteInstance? then a.key
    else if a.ChangeClusters? || a.Tick? then Key("", "")
    else a.copy.key
  }

  predicate WritesExisting(a: Action) {
    !a.CreateInstance? && !a.ChangeClusters? && !a.Tick? && !a.SeeNoOwner? && !a.Reset? && !a.TeardownReset?
  }

  /** What the writer's own check says about the object that is actually replaced. */
  ghost predicate AtomicGuard(w: World, o: Instance, a: Action)
    requires WritesExisting(a)
  {
    match a
    case EditInstance(key, labels, finalizers, spec) =>
      && EnvKeepsClaim(o.labels, labels)
      && (InstanceResetFinalizer in finalizers <==> InstanceResetFinalizer in o.finalizers)
    case DeleteInstance(key) => o.deletedAt.None?
    case Probe(_, _, _, _, _) => ClaimedBy(o).None?
    case Claim(pool, listed, copy) =>
      ClaimedBy(o).None? && a.copy.key.namespace == pool.namespace && listed.key == copy.key
    case Release(pool, copy) => ClaimedBy(o) == Some(pool.name) && copy.key.namespace == pool.namespace
    case MemberStatus(_, status) => ClaimedBy(o).Some? && IsDiscovered(o) && MemberChange(o.status, status)
    case TeardownClear(pool, copy) => ListedBy(pool, copy) && o == copy.obj && Clean(w.log, copy)
    case TeardownRelease(pool, copy) => ListedBy(pool, copy) && o == copy.obj && Clean(w.log, copy)
    case ClearUnclaimed(_) => ClaimedBy(o).None? && o.deletedAt.None?
    case AddFinalizer(_) => ClaimedBy(o).Some? && o.deletedAt.None?
    case RemoveFinalizer(copy, why) => o.deletedAt.Some? && o == copy.obj && RemovalGuard(w, copy, why)
  }

  /** The replacement, computed from the object that is actually replaced. */
  function AtomicEffect(w: World, o: Instance, a: Action): Instance
    requires WritesExisting(a)
  {
    match a
    case EditInstance(_, labels, finalizers, spec) => o.(labels := labels, finalizers := finalizers, spec := spec)
    case DeleteInstance(_) => o.(deletedAt := Some(w.now))
    case Probe(_, live, reason, message, addresses) =>
      o.(status := ProbeStatus(o.status, live, reason, message, addresses))
    case Claim(pool, _, _) => o.(labels := o.labels[LabelClaimedBy := pool.name])
    case Release(_, _) => o.(labels := o.labels - {LabelClaimedBy})
    case MemberStatus(_, status) => o.(status := status)
    case TeardownClear(_, _) => o.(status := Cleared(o.status))
    case TeardownRelease(_, _) => o.(labels := o.labels - {LabelClaimedBy})
    case ClearUnclaimed(_) => o.(status := Cleared(o.status))
    case AddFinalizer(_) => o.(finalizers := o.finalizers + {InstanceResetFinalizer})
    case RemoveFinalizer(_, _) => o.(finalizers := o.finalizers - {InstanceResetFinalizer})
  }

  /** The action commits on an existing object. */
  ghost predicate Commits(w: World, a: Action)
    requires Enabled(w, a)
  {
    WritesExisting(a) && Written(w, a) != w.instances
  }

  /**
   A write prepared from a copy of any age either changes nothing or is indistinguishable from
   reading, checking and writing the current object in one step.
   */
  lemma WritesAreAtomic(w: World, a: Action)
    requires Versioned(w) && Enabled(w, a)
    ensures Commits(w, a) ==>
      && Target(a) in w.instances.objects
      && AtomicGuard(w, w.instances.objects[Target(a)], a)
      && Written(w, a) == Commit(w.instances, Target(a), AtomicEffect(w, w.instances.objects[Target(a)], a))
    ensures !Commits(w, a) && !a.CreateInstance? ==> Written(w, a) == w.instances
  {
    if Commits(w, a) && !a.EditInstance? && !a.DeleteInstance? {
      assert Accepts(w.instances, a.copy);
      AcceptedIsCurrent(w, a.copy);
    }
  }

  /** No write touches an Instance other than its target. */
  lemma WritesOneKey(w: World, a: Action)
    requires Versioned(w) && Enabled(w, a)
    ensures forall j :: j != Target(a) && j in Written(w, a).objects ==>
      j in w.instances.objects && w.instances.objects[j] == Written(w, a).objects[j]
  {
    WritesAreAtomic(w, a);
  }

  /** Two stores that agree but for one key differ in at most one copy. */
  lemma CopiesDiffer(past: set<InstanceCopy>, st: InstanceStore, st': InstanceStore, k: Key)
    requires Copies(st) <= past
    requires forall j :: j != k && j in st'.objects ==> j in st.objects && st.objects[j] == st'.objects[j]
    ensures past + Copies(st') == past + (if k in st'.objects then {Copy(k, st'.objects[k])} else {})
  {
    forall j | j in st'.objects && j != k ensures Copy(j, st'.objects[j]) in past {
      assert Copy(j, st.objects[j]) in Copies(st);
    }
  }

  /** The past grows by exactly the version a write adds, if it adds one. */
  lemma PastGrows(w: World, a: Action)
    requires Versioned(w) && Enabled(w, a)
    ensures Written(w, a) == w.instances ==> Apply(w, a).past == w.past
    ensures Written(w, a) != w.instances && Target(a) in Written(w, a).objects ==>
      Apply(w, a).past == w.past + {Copy(Target(a), Written(w, a).objects[Target(a)])}
    ensures Written(w, a) != w.instances && Target(a) !in Written(w, a).objects ==> Apply(w, a).past == w.past
  {
    assert Copies(w.instances) <= w.past;
    if Written(w, a) != w.instances {
      WritesOneKey(w, a);
      CopiesDiffer(w.past, w.instances, Written(w, a), Target(a));
    }
  }

  /** A step either adds no version or one: a new Instance, or what a writer made of the stored one. */
  lemma StepAdds(w: World, a: Action)
    requires Versioned(w) && Enabled(w, a)
    ensures w.log <= Apply(w, a).log
    ensures Apply(w, a).past == w.past || (
      var k := Target(a);
      && k in Apply(w, a).instances.objects
      && Apply(w, a).past == w.past + {Copy(k, Apply(w, a).instances.objects[k])}
      && Added(w, a, k, Apply(w, a).instances.objects[k]))
  {
    WritesAreAtomic(w, a);
    PastGrows(w, a);
  }

  ghost predicate Added(w: World, a: Action, k: Key, o': Instance) {
    && o'.version == w.instances.next
    && if a.CreateInstance? then o'.uid == w.instances.next && o'.labels == a.labels && o'.deletedAt.None?
       else
         && WritesExisting(a) && k in w.instances.objects && AtomicGuard(w, w.instances.objects[k], a)
         && o' == AtomicEffect(w, w.instances.objects[k], a).(version := w.instances.next)
  }

  lemma VersionedStep(w: World, a: Action)
    requires Versioned(w) && Enabled(w, a)
    ensures Versioned(Apply(w, a))
  {
    WritesAreAtomic(w, a);
    PastGrows(w, a);
    var k, st' := Target(a), Written(w, a);
    if st' != w.instances && k in st'.objects {
      NewVersion(w, Apply(w, a), k, st'.objects[k]);
    }
  }

  lemma NewCopyIdentified(past: set<InstanceCopy>, n: InstanceCopy, next: nat)
    requires Identified(past) && Behind(past, next) && n.obj.version == next
    requires n.obj.uid == next || exists c :: c in past && c.key == n.key && c.obj.uid == n.obj.uid
    ensures Identified(past + {n})
  {
  }

  /** Adding one freshly versioned copy of a key keeps the version discipline. */
  lemma NewVersion(w: World, w': World, k: Key, o: Instance)
    requires Versioned(w)
    requires o.version == w.instances.next && w'.instances.next == w.instances.next + 1
    requires w'.instances.objects == w.instances.objects[k := o]
    requires w'.past == w.past + {Copy(k, o)}
    requires o.uid == w.instances.next || (k in w.instances.objects && o.uid == w.instances.objects[k].uid)
    requires o.deletedAt.Some? ==> o.finalizers != {}
    ensures Versioned(w')
  {
    if k in w.instances.objects {
      assert Copy(k, w.instances.objects[k]) in w.past;
    }
    NewCopyIdentified(w.past, Copy(k, o), w.instances.next);
    assert Behind(w'.past, w'.instances.next);
    assert StoredIsNewest(w'.past, w'.instances.objects);
  }

  // ----- latches

  /** Along the versions of one Instance, Discovered is never lost and the deletion time never moves. */
  ghost predicate Latched(w: World) {
    forall c, d :: c in w.past && d in w.past && c.obj.uid == d.obj.uid && c.obj.version <= d.obj.version ==>
      && (IsDiscovered(c.obj) ==> IsDiscovered(d.obj))
      && (c.obj.deletedAt.Some? ==> d.obj.deletedAt == c.obj.deletedAt)
  }

  /** Every version that was ever stored with a claim was Discovered. */
  ghost predicate ClaimsDiscovered(w: World) {
    forall c :: c in w.past && ClaimedBy(c.obj).Some? ==> IsDiscovered(c.obj)
  }

  /** The log holds only what happened: Configured members reset by their controllers, owners found missing. */
  ghost predicate Truthful(w: World) {
    forall e :: e in w.log ==>
      && e.copy in w.past && ClaimedBy(e.copy.obj).Some? && e.at <= w.now
      && ((e.ResetIssued? && e.teardown) || (e.copy.obj.deletedAt.Some? && e.copy.obj.deletedAt.value <= e.at))
      && (e.ResetIssued? ==> IsTrue(e.copy.obj.status.conditions, "Configured"))
      && (e.ResetIssued? && !e.teardown ==> InstanceResetFinalizer in e.copy.obj.finalizers)
      && (e.NoOwner? ==> !Owned(e.clusters, e.copy.key.namespace, ClaimedBy(e.copy.obj).value))
  }

  ghost predicate DeletionsPast(w: World) {
    forall c :: c in w.past && c.obj.deletedAt.Some? ==> c.obj.deletedAt.value <= w.now
  }

  /** What holds of every history, whatever is read and whatever is recreated. */
  ghost predicate History(w: World) {
    Versioned(w) && Latched(w) && DeletionsPast(w) && Truthful(w)
  }

  /** A reset of the Instance succeeded, through this version of it or a later one. */
  ghost predicate ResetSince(log: seq<Event>, o: Instance) {
    exists e :: e in log && e.ResetIssued? && e.succeeded && e.copy.obj.uid == o.uid && e.copy.obj.version >= o.version
  }

  /**
   No writer un-discovers an Instance or moves its deletion time; none takes Configured or Joined
   from a claimed one, but for the teardown of its cluster, which resets it first.
   */
  lemma EffectKeepsLatches(w: World, o: Instance, a: Action)
    requires WritesExisting(a) && AtomicGuard(w, o, a)
    ensures AtomicEffect(w, o, a).uid == o.uid
    ensures IsDiscovered(o) ==> IsDiscovered(AtomicEffect(w, o, a))
    ensures o.deletedAt.Some? ==> AtomicEffect(w, o, a).deletedAt == o.deletedAt
    ensures AtomicEffect(w, o, a).deletedAt.Some? ==>
      o.deletedAt == AtomicEffect(w, o, a).deletedAt || AtomicEffect(w, o, a).deletedAt.value == w.now
    ensures ClaimedBy(AtomicEffect(w, o, a)).Some? ==> ClaimedBy(o).Some? || a.Claim?
    ensures ClaimedBy(o).Some? && IsConfigured(o) && !IsConfigured(AtomicEffect(w, o, a)) ==>
      a.TeardownClear? && ResetSince(w.log, o)
    ensures ClaimedBy(o).Some? && !a.TeardownClear? && IsTrue(o.status.conditions, Joined) ==>
      IsTrue(AtomicEffect(w, o, a).status.conditions, Joined)
  {
  }

  lemma NewVersionKeepsLatches(w: World, w': World, k: Key, o: Instance)
    requires Versioned(w) && Latched(w) && DeletionsPast(w)
    requires o.version == w.instances.next && w'.past == w.past + {Copy(k, o)} && w'.now >= w.now
    requires (o.uid == w.instances.next && o.deletedAt.None?) ||
      (k in w.instances.objects && o.uid == w.instances.objects[k].uid)
    requires o.uid != w.instances.next ==>
      && (IsDiscovered(w.instances.objects[k]) ==> IsDiscovered(o))
      && (w.instances.objects[k].deletedAt.Some? ==> o.deletedAt == w.instances.objects[k].deletedAt)
    requires o.deletedAt.Some? ==> o.deletedAt.value <= w'.now
    ensures Latched(w') && DeletionsPast(w')
  {
    if o.uid != w.instances.next {
      var cur := Copy(k, w.instances.objects[k]);
      assert cur in w.past;
      forall c | c in w.past && c.obj.uid == o.uid
        ensures (IsDiscovered(c.obj) ==> IsDiscovered(o)) && (c.obj.deletedAt.Some? ==> o.deletedAt == c.obj.deletedAt)
      {
        assert c.key == k && c.obj.version <= cur.obj.version;
      }
    }
  }

  lemma TruthfulStep(w: World, a: Action)
    requires Versioned(w) && DeletionsPast(w) && Truthful(w) && Enabled(w, a)
    ensures Truthful(Apply(w, a))
  {
  }

  /** Every step of every controller, on copies of any age, keeps the history sound. */
  lemma HistoryStep(w: World, a: Action)
    requires History(w) && Enabled(w, a)
    ensures History(Apply(w, a))
  {
    VersionedStep(w, a);
    WritesAreAtomic(w, a);
    PastGrows(w, a);
    TruthfulStep(w, a);
    var k, st, w' := Target(a), w.instances, Apply(w, a);
    if w'.instances != st && k in w'.instances.objects {
      if !a.CreateInstance? {
        EffectKeepsLatches(w, st.objects[k], a);
        assert Copy(k, st.objects[k]) in w.past;
      }
      NewVersionKeepsLatches(w, w', k, w'.instances.objects[k]);
    }
  }

  lemma {:induction false} HistoryRun(w: World, actions: seq<Action>)
    requires History(w) && IsRun(w, actions)
    ensures History(After(w, actions))
    decreases |actions|
  {
    if actions != [] {
      HistoryStep(w, actions[0]);
      HistoryRun(Apply(w, actions[0]), actions[1..]);
    }
  }

  // ----- claimed implies Discovered

  /** A committed claim lands on a Discovered object: the listed copy was, and the latch carries it. */
  lemma ClaimLandsOnDiscovered(w: World, a: Action)
    requires Versioned(w) && Latched(w) && Enabled(w, a) && a.Claim? && NoRecreate(a) && Commits(w, a)
    ensures IsDiscovered(w.instances.objects[a.copy.key])
  {
    WritesAreAtomic(w, a);
    AcceptedIsCurrent(w, a.copy);
    assert a.listed.obj.version <= a.copy.obj.version;
  }

  lemma ClaimsDiscoveredStep(w: World, a: Action)
    requires History(w) && ClaimsDiscovered(w) && Enabled(w, a) && NoRecreate(a)
    ensures ClaimsDiscovered(Apply(w, a))
  {
    StepAdds(w, a);
    if Apply(w, a).past != w.past && !a.CreateInstance? {
      var o := w.instances.objects[Target(a)];
      assert Copy(Target(a), o) in w.past;
      EffectKeepsLatches(w, o, a);
      if a.Claim? { ClaimLandsOnDiscovered(w, a); }
    }
  }

  lemma {:induction false} ClaimsDiscoveredRun(w: World, actions: seq<Action>)
    requires History(w) && ClaimsDiscovered(w) && IsRun(w, actions) && (forall a :: a in actions ==> NoRecreate(a))
    ensures ClaimsDiscovered(After(w, actions))
    decreases |actions|
  {
    if actions != [] {
      HistoryStep(w, actions[0]);
      ClaimsDiscoveredStep(w, actions[0]);
      ClaimsDiscoveredRun(Apply(w, actions[0]), actions[1..]);
    }
  }

  /** In every reachable state a claimed Instance is Discovered, however stale the reads. */
  lemma ClaimedImpliesDiscovered(w: World, actions: seq<Action>, k: Key)
    requires Initial(w) && IsRun(w, actions) && (forall a :: a in actions ==> NoRecreate(a))
    requires k in After(w, actions).instances.objects
    ensures ClaimedBy(After(w, actions).instances.objects[k]).Some? ==>
      IsDiscovered(After(w, actions).instances.objects[k])
  {
    HistoryRun(w, actions);
    ClaimsDiscoveredRun(w, actions);
    assert Copy(k, After(w, actions).instances.objects[k]) in After(w, actions).past;
  }

  /** What a claim needs, exactly: the copy its Get returned must itself be Discovered. */
  lemma ClaimSafeIffDiscovered(w: World, a: Action)
    requires History(w) && ClaimsDiscovered(w) && Enabled(w, a) && a.Claim? && Commits(w, a)
    ensures ClaimsDiscovered(Apply(w, a)) <==> IsDiscovered(a.copy.obj)
  {
    WritesAreAtomic(w, a);
    AcceptedIsCurrent(w, a.copy);
    PastGrows(w, a);
    var k := a.copy.key;
    assert w.instances.objects[k] == a.copy.obj && a.copy in w.past;
    var n := Copy(k, Apply(w, a).instances.objects[k]);
    assert n in Apply(w, a).past && ClaimedBy(n.obj).Some?;
  }

  /**
   Without the hypothesis the property fails, from every state with a claimable Instance that
   nothing holds: it is listed, deleted and registered again under its name, and the claim that
   follows lands on the undiscovered one.
   */
  lemma RecreationDefeatsClaim(w: World, k: Key, pool: Key) returns (actions: seq<Action>)
    requires Versioned(w) && k in w.instances.objects && k.namespace == pool.namespace
    requires var o := w.instances.objects[k]; Claimable(o) && o.deletedAt.None? && o.finalizers == {}
    ensures IsRun(w, actions) && k in After(w, actions).instances.objects
    ensures ClaimedBy(After(w, actions).instances.objects[k]) == Some(pool.name)
    ensures !IsDiscovered(After(w, actions).instances.objects[k])
  {
    var listed := Copy(k, w.instances.objects[k]);
    var delete, create := DeleteInstance(k), CreateInstance(k, map[], listed.obj.spec);
    var w1 := Apply(w, delete);
    var w2 := Apply(w1, create);
    var again := Copy(k, w2.instances.objects[k]);
    var claim := Claim(pool, listed, again);
    assert listed in w.past && listed in w2.past && again in w2.past;
    assert [claim] + [] == [claim];
    Prepend(w2, claim, []);
    Prepend(w1, create, [claim]);
    Prepend(w, delete, [create] + [claim]);
    actions := [delete] + ([create] + [claim]);
  }

  /** A fresh Instance becomes claimable once a probe answers. */
  lemma ProbeMakesClaimable(w: World, k: Key, a: Action)
    requires k in w.instances.objects && Copy(k, w.instances.objects[k]) in w.past
    requires var o := w.instances.objects[k]; ClaimedBy(o).None? && o.deletedAt.None? && o.finalizers == {}
    requires a.Probe? && a.copy == Copy(k, w.instances.objects[k]) && a.live
    ensures Enabled(w, a) && k in Apply(w, a).instances.objects
    ensures var o := Apply(w, a).instances.objects[k]; Claimable(o) && o.deletedAt.None? && o.finalizers == {}
  {
    assert Discovered != Live;
  }

  /** Such states are reachable: register an Instance and discover it. */
  lemma ClaimableIsReachable(w: World, k: Key, spec: InstanceSpec) returns (actions: seq<Action>)
    requires Initial(w)
    ensures IsRun(w, actions) && Versioned(After(w, actions)) && k in After(w, actions).instances.objects
    ensures var o := After(w, actions).instances.objects[k]; Claimable(o) && o.deletedAt.None? && o.finalizers == {}
  {
    var create := CreateInstance(k, map[], spec);
    var w1 := Apply(w, create);
    var first := Copy(k, w1.instances.objects[k]);
    assert first in w1.past;
    var probe := Probe(first, true, "Discovered", Message("discovered", 0, 0), []);
    ProbeMakesClaimable(w1, k, probe);
    assert [probe] + [] == [probe];
    Prepend(w1, probe, []);
    Prepend(w, create, [probe]);
    actions := [create] + [probe];
    HistoryRun(w, actions);
  }

  // ----- non-interference

  /** What a write that commits does to the claim of the Instance it lands on, and where it may land. */
  predicate RespectfulAt(o: Instance, n: Instance, a: Action) {
    && (a.Claim? ==> ClaimedBy(o).None? && ClaimedBy(n) == Some(a.pool.name))
    && (a.Release? || a.TeardownRelease? ==> ClaimedBy(o) == Some(a.pool.name) && ClaimedBy(n).None?)
    && (a.TeardownClear? ==> ClaimedBy(o) == Some(a.pool.name) && ClaimedBy(n) == ClaimedBy(o))
    && (a.Probe? || a.ClearUnclaimed? ==> ClaimedBy(o).None? && ClaimedBy(n).None?)
    && (a.MemberStatus? ==> ClaimedBy(o).Some? && ClaimedBy(n) == ClaimedBy(o))
    && (ClaimedBy(o).Some? && ClaimedBy(n) != ClaimedBy(o) ==> ClaimedBy(n).None? && (a.Release? || a.TeardownRelease?))
    && (ClaimedBy(o).Some? && IsConfigured(o) && !IsConfigured(n) ==> a.TeardownClear?)
  }

  /** What the store looks like around a write that commits on the Instance at `k`. */
  ghost predicate Respectful(before: map<Key, Instance>, after: map<Key, Instance>, a: Action, k: Key) {
    && k in before
    && (forall j :: j != k ==> (j in before <==> j in after) && (j in before ==> after[j] == before[j]))
    && (k in after ==> after[k].uid == before[k].uid && RespectfulAt(before[k], after[k], a))
    && (k !in after ==> a.DeleteInstance? || a.RemoveFinalizer? || a.EditInstance?)
  }

  lemma CommitIsRespectful(w: World, a: Action)
    requires Versioned(w) && Enabled(w, a) && Commits(w, a)
    ensures Respectful(w.instances.objects, Written(w, a).objects, a, Target(a))
  {
    var k := Target(a);
    WritesAreAtomic(w, a);
    EffectIsRespectful(w, w.instances.objects[k], a);
    assert Copy(k, w.instances.objects[k]) in w.past;
  }

  /** The same of the one object that is replaced. */
  lemma EffectIsRespectful(w: World, o: Instance, a: Action)
    requires WritesExisting(a) && AtomicGuard(w, o, a)
    ensures var n := AtomicEffect(w, o, a); RespectfulAt(o, n, a) && n.uid == o.uid
    ensures !a.DeleteInstance? && !a.RemoveFinalizer? && !a.EditInstance? ==>
      AtomicEffect(w, o, a).deletedAt == o.deletedAt && o.finalizers <= AtomicEffect(w, o, a).finalizers
  {
  }

  /**
   Non-interference over every run, with no hypothesis on reads or recreation: a committed claim
   lands on an unclaimed Instance, a committed release removes the releasing pool's own claim,
   neither discovery nor the clearing of what a former cluster recorded lands on a claimed one, a
   cluster's teardown clears and releases only what the pool it listed still holds, and a claim
   passes from one pool to another only through an unclaimed version.
   */
  lemma NoInterference(w: World, actions: seq<Action>, a: Action)
    requires Initial(w) && IsRun(w, actions)
    requires Enabled(After(w, actions), a) && Commits(After(w, actions), a)
    ensures Respectful(After(w, actions).instances.objects, Apply(After(w, actions), a).instances.objects, a, Target(a))
  {
    HistoryRun(w, actions);
    CommitIsRespectful(After(w, actions), a);
  }

  // ----- reset before disappearance

  /** The reset finalizer of the Instance at `k` does not survive the action. */
  ghost predicate LosesReset(before: map<Key, Instance>, after: map<Key, Instance>, k: Key) {
    && k in before && InstanceResetFinalizer in before[k].finalizers
    && !(k in after && after[k].uid == before[k].uid && InstanceResetFinalizer in after[k].finalizers)
  }

  /** A version of the Instance at or after this one was not claimed. */
  ghost predicate FreeSince(past: set<InstanceCopy>, o: Instance) {
    exists d :: d in past && d.obj.uid == o.uid && d.obj.version >= o.version && ClaimedBy(d.obj).None?
  }

  /**
   Configured is a latch as well, as long as the Instance stays claimed: a later version without it
   comes after a release or after a successful reset.
   */
  ghost predicate ConfiguredKept(past: set<InstanceCopy>, log: seq<Event>) {
    forall c, d :: c in past && d in past && WasMember(c.obj, d.obj) ==> Kept(past, log, c.obj, d.obj)
  }

  /** `d` is a later version of an Instance that was claimed and Configured at `c`. */
  predicate WasMember(c: Instance, d: Instance) {
    c.uid == d.uid && c.version <= d.version && ClaimedBy(c).Some? && IsConfigured(c)
  }

  ghost predicate Kept(past: set<InstanceCopy>, log: seq<Event>, c: Instance, d: Instance) {
    IsConfigured(d) || FreeSince(past, c) || ResetSince(log, c)
  }

  lemma KeptGrows(past: set<InstanceCopy>, log: seq<Event>, past': set<InstanceCopy>, log': seq<Event>, c: Instance,
          d: Instance)
    requires past <= past' && log <= log' && Kept(past, log, c, d)
    ensures Kept(past', log', c, d)
  {
    if ResetSince(log, c) {
      var e :| e in log && e.ResetIssued? && e.succeeded && e.copy.obj.uid == c.uid && e.copy.obj.version >= c.version;
      assert e in log';
    }
  }

  /** What was kept up to `o` is kept by a successor that drops Configured only if free or reset. */
  lemma KeptOnwards(past: set<InstanceCopy>, log: seq<Event>, c: Instance, o: InstanceCopy, o': Instance)
    requires o in past && WasMember(c, o.obj) && Kept(past, log, c, o.obj) && o'.uid == o.obj.uid
    requires ClaimedBy(o.obj).Some? && IsConfigured(o.obj) && !IsConfigured(o') ==> ResetSince(log, o.obj)
    ensures Kept(past, log, c, o')
  {
    if IsConfigured(o.obj) && !IsConfigured(o') {
      if ClaimedBy(o.obj).None? {
        assert FreeSince(past, c);
      } else {
        var e :| e in log && e.ResetIssued? && e.succeeded && e.copy.obj.uid == o.obj.uid &&
          e.copy.obj.version >= o.obj.version;
        assert ResetSince(log, c);
      }
    }
  }

  /** Adding one version of an Instance keeps the latch. */
  lemma NewVersionKept(w: World, w': World, k: Key, o': Instance)
    requires Versioned(w) && ConfiguredKept(w.past, w.log)
    requires w'.past == w.past + {Copy(k, o')} && w.log <= w'.log && o'.version == w.instances.next
    requires o'.uid == w.instances.next || (k in w.instances.objects && o'.uid == w.instances.objects[k].uid)
    requires o'.uid != w.instances.next ==>
      var o := w.instances.objects[k];
      ClaimedBy(o).Some? && IsConfigured(o) && !IsConfigured(o') ==> ResetSince(w.log, o)
    ensures ConfiguredKept(w'.past, w'.log)
  {
    forall c, d | c in w'.past && d in w'.past && WasMember(c.obj, d.obj) ensures Kept(w'.past, w'.log, c.obj, d.obj) {
      if d in w.past {
        assert c in w.past;
        KeptGrows(w.past, w.log, w'.past, w'.log, c.obj, d.obj);
      } else if c in w.past {
        var o := Copy(k, w.instances.objects[k]);
        assert o in w.past && c.key == k && WasMember(c.obj, o.obj);
        KeptOnwards(w.past, w.log, c.obj, o, o');
        KeptGrows(w.past, w.log, w'.past, w'.log, c.obj, o');
      }
    }
  }

  lemma ConfiguredKeptStep(w: World, a: Action)
    requires History(w) && ConfiguredKept(w.past, w.log) && Enabled(w, a)
    ensures ConfiguredKept(Apply(w, a).past, Apply(w, a).log)
  {
    StepAdds(w, a);
    var k, w' := Target(a), Apply(w, a);
    if w'.past == w.past {
      forall c, d | c in w.past && d in w.past && WasMember(c.obj, d.obj) ensures Kept(w'.past, w'.log, c.obj, d.obj) {
        KeptGrows(w.past, w.log, w'.past, w'.log, c.obj, d.obj);
      }
    } else {
      if !a.CreateInstance? { EffectKeepsLatches(w, w.instances.objects[k], a); }
      NewVersionKept(w, w', k, w'.instances.objects[k]);
    }
  }

  lemma {:induction false} ConfiguredKeptRun(w: World, actions: seq<Action>)
    requires History(w) && ConfiguredKept(w.past, w.log) && IsRun(w, actions)
    ensures ConfiguredKept(After(w, actions).past, After(w, actions).log)
    decreases |actions|
  {
    if actions != [] {
      HistoryStep(w, actions[0]);
      ConfiguredKeptStep(w, actions[0]);
      ConfiguredKeptRun(Apply(w, actions[0]), actions[1..]);
    }
  }

  /** Since its deletion, a List of the clusters found none that references the pool that holds it. */
  ghost predicate LostOwner(w: World, c: Instance, o: Instance) {
    o.deletedAt.Some? && ClaimedBy(o).Some? &&
    (exists e :: e in w.log && e.NoOwner? && e.copy.obj.uid == o.uid && e.copy.obj.version >= c.version &&
       e.at >= o.deletedAt.value && !Owned(e.clusters, e.copy.key.namespace, ClaimedBy(o).value))
  }

  /** A reset of the Instance since `c` succeeded: by its cluster's teardown, or after its deletion time. */
  ghost predicate WasReset(w: World, c: Instance, o: Instance) {
    o.deletedAt.Some? &&
    (exists e :: e in w.log && e.ResetIssued? && e.succeeded && e.copy.obj.uid == c.uid &&
       e.copy.obj.version >= c.version && (e.teardown || e.at >= o.deletedAt.value))
  }

  /** Why a deleting Instance that was claimed and Configured at `c` may lose its reset finalizer at `o`. */
  ghost predicate MayGo(w: World, c: Instance, o: Instance) {
    && o.deletedAt.Some?
    && (WasReset(w, c, o) || FreeSince(w.past, c) || LostOwner(w, c, o) || w.now > o.deletedAt.value + ResetTimeout)
  }

  /** Only removeFinalizer takes the reset finalizer, and only from the object it read. */
  lemma OnlyRemovalLosesReset(w: World, a: Action, k: Key)
    requires Versioned(w) && Enabled(w, a) && LosesReset(w.instances.objects, Written(w, a).objects, k)
    ensures a.RemoveFinalizer? && a.copy == Copy(k, w.instances.objects[k])
  {
    WritesAreAtomic(w, a);
  }

  /** What removeFinalizer was reached for, said of the object it writes. */
  lemma RemovalIsJustified(w: World, a: Action)
    requires Truthful(w) && Enabled(w, a) && a.RemoveFinalizer?
    ensures ClaimedBy(a.copy.obj).None? || !IsConfigured(a.copy.obj) || MayGo(w, a.copy.obj, a.copy.obj)
  {
    if a.why.Ownerless? {
      var e :| e in w.log && e.NoOwner? && e.copy == a.copy;
    } else if a.why.ResetDone? {
      var e :| e in w.log && e.ResetIssued? && e.copy == a.copy && e.succeeded;
    }
  }

  /** A ground that holds of the last version holds since every earlier one. */
  lemma GroundsReachBack(w: World, c: Instance, o: Instance)
    requires c.uid == o.uid && c.version <= o.version && MayGo(w, o, o)
    ensures MayGo(w, c, o)
  {
    if WasReset(w, o, o) {
      assert WasReset(w, c, o);
    } else if LostOwner(w, o, o) {
      assert LostOwner(w, c, o);
    }
  }

  /** A reset found by the latch is a reset in time. */
  lemma ResetInTime(w: World, c: Instance, o: InstanceCopy)
    requires History(w) && o in w.past && o.obj.deletedAt.Some? && c.uid == o.obj.uid && ResetSince(w.log, c)
    requires o.key in w.instances.objects && w.instances.objects[o.key] == o.obj
    ensures WasReset(w, c, o.obj)
  {
    var e :| e in w.log && e.ResetIssued? && e.succeeded && e.copy.obj.uid == c.uid && e.copy.obj.version >= c.version;
    assert e.copy in w.past && e.copy.key == o.key && e.copy.obj.version <= o.obj.version;
  }

  /** The object a removal writes, against any version at which it was claimed and Configured. */
  lemma RemovalSince(w: World, a: Action, c: InstanceCopy)
    requires History(w) && ConfiguredKept(w.past, w.log) && Enabled(w, a) && a.RemoveFinalizer?
    requires a.copy.key in w.instances.objects && w.instances.objects[a.copy.key] == a.copy.obj
    requires c in w.past && WasMember(c.obj, a.copy.obj)
    ensures MayGo(w, c.obj, a.copy.obj)
  {
    var o := a.copy.obj;
    RemovalIsJustified(w, a);
    assert Kept(w.past, w.log, c.obj, o);
    if ClaimedBy(o).None? {
      assert FreeSince(w.past, c.obj);
    } else if IsConfigured(o) {
      GroundsReachBack(w, c.obj, o);
    } else if ResetSince(w.log, c.obj) {
      ResetInTime(w, c.obj, a.copy);
    }
  }

  /**
   Over every run: an Instance that was claimed and Configured at some version loses the reset
   finalizer, and so leaves the store, only if since that version a reset of it succeeded, by the
   teardown of its cluster or after its deletion, or it was released, or its owning cluster was
   gone, or if the timeout has passed.
   */
  lemma ResetBeforeDisappearance(w: World, actions: seq<Action>, a: Action, k: Key, c: InstanceCopy)
    requires Initial(w) && IsRun(w, actions) && Enabled(After(w, actions), a)
    requires LosesReset(After(w, actions).instances.objects, Apply(After(w, actions), a).instances.objects, k)
    requires c in After(w, actions).past && c.obj.uid == After(w, actions).instances.objects[k].uid
    requires ClaimedBy(c.obj).Some? && IsConfigured(c.obj)
    ensures MayGo(After(w, actions), c.obj, After(w, actions).instances.objects[k])
  {
    HistoryRun(w, actions);
    ConfiguredKeptRun(w, actions);
    var v := After(w, actions);
    OnlyRemovalLosesReset(v, a, k);
    StoredIsLatest(v, k, c);
    RemovalSince(v, a, c);
  }

  lemma StoredIsLatest(w: World, k: Key, c: InstanceCopy)
    requires Versioned(w) && k in w.instances.objects && c in w.past && c.obj.uid == w.instances.objects[k].uid
    ensures c.key == k && c.obj.version <= w.instances.objects[k].version
  {
    assert Copy(k, w.instances.objects[k]) in w.past;
  }
}
