/**
 Bootstrapping one TalosCluster: one secrets bundle, control plane before workers.

 The zone lease lets one reconcile run at a time; it may crash between any two API calls, and
 users may edit the spec between any two.  The cluster is not deleted and nobody else touches
 its Secret.
 */
module Bootstrap {
  import opened ApiStore

  type Bundle = nat

  datatype Spec = Spec(controlPlane: string, workers: seq<string>)

  /** What the ControlPlaneReady condition says: status, reason and message together. */
  datatype Health = Unset | WaitingForInstances | WaitingForApiServer | WaitingForHealth | Healthy

  datatype Status = Status(secretRef: bool, controlPlane: Health, ready: Option<bool>, bootstrapped: bool)

  datatype Cluster = Cluster(version: nat, finalizer: bool, spec: Spec, status: Status)

  datatype Secret = Secret(bundle: Bundle, kubeconfig: Option<string>)

  // ----- the secrets bundle

  /** ensureSecretsBundle: the Secret afterwards and the bundle, or None for an error. */
  function EnsureBundle(secret: Option<Secret>, secretRef: bool, generated: Bundle): (Option<Secret>, Option<Bundle>) {
    if secretRef then
      (secret, if secret.Some? then Some(secret.value.bundle) else None)
    else if secret.Some? then (secret, None)
    else (Some(Secret(generated, None)), Some(generated))
  }

  /** storeKubeconfig adds to the Secret, if there is one, and keeps the bundle. */
  function WithKubeconfig(secret: Option<Secret>, kubeconfig: string): Option<Secret> {
    if secret.Some? then Some(secret.value.(kubeconfig := Some(kubeconfig))) else None
  }

  class SecretClient {
    var secret: Option<Secret>

    method LoadSecretsBundle() returns (bundle: Option<Bundle>)
      ensures bundle == if secret.Some? then Some(secret.value.bundle) else None
    {
      if secret.None? {
        return None;
      }
      bundle := Some(secret.value.bundle);
    }

    /** Creates the Secret once; a recorded reference must resolve, never regenerate. */
    method EnsureSecretsBundle(status: Status, generated: Bundle) returns (bundle: Option<Bundle>, status': Status)
      modifies this
      ensures (secret, bundle) == EnsureBundle(old(secret), status.secretRef, generated)
      ensures status' == if bundle.Some? then status.(secretRef := true) else status
      ensures bundle.Some? ==> secret.Some? && secret.value.bundle == bundle.value
      ensures old(secret).Some? ==> secret == old(secret)
    {
      status' := status;
      if status.secretRef {
        bundle := LoadSecretsBundle();
        return;
      }
      if secret.Some? {
        return None, status';
      }
      secret := Some(Secret(generated, None));
      bundle := Some(generated);
      status' := status.(secretRef := true);
    }

    method StoreKubeconfig(kubeconfig: string) returns (ok: bool)
      modifies this
      ensures ok <==> old(secret).Some?
      ensures secret == WithKubeconfig(old(secret), kubeconfig)
      ensures ok ==> secret == Some(Secret(old(secret).value.bundle, Some(kubeconfig)))
      ensures !ok ==> secret == old(secret)
    {
      if secret.None? {
        return false;
      }
      secret := Some(secret.value.(kubeconfig := Some(kubeconfig)));
      ok := true;
    }
  }

  // ----- the reconcile, step by step

  datatype Role = ControlPlane | Worker
  datatype Member = Member(pool: string, name: string)

  /** One machine configuration sent to a node, and what was persisted at that moment. */
  datatype Applied = Applied(role: Role, member: Member, bundle: Bundle, spec: Spec, readyThen: bool)

  datatype Phase =
    | Idle
    | Fetched(copy: Cluster)
    | Bundled(copy: Cluster, bundle: Bundle)
    | Applying(copy: Cluster, bundle: Bundle, todo: seq<Member>)
    | Checking(copy: Cluster, bundle: Bundle)
    | Working(copy: Cluster, bundle: Bundle, todo: seq<Member>)

  /** `log` holds the configurations sent, `bootstraps` the Bootstrap calls and whether each succeeded. */
  datatype World = World(cluster: Cluster, secret: Option<Secret>, phase: Phase, log: seq<Applied>,
    bootstraps: seq<bool>)

  datatype Action =
    | Edit(spec: Spec)
    | Fetch
    | WriteFinalizer
    | TakeBundle(generated: Bundle)
    | NoMembers
    | ListControlPlane(members: seq<Member>)
    | ApplyControlPlane
    | CallBootstrap(ok: bool)
    | SkipBootstrap
    | SaveKubeconfig(kubeconfig: string)
    | WriteReady(ready: bool, changed: bool)
    | WriteControlPlane(health: Health)
    | EnterWorkers
    | ListWorkers(members: seq<Member>)
    | ApplyWorker
    | Finish
    | Crash

  predicate IsReady(s: Status) { s.controlPlane.Healthy? }

  /** The pools of a cluster do not overlap. */
  predicate Disjoint(spec: Spec) { spec.controlPlane !in spec.workers }

  predicate Enabled(w: World, a: Action) {
    match a
    case Edit(spec) => Disjoint(spec)
    case Fetch => w.phase.Idle?
    case WriteFinalizer => w.phase.Fetched? && !w.phase.copy.finalizer
    case TakeBundle(_) => w.phase.Fetched? && w.phase.copy.finalizer
    case NoMembers => w.phase.Bundled? && !IsReady(w.phase.copy.status)
    case ListControlPlane(members) =>
      && w.phase.Bundled? && !IsReady(w.phase.copy.status) && members != []
      && forall m :: m in members ==> m.pool == w.phase.copy.spec.controlPlane
    case ApplyControlPlane => w.phase.Applying? && w.phase.todo != []
    case CallBootstrap(_) => w.phase.Applying? && w.phase.todo == [] && !w.phase.copy.status.bootstrapped
    case SkipBootstrap => w.phase.Applying? && w.phase.todo == [] && w.phase.copy.status.bootstrapped
    case SaveKubeconfig(_) => w.phase.Checking?
    case WriteReady(ready, changed) =>
      (w.phase.Checking? || w.phase.Working?) && (w.phase.copy.status.ready != Some(ready) ==> changed)
    case WriteControlPlane(health) => w.phase.Checking? && !health.Unset? && !health.WaitingForInstances?
    case EnterWorkers => w.phase.Bundled? && IsReady(w.phase.copy.status)
    case ListWorkers(members) =>
      w.phase.Working? && w.phase.todo == [] && forall m :: m in members ==> m.pool in w.phase.copy.spec.workers
    case ApplyWorker => w.phase.Working? && w.phase.todo != []
    case Finish => true
    case Crash => true
  }

  /** Status().Update: the whole status in memory replaces the stored one, if the version matches. */
  function WriteStatus(c: Cluster, copy: Cluster): Cluster {
    if c.version == copy.version then c.(status := copy.status, version := c.version + 1) else c
  }

  /** setControlPlaneCondition and persistStatus: no write unless the condition changes. */
  function Persisted(c: Cluster, copy: Cluster, health: Health): Cluster {
    if copy.status.controlPlane == health then c
    else WriteStatus(c, copy.(status := copy.status.(controlPlane := health)))
  }

  function Apply(w: World, a: Action): World
    requires Enabled(w, a)
  {
    match a
    case Edit(spec) => w.(cluster := w.cluster.(spec := spec, version := w.cluster.version + 1))
    case Fetch => w.(phase := Fetched(w.cluster))
    case WriteFinalizer =>
      if w.cluster.version != w.phase.copy.version then w.(phase := Idle)
      else
        var c := w.cluster.(finalizer := true, version := w.cluster.version + 1);
        w.(cluster := c, phase := Fetched(c))
    case TakeBundle(generated) =>
      var copy := w.phase.copy;
      var r := EnsureBundle(w.secret, copy.status.secretRef, generated);
      if r.1.None? then w.(secret := r.0, phase := Idle)
      else w.(secret := r.0, phase := Bundled(copy.(status := copy.status.(secretRef := true)), r.1.value))
    case NoMembers => w.(cluster := Persisted(w.cluster, w.phase.copy, WaitingForInstances), phase := Idle)
    case ListControlPlane(members) => w.(phase := Applying(w.phase.copy, w.phase.bundle, members))
    case ApplyControlPlane =>
      var sent := Applied(ControlPlane, w.phase.todo[0], w.phase.bundle, w.phase.copy.spec, IsReady(w.cluster.status));
      w.(log := w.log + [sent],
         phase := Applying(w.phase.copy, w.phase.bundle, w.phase.todo[1..]))
    case CallBootstrap(ok) =>
      w.(bootstraps := w.bootstraps + [ok],
         phase := Checking(w.phase.copy.(status := w.phase.copy.status.(bootstrapped := ok)), w.phase.bundle))
    case SkipBootstrap => w.(phase := Checking(w.phase.copy, w.phase.bundle))
    case SaveKubeconfig(kubeconfig) => w.(secret := WithKubeconfig(w.secret, kubeconfig))
    case WriteReady(ready, changed) =>
      var copy := w.phase.copy.(status := w.phase.copy.status.(ready := Some(ready)));
      if !changed then w
      else if w.cluster.version != copy.version then w.(phase := Idle)
      else
        var c := WriteStatus(w.cluster, copy);
        var on := if w.phase.Checking? then Checking(c, w.phase.bundle) else Working(c, w.phase.bundle, w.phase.todo);
        w.(cluster := c, phase := on)
    case WriteControlPlane(health) => w.(cluster := Persisted(w.cluster, w.phase.copy, health), phase := Idle)
    case EnterWorkers => w.(phase := Working(w.phase.copy, w.phase.bundle, []))
    case ListWorkers(members) => w.(phase := Working(w.phase.copy, w.phase.bundle, members))
    case ApplyWorker =>
      var sent := Applied(Worker, w.phase.todo[0], w.phase.bundle, w.phase.copy.spec, IsReady(w.cluster.status));
      w.(log := w.log + [sent],
         phase := Working(w.phase.copy, w.phase.bundle, w.phase.todo[1..]))
    case Finish => w.(phase := Idle)
    case Crash => w.(phase := Idle)
  }

  // ----- invariant

  /** The copy in memory is ahead of the stored cluster only by what this reconcile did. */
  predicate CopySound(c: Cluster, copy: Cluster) {
    && Disjoint(copy.spec)
    && copy.version <= c.version && (copy.version == c.version ==> copy.spec == c.spec && copy.finalizer == c.finalizer)
    && copy.status.controlPlane == c.status.controlPlane
    && (c.status.secretRef ==> copy.status.secretRef)
    && (c.status.bootstrapped ==> copy.status.bootstrapped)
  }

  /** What a reconcile in flight may rely on. */
  predicate PhaseSound(w: World) {
    w.phase.Idle? || (
      && CopySound(w.cluster, w.phase.copy)
      && (w.phase.Fetched? ==> w.phase.copy.status == w.cluster.status)
      && (!w.phase.Fetched? ==>
            w.phase.copy.status.secretRef && w.secret.Some? && w.secret.value.bundle == w.phase.bundle)
      && (w.phase.Applying? || w.phase.Checking? ==> !IsReady(w.cluster.status))
      && (w.phase.Applying? ==> forall m :: m in w.phase.todo ==> m.pool == w.phase.copy.spec.controlPlane)
      && (w.phase.Working? ==>
            IsReady(w.cluster.status) && forall m :: m in w.phase.todo ==> m.pool in w.phase.copy.spec.workers))
  }

  /** A recorded reference resolves, and nothing is recorded without it. */
  predicate StoreSound(w: World) {
    && Disjoint(w.cluster.spec)
    && (w.cluster.status.secretRef ==> w.secret.Some?)
    && (IsReady(w.cluster.status) ==> w.cluster.status.secretRef)
  }

  /** Every configuration ever sent was sent in order and under the one bundle. */
  predicate LogSound(w: World) {
    forall e :: e in w.log ==>
      && w.secret.Some? && e.bundle == w.secret.value.bundle
      && Disjoint(e.spec)
      && match e.role
         case ControlPlane => !e.readyThen && e.member.pool == e.spec.controlPlane
         case Worker => e.readyThen && e.member.pool in e.spec.workers
  }

  predicate Invariant(w: World) {
    StoreSound(w) && PhaseSound(w) && LogSound(w)
  }

  /** Nothing that happens takes away readiness, the bundle, or what was recorded and sent. */
  lemma Monotone(w: World, a: Action)
    requires PhaseSound(w) && Enabled(w, a)
    ensures IsReady(w.cluster.status) ==> IsReady(Apply(w, a).cluster.status)
    ensures w.cluster.status.secretRef ==> Apply(w, a).cluster.status.secretRef
    ensures w.cluster.status.bootstrapped ==> Apply(w, a).cluster.status.bootstrapped
    ensures w.secret.Some? ==> Apply(w, a).secret.Some? && Apply(w, a).secret.value.bundle == w.secret.value.bundle
    ensures w.log <= Apply(w, a).log
  {
  }

  lemma PhaseStep(w: World, a: Action)
    requires StoreSound(w) && PhaseSound(w) && Enabled(w, a)
    ensures StoreSound(Apply(w, a)) && PhaseSound(Apply(w, a))
  {
  }

  /** Only the two apply steps send anything, and what they send is in order. */
  lemma LogStep(w: World, a: Action)
    requires PhaseSound(w) && LogSound(w) && Enabled(w, a)
    ensures LogSound(Apply(w, a))
  {
    Monotone(w, a);
    if a.ApplyControlPlane? || a.ApplyWorker? {
      assert w.phase.todo[0] in w.phase.todo;
    } else {
      assert Apply(w, a).log == w.log;
    }
  }

  lemma InvariantStep(w: World, a: Action)
    requires Invariant(w) && Enabled(w, a)
    ensures Invariant(Apply(w, a))
    ensures IsReady(w.cluster.status) ==> IsReady(Apply(w, a).cluster.status)
    ensures w.log <= Apply(w, a).log
  {
    Monotone(w, a);
    PhaseStep(w, a);
    LogStep(w, a);
  }

  // ----- every run

  predicate IsRun(w: World, actions: seq<Action>)
    decreases |actions|
  {
    actions == [] || (Enabled(w, actions[0]) && IsRun(Apply(w, actions[0]), actions[1..]))
  }

  function After(w: World, actions: seq<Action>): World
    requires IsRun(w, actions)
    decreases |actions|
  {
    if actions == [] then w else After(Apply(w, actions[0]), actions[1..])
  }

  /** A cluster nobody has reconciled yet. */
  predicate Initial(w: World) {
    && w.phase.Idle? && w.log == [] && w.bootstraps == [] && w.secret.None?
    && Disjoint(w.cluster.spec) && w.cluster.status == Status(false, Unset, None, false)
  }

  lemma {:induction false} InvariantRun(w: World, actions: seq<Action>)
    requires Invariant(w) && IsRun(w, actions)
    ensures Invariant(After(w, actions)) && w.log <= After(w, actions).log
    ensures IsReady(w.cluster.status) ==> IsReady(After(w, actions).cluster.status)
    decreases |actions|
  {
    if actions != [] {
      InvariantStep(w, actions[0]);
      InvariantRun(Apply(w, actions[0]), actions[1..]);
    }
  }

  /** Workers are configured only while ControlPlaneReady is persisted, control-plane members only before. */
  lemma ControlPlaneFirst(w: World, actions: seq<Action>, e: Applied)
    requires Initial(w) && IsRun(w, actions) && e in After(w, actions).log
    ensures e.role == Worker <==> e.readyThen
    ensures e.role == Worker ==> e.member.pool != e.spec.controlPlane
    ensures e.role == ControlPlane ==> e.member.pool == e.spec.controlPlane
  {
    InvariantRun(w, actions);
  }

  /** A spec a reconcile may work from: the stored one, that of the copy in flight, or an edit to come. */
  predicate InForce(w: World, actions: seq<Action>, spec: Spec) {
    spec == w.cluster.spec || (!w.phase.Idle? && spec == w.phase.copy.spec) || Edit(spec) in actions
  }

  /**
   Once persisted, ControlPlaneReady stays, and whatever is sent afterwards is a worker's
   configuration and goes to a worker pool of a spec in force since.
   */
  lemma ReadyIsForever(w: World, before: seq<Action>, after: seq<Action>, e: Applied)
    requires Initial(w) && IsRun(w, before) && IsReady(After(w, before).cluster.status)
    requires IsRun(After(w, before), after)
    ensures IsReady(After(After(w, before), after).cluster.status)
    ensures After(w, before).log <= After(After(w, before), after).log
    ensures e in After(After(w, before), after).log[|After(w, before).log|..] ==>
      e.role == Worker && e.member.pool in e.spec.workers && InForce(After(w, before), after, e.spec)
  {
    InvariantRun(w, before);
    InvariantRun(After(w, before), after);
    OnlyWorkersFrom(After(w, before), after, e);
  }

  /** So as long as no spec in force makes it a worker pool, no member of a pool is configured again. */
  lemma FormerControlPlaneIsSpared(w: World, before: seq<Action>, after: seq<Action>, e: Applied, pool: string)
    requires Initial(w) && IsRun(w, before) && IsReady(After(w, before).cluster.status)
    requires IsRun(After(w, before), after)
    requires forall spec :: InForce(After(w, before), after, spec) ==> pool !in spec.workers
    ensures After(w, before).log <= After(After(w, before), after).log
    ensures e in After(After(w, before), after).log[|After(w, before).log|..] ==> e.member.pool != pool
  {
    ReadyIsForever(w, before, after, e);
  }

  lemma SentWhileReady(w: World, a: Action, e: Applied)
    requires PhaseSound(w) && Enabled(w, a) && IsReady(w.cluster.status)
    ensures w.log <= Apply(w, a).log
    ensures e in Apply(w, a).log[|w.log|..] ==>
      e.role == Worker && e.member.pool in e.spec.workers && !w.phase.Idle? && e.spec == w.phase.copy.spec
  {
    if a.ApplyWorker? { assert w.phase.todo[0] in w.phase.todo; }
  }

  /** What is in force after a step was in force before it. */
  lemma InForceEarlier(w: World, actions: seq<Action>, spec: Spec)
    requires PhaseSound(w) && IsRun(w, actions) && actions != []
    requires InForce(Apply(w, actions[0]), actions[1..], spec)
    ensures InForce(w, actions, spec)
  {
    assert actions == [actions[0]] + actions[1..];
    if actions[0].Edit? { assert actions[0] == Edit(actions[0].spec); }
  }

  lemma {:induction false} OnlyWorkersFrom(w: World, actions: seq<Action>, e: Applied)
    requires Invariant(w) && IsReady(w.cluster.status) && IsRun(w, actions)
    ensures w.log <= After(w, actions).log
    ensures e in After(w, actions).log[|w.log|..] ==>
      e.role == Worker && e.member.pool in e.spec.workers && InForce(w, actions, e.spec)
    decreases |actions|
  {
    if actions != [] {
      var w' := Apply(w, actions[0]);
      InvariantStep(w, actions[0]);
      SentWhileReady(w, actions[0], e);
      OnlyWorkersFrom(w', actions[1..], e);
      SuffixSplit(w.log, w'.log, After(w', actions[1..]).log, e);
      if InForce(w', actions[1..], e.spec) { InForceEarlier(w, actions, e.spec); }
    }
  }

  lemma SuffixSplit(a: seq<Applied>, b: seq<Applied>, c: seq<Applied>, e: Applied)
    requires a <= b <= c
    ensures a <= c && (e in c[|a|..] ==> e in b[|a|..] || e in c[|b|..])
  {
    assert c[|a|..] == b[|a|..] + c[|b|..];
  }

  /** Every configuration of every run is generated from one and the same bundle. */
  lemma OneBundle(w: World, actions: seq<Action>, e: Applied, e': Applied)
    requires Initial(w) && IsRun(w, actions) && e in After(w, actions).log && e' in After(w, actions).log
    ensures e.bundle == e'.bundle
  {
    InvariantRun(w, actions);
  }

  // ----- putting runs together

  lemma Prepend(w: World, a: Action, rest: seq<Action>)
    requires Enabled(w, a) && IsRun(Apply(w, a), rest)
    ensures IsRun(w, [a] + rest) && After(w, [a] + rest) == After(Apply(w, a), rest)
  {
    assert ([a] + rest)[1..] == rest;
  }

  lemma {:induction false} Append(w: World, xs: seq<Action>, ys: seq<Action>)
    requires IsRun(w, xs) && IsRun(After(w, xs), ys)
    ensures IsRun(w, xs + ys) && After(w, xs + ys) == After(After(w, xs), ys)
    decreases |xs|
  {
    if xs == [] {
      assert xs + ys == ys;
    } else {
      Append(Apply(w, xs[0]), xs[1..], ys);
      assert (xs + ys)[1..] == xs[1..] + ys;
    }
  }

  /** One more step at the end of a run. */
  lemma Extend(w: World, xs: seq<Action>, a: Action)
    requires IsRun(w, xs) && Enabled(After(w, xs), a)
    ensures IsRun(w, xs + [a]) && After(w, xs + [a]) == Apply(After(w, xs), a)
  {
    assert [a] + [] == [a];
    Prepend(After(w, xs), a, []);
    Append(w, xs, [a]);
  }

  // ----- the bundle is safe but not live

  /** A Secret without a recorded reference, and nobody left to record it. */
  predicate Orphaned(w: World) {
    w.secret.Some? && !w.cluster.status.secretRef && (w.phase.Idle? || w.phase.Fetched?)
  }

  /** The reconcile that created the Secret has not recorded the reference yet. */
  predicate Unrecorded(w: World) {
    !w.phase.Idle? && !w.phase.Fetched? && !w.cluster.status.secretRef
  }

  /** The action ends the reconcile without a status write: by a crash or an error, a conflict, or nothing to write. */
  predicate EndsUnwritten(w: World, a: Action)
    requires Enabled(w, a)
  {
    match a
    case Finish => true
    case Crash => true
    case NoMembers => w.phase.copy.status.controlPlane.WaitingForInstances? || w.phase.copy.version != w.cluster.version
    case WriteControlPlane(health) =>
      w.phase.copy.status.controlPlane == health || w.phase.copy.version != w.cluster.version
    case WriteReady(_, changed) => changed && w.phase.copy.version != w.cluster.version
    case _ => false
  }

  /** Exactly which steps orphan the Secret. */
  lemma OrphanedIff(w: World, a: Action)
    requires Invariant(w) && Enabled(w, a) && !Orphaned(w)
    ensures Orphaned(Apply(w, a)) <==> Unrecorded(w) && EndsUnwritten(w, a)
  {
  }

  /** An orphaned Secret blocks the cluster for good: nothing is ever sent, Bootstrap is never called. */
  lemma {:induction false} OrphanedSecretBlocks(w: World, actions: seq<Action>)
    requires Invariant(w) && Orphaned(w) && IsRun(w, actions)
    ensures Orphaned(After(w, actions)) && After(w, actions).log == w.log
    ensures After(w, actions).bootstraps == w.bootstraps
    decreases |actions|
  {
    if actions != [] {
      InvariantStep(w, actions[0]);
      OrphanedSecretBlocks(Apply(w, actions[0]), actions[1..]);
    }
  }

  /** From an idle cluster that is not orphaned, a reconcile gets its bundle. */
  lemma BundleIsTaken(w: World) returns (actions: seq<Action>)
    requires Invariant(w) && w.phase.Idle? && !Orphaned(w)
    ensures IsRun(w, actions) && Bundles(w, After(w, actions))
    ensures forall a :: a in actions ==> a.Fetch? || a.WriteFinalizer? || a.TakeBundle?
  {
    actions := [Fetch];
    Extend(w, [], Fetch);
    assert [] + [Fetch] == [Fetch];
    if !w.cluster.finalizer {
      Extend(w, actions, WriteFinalizer);
      actions := actions + [WriteFinalizer];
    }
    Extend(w, actions, TakeBundle(0));
    actions := actions + [TakeBundle(0)];
  }

  /** `v` is `w` with a reconcile that has its bundle and a current copy. */
  predicate Bundles(w: World, v: World) {
    && v.phase.Bundled? && v.log == w.log && v.bootstraps == w.bootstraps && v.cluster.finalizer
    && v.cluster.spec == w.cluster.spec && v.cluster.status == w.cluster.status
    && v.phase.copy == v.cluster.(status := v.cluster.status.(secretRef := true))
    && (w.secret.Some? ==> v.secret == w.secret)
    && (w.cluster.finalizer ==> v.cluster == w.cluster)
  }

  /** A crash right after the Secret is created orphans it, from every fresh cluster. */
  lemma CrashOrphans(w: World) returns (actions: seq<Action>)
    requires Initial(w)
    ensures IsRun(w, actions) && Orphaned(After(w, actions))
  {
    actions := BundleIsTaken(w);
    InvariantRun(w, actions);
    Extend(w, actions, Crash);
    actions := actions + [Crash];
  }

  /** No crash is needed: an edit of the spec in between makes the status write conflict. */
  lemma ConflictOrphans(w: World, spec: Spec) returns (actions: seq<Action>)
    requires Initial(w) && Disjoint(spec)
    ensures IsRun(w, actions) && Orphaned(After(w, actions)) && Crash !in actions && Finish !in actions
  {
    var bundled := BundleIsTaken(w);
    InvariantRun(w, bundled);
    Extend(w, bundled, Edit(spec));
    Extend(w, bundled + [Edit(spec)], NoMembers);
    actions := bundled + [Edit(spec)] + [NoMembers];
  }

  /** One configuration is sent to the control plane, or, once that is ready, to a worker. */
  lemma SomethingIsSent(w: World) returns (actions: seq<Action>)
    requires Invariant(w) && w.phase.Idle? && !Orphaned(w)
    requires (IsReady(w.cluster.status) ==> w.cluster.spec.workers != [])
    ensures IsRun(w, actions) && |After(w, actions).log| == |w.log| + 1 && forall a :: a in actions ==> !a.Edit?
    ensures IsReady(w.cluster.status) ==>
      var sent := After(w, actions).log[|w.log|];
      sent.role == Worker && sent.member.pool == w.cluster.spec.workers[0]
  {
    actions := BundleIsTaken(w);
    if IsReady(w.cluster.status) {
      var list := ListWorkers([Member(w.cluster.spec.workers[0], "worker")]);
      Extend(w, actions, EnterWorkers);
      Extend(w, actions + [EnterWorkers], list);
      Extend(w, actions + [EnterWorkers] + [list], ApplyWorker);
      actions := actions + [EnterWorkers] + [list] + [ApplyWorker];
    } else {
      actions := ControlPlaneIsApplied(w, actions);
    }
  }

  /** From its bundle on, a reconcile of an unready cluster applies the configuration of its one member. */
  lemma ControlPlaneIsApplied(w: World, bundled: seq<Action>) returns (actions: seq<Action>)
    requires Invariant(w) && IsRun(w, bundled) && Bundles(w, After(w, bundled)) && !IsReady(w.cluster.status)
    requires forall a :: a in bundled ==> !a.Edit?
    ensures IsRun(w, actions) && |After(w, actions).log| == |w.log| + 1 && forall a :: a in actions ==> !a.Edit?
    ensures var v := After(w, bundled);
      After(w, actions) == v.(log := After(w, actions).log, phase := Applying(v.phase.copy, v.phase.bundle, []))
  {
    var list := ListControlPlane([Member(w.cluster.spec.controlPlane, "member")]);
    assert list.members[1..] == [];
    Extend(w, bundled, list);
    Extend(w, bundled + [list], ApplyControlPlane);
    actions := bundled + [list] + [ApplyControlPlane];
  }

  /** Something can still be sent, once there are workers to send it to. */
  ghost predicate Sends(w: World) {
    exists actions :: IsRun(w, actions) && After(w, actions).log != w.log
  }

  /** Between reconciles, a cluster can make progress exactly if its Secret is not orphaned. */
  lemma SendsIffNotOrphaned(w: World, before: seq<Action>)
    requires Initial(w) && IsRun(w, before) && After(w, before).phase.Idle?
    ensures Sends(After(w, before)) <==> !Orphaned(After(w, before))
  {
    InvariantRun(w, before);
    var v := After(w, before);
    if Orphaned(v) {
      forall actions | IsRun(v, actions) ensures After(v, actions).log == v.log {
        OrphanedSecretBlocks(v, actions);
      }
    } else {
      // Whatever the spec says, a user may add a worker pool.
      var pool := v.cluster.spec.controlPlane;
      assert |pool + "-workers"| > |pool|;
      var edit := Edit(Spec(pool, [pool + "-workers"]));
      InvariantStep(v, edit);
      var actions := SomethingIsSent(Apply(v, edit));
      Prepend(v, edit, actions);
    }
  }

  /**
   The condition is needed: an edit that turns the control-plane pool of a ready cluster into a
   worker pool gets a worker's configuration sent to a member of it.
   */
  lemma SwappedPoolIsReconfigured(w: World, before: seq<Action>, other: string) returns (after: seq<Action>)
    requires Initial(w) && IsRun(w, before) && After(w, before).phase.Idle? && IsReady(After(w, before).cluster.status)
    requires other != After(w, before).cluster.spec.controlPlane
    ensures IsRun(After(w, before), after)
    ensures var v := After(w, before);
      var log := After(v, after).log;
      |log| == |v.log| + 1 && log[|v.log|].role == Worker && log[|v.log|].member.pool == v.cluster.spec.controlPlane
  {
    InvariantRun(w, before);
    var v := After(w, before);
    var edit := Edit(Spec(other, [v.cluster.spec.controlPlane]));
    InvariantStep(v, edit);
    var rest := SomethingIsSent(Apply(v, edit));
    Prepend(v, edit, rest);
    after := [edit] + rest;
  }

  // ----- how often Bootstrap is called

  /** Bootstrap is called no more: it is recorded, the control plane is ready, or the Secret is orphaned. */
  predicate BootstrapOver(w: World) {
    w.cluster.status.bootstrapped || IsReady(w.cluster.status) || Orphaned(w)
  }

  lemma {:induction false} BootstrapStops(w: World, actions: seq<Action>)
    requires Invariant(w) && BootstrapOver(w) && IsRun(w, actions)
    ensures After(w, actions).bootstraps == w.bootstraps && BootstrapOver(After(w, actions))
    decreases |actions|
  {
    if actions != [] {
      InvariantStep(w, actions[0]);
      Monotone(w, actions[0]);
      BootstrapStops(Apply(w, actions[0]), actions[1..]);
    }
  }

  /** Once Bootstrapped is persisted, no run calls Bootstrap again. */
  lemma RecordedBootstrapIsFinal(w: World, before: seq<Action>, after: seq<Action>)
    requires Initial(w) && IsRun(w, before) && After(w, before).cluster.status.bootstrapped
    requires IsRun(After(w, before), after)
    ensures After(After(w, before), after).bootstraps == After(w, before).bootstraps
  {
    InvariantRun(w, before);
    BootstrapStops(After(w, before), after);
  }

  /** One reconcile calls Bootstrap, with either outcome. */
  lemma BootstrapIsCalled(w: World, ok: bool) returns (actions: seq<Action>)
    requires Invariant(w) && w.phase.Idle? && !BootstrapOver(w)
    ensures IsRun(w, actions)
    ensures var v := After(w, actions);
      && v.phase.Checking? && v.bootstraps == w.bootstraps + [ok] && v.cluster.finalizer
      && v.cluster.status == w.cluster.status && v.cluster.spec == w.cluster.spec
      && v.phase.copy == v.cluster.(status := w.cluster.status.(secretRef := true, bootstrapped := ok))
      && (w.secret.Some? ==> v.secret == w.secret) && (w.cluster.finalizer ==> v.cluster == w.cluster)
  {
    var bundled := BundleIsTaken(w);
    var applied := ControlPlaneIsApplied(w, bundled);
    Extend(w, applied, CallBootstrap(ok));
    actions := applied + [CallBootstrap(ok)];
  }

  ghost predicate Bootstraps(w: World) {
    exists actions :: IsRun(w, actions) && After(w, actions).bootstraps != w.bootstraps
  }

  /** A reconcile of an unready cluster whose calls all succeed gets as far as its health check. */
  lemma ChecksAreReached(w: World) returns (actions: seq<Action>)
    requires Invariant(w) && w.phase.Idle? && !Orphaned(w) && !IsReady(w.cluster.status)
    ensures IsRun(w, actions) && After(w, actions).phase.Checking?
    ensures After(w, actions).cluster.spec == w.cluster.spec
    ensures var v := After(w, actions);
      v.phase.copy == v.cluster.(status := w.cluster.status.(secretRef := true, bootstrapped := true))
  {
    if w.cluster.status.bootstrapped {
      var bundled := BundleIsTaken(w);
      actions := ControlPlaneIsApplied(w, bundled);
      Extend(w, actions, SkipBootstrap);
      actions := actions + [SkipBootstrap];
    } else {
      actions := BootstrapIsCalled(w, true);
    }
  }

  /**
   A cluster can always be brought up: from every idle state that is not orphaned, a reconcile makes
   the control plane ready, with its reference, its bootstrap and its kubeconfig recorded.
   */
  lemma ControlPlaneComesUp(w: World, kubeconfig: string) returns (actions: seq<Action>)
    requires Invariant(w) && w.phase.Idle? && !Orphaned(w) && !IsReady(w.cluster.status)
    ensures IsRun(w, actions)
    ensures var v := After(w, actions);
      && v.phase.Idle? && IsReady(v.cluster.status) && v.cluster.status.secretRef && v.cluster.status.bootstrapped
      && v.secret.Some? && v.secret.value.kubeconfig == Some(kubeconfig) && v.cluster.spec == w.cluster.spec
  {
    actions := ChecksAreReached(w);
    InvariantRun(w, actions);
    Extend(w, actions, SaveKubeconfig(kubeconfig));
    Extend(w, actions + [SaveKubeconfig(kubeconfig)], WriteControlPlane(Healthy));
    actions := actions + [SaveKubeconfig(kubeconfig)] + [WriteControlPlane(Healthy)];
  }

  /** And once it is, a reconcile records whether the cluster as a whole is ready. */
  lemma ClusterIsReported(w: World, ready: bool) returns (actions: seq<Action>)
    requires Invariant(w) && w.phase.Idle? && IsReady(w.cluster.status)
    ensures IsRun(w, actions) && IsReady(After(w, actions).cluster.status)
    ensures After(w, actions).cluster.status == w.cluster.status.(ready := Some(ready))
  {
    actions := BundleIsTaken(w);
    Extend(w, actions, EnterWorkers);
    Extend(w, actions + [EnterWorkers], WriteReady(ready, true));
    actions := actions + [EnterWorkers] + [WriteReady(ready, true)];
  }

  /** Between reconciles, a further Bootstrap call is possible exactly if none of the three reasons against it holds. */
  lemma BootstrapsIff(w: World, before: seq<Action>)
    requires Initial(w) && IsRun(w, before) && After(w, before).phase.Idle?
    ensures Bootstraps(After(w, before)) <==> !BootstrapOver(After(w, before))
  {
    InvariantRun(w, before);
    var v := After(w, before);
    if BootstrapOver(v) {
      forall actions | IsRun(v, actions) ensures After(v, actions).bootstraps == v.bootstraps {
        BootstrapStops(v, actions);
      }
    } else {
      var actions := BootstrapIsCalled(v, true);
      assert |After(v, actions).bootstraps| == |v.bootstraps| + 1;
    }
  }

  /** A reconcile that waits for the API server again has nothing to write, so its Bootstrap goes unrecorded. */
  lemma BootstrapGoesUnrecorded(w: World) returns (actions: seq<Action>)
    requires Invariant(w) && w.phase.Idle? && w.cluster.finalizer && w.secret.Some?
    requires w.cluster.status.secretRef && w.cluster.status.controlPlane.WaitingForApiServer?
    requires !w.cluster.status.bootstrapped
    ensures IsRun(w, actions)
    ensures After(w, actions) == w.(bootstraps := w.bootstraps + [true], log := After(w, actions).log)
  {
    actions := BootstrapIsCalled(w, true);
    Extend(w, actions, WriteControlPlane(WaitingForApiServer));
    actions := actions + [WriteControlPlane(WaitingForApiServer)];
  }

  lemma {:induction false} BootstrapGoesUnrecordedAgain(w: World, n: nat) returns (actions: seq<Action>)
    requires Invariant(w) && w.phase.Idle? && w.cluster.finalizer && w.secret.Some?
    requires w.cluster.status.secretRef && w.cluster.status.controlPlane.WaitingForApiServer?
    requires !w.cluster.status.bootstrapped
    ensures IsRun(w, actions)
    ensures After(w, actions) == w.(bootstraps := w.bootstraps + seq(n, _ => true), log := After(w, actions).log)
    decreases n
  {
    if n == 0 {
      actions := [];
      assert w.bootstraps + seq(0, _ => true) == w.bootstraps;
    } else {
      var first := BootstrapGoesUnrecorded(w);
      InvariantRun(w, first);
      var rest := BootstrapGoesUnrecordedAgain(After(w, first), n - 1);
      Append(w, first, rest);
      actions := first + rest;
      assert w.bootstraps + [true] + seq(n - 1, _ => true) == w.bootstraps + seq(n, _ => true);
    }
  }

  /**
   So there is no bound on successful Bootstrap calls: from every fresh cluster, a first reconcile
   whose call fails records that it waits for the API server, and any number of later ones succeed
   in calling and fail to record it.
   */
  lemma BootstrapRepeats(w: World, n: nat) returns (actions: seq<Action>)
    requires Initial(w)
    ensures IsRun(w, actions) && After(w, actions).bootstraps == [false] + seq(n, _ => true)
  {
    var called := BootstrapIsCalled(w, false);
    InvariantRun(w, called);
    Extend(w, called, WriteControlPlane(WaitingForApiServer));
    var first := called + [WriteControlPlane(WaitingForApiServer)];
    InvariantRun(w, first);
    var rest := BootstrapGoesUnrecordedAgain(After(w, first), n);
    Append(w, first, rest);
    actions := first + rest;
  }
}
