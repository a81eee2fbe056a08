# Kontinuum controllers, modelled and proved in Dafny

Kontinuum manages fleets of Talos machines. Its controllers share state through a versioned
Kubernetes API store: discovery probes unclaimed Instances, InstancePools claim and release them,
TalosClusters bootstrap their members and reset them on deletion, addons install in waves, and each
server registers itself. Zones reach the hub's etcd through a proxy that authenticates them with
rotating keys. What these parts promise is kept by no single function: it rests on optimistic
concurrency, one-way conditions, finalizers, leases and locks, and it has to hold over every
interleaving.

The project models those parts and proves what they promise. Where the source works step by step,
the model is a class or a method with loops, proved against a specification; where several processes
interleave, the model is a state machine whose steps are single API calls, and the theorems range
over every run. Where a promise turns out to hold only under a condition, the condition is proved
necessary as well, or a lemma exhibits the run that breaks it.

| file | subject |
|---|---|
| `ApiStore.dfy` | objects, versions, optimistic updates, deletion with finalizers |
| `Fleet.dfy` | Instance, InstancePool, TalosCluster, label selectors |
| `Lifecycle.dfy` | all writers of Instances, interleaved, reading copies of any age |
| `PoolClaims.dfy` | claim labels and the pools they name |
| `NameOrder.dfy`, `PoolReconciler.dfy` | one undisturbed pool reconcile, end to end |
| `InstanceReset.dfy` | reset on delete, draining a control plane |
| `Discovery.dfy`, `MemberConditions.dfy` | status bookkeeping on Instances |
| `Refinement.dfy` | the reconcilers as runs of the interleaved lifecycle |
| `Bootstrap.dfy` | secrets bundle, control plane before workers, crashes |
| `AddonWaves.dfy`, `Values.dfy` | addon scheduling, values merge and `$cel` evaluation |
| `Identities.dfy`, `Verifier.dfy`, `IdentityWatch.dfy` | zone keys, tokens, the key cache, the key watch |
| `StreamPump.dfy`, `RoundRobin.dfy`, `AuthRecovery.dfy` | the etcd proxy's relay, dispatch and recovery |
| `Heartbeat.dfy` | self-registration and deregistration |
| `AdminBindings.dfy` | convergence of the admin group bindings |
| `ZoneLease.dfy` | the lease that keeps reconciles of one zone from overlapping |

`dafny verify dfyconfig.toml` checks the whole project.

## Results that depend on a condition

- A claimed Instance is Discovered in every reachable state, provided no Instance is deleted and
  registered again under its name between a claim's List and its Get. `Lifecycle.RecreationDefeatsClaim`
  breaks it otherwise, from every state with a claimable Instance that nothing holds; `Lifecycle.ClaimSafeIffDiscovered` says which claims are safe.
- Claim labels never dangle unless one of two reads is harmful: a pool read as live with its finalizer,
  with replicas and a selector that an unclaimed Instance could match, although the stored pool has no
  finalizer or is gone; or a teardown's claim list read as empty although something is held and the
  finalizer removal commits. Both conditions are exact
  (`PoolClaims.FetchDanglesIff`, `PoolClaims.EmptyListDanglesIff`); any other stale read is harmless.
- The identity watch keeps the latest parseable key unless a reopened watch finds an unparseable Secret
  after having missed a good one, or a Refresh is overtaken by a rotation. Both conditions are exact
  (`IdentityWatch.ReopenCatchesUpIff`, `IdentityWatch.RefreshKeepsUpIff`), and both failures are shown
  from every steady state.
- The secrets bundle is one and the same over every run, but a reconcile that creates the Secret and ends
  without a status write that lands leaves it orphaned, and the cluster is blocked for good. A crash does
  this, and so does a mere edit of the spec that makes the status write conflict. From every other idle
  state configurations can still be sent (`Bootstrap.OrphanedIff`, `Bootstrap.SendsIffNotOrphaned`).
- Between reconciles a further Bootstrap call is possible exactly as long as neither Bootstrapped nor
  ControlPlaneReady is persisted and the Secret is not orphaned (`Bootstrap.BootstrapsIff`). The number of
  successful calls until then has no bound (`Bootstrap.BootstrapRepeats`).
- No member of the control-plane pool is configured again once the control plane is ready, unless a spec
  edit makes that pool a worker pool (`Bootstrap.FormerControlPlaneIsSpared`,
  `Bootstrap.SwappedPoolIsReconfigured`).
- A heartbeat heals any state of the store exactly unless another owner controls the Secret's name.
- Admin bindings converge exactly if no desired group is blocked by a binding that will never go away.
- Round-robin dispatch stays even for ever exactly if the pool's size divides 2^64.
- The global zone lease is shared with a key that is literally `global`, and with nothing else
  (`ZoneLease.LeaseNameIsAlmostInjective`). Zone keys contain a hyphen and are safe; pools and clusters
  lock by their own names, so one called `global` contends with the global lease.
- A region and a zone do not determine their lock key: `eu-west` and `1` share it with `eu` and `west-1`, and
  so their reconciles exclude each other. The key is unique exactly if no other hyphen could be taken for the
  separator (`ZoneLease.KeyIsUniqueIff`).
- The documentation of VerifyToken mentions a leeway on the time of issue; the check itself looks at
  expiry and not-before only, and the model follows the check.

## Model

| member | source | states |
|---|---|---|
| `Lifecycle.AcceptedIsCurrent` | pkg/domain/instancepool/controller.go:433-467 | An optimistic update that is accepted was prepared from exactly the stored object, however old the read was |
| `Lifecycle.WritesAreAtomic` | pkg/domain/instancepool/controller.go:316-346 | Every write by every controller from a copy of any age either changes nothing or equals an atomic read, check and write of the current object |
| `Lifecycle.PastGrows` | pkg/domain/instancepool/controller.go:316-346 | A step adds at most one version of one Instance to the history, namely the one it wrote |
| `Lifecycle.StepAdds` | pkg/domain/instancepool/controller.go:316-346 | A step adds no version, or a new Instance, or exactly what one writer's check and effect make of the stored object |
| `Lifecycle.VersionedStep` | pkg/domain/instance/controller.go:301-341 | Versions stay unique, UIDs stay tied to one key, and the stored object stays the newest of its key |
| `Lifecycle.EffectKeepsLatches` | pkg/domain/taloscluster/conditions.go:122-143 | No writer takes Discovered away, moves a deletion time, changes a UID or, except a claim, adds a claim label; from a claimed Instance only a cluster's teardown takes Configured or Joined, and Configured only after a successful reset of that version |
| `Lifecycle.HistoryStep` | pkg/domain/instance/controller.go:301-313 | Every step of every controller keeps the latches along the versions of each Instance and the truth of the event log |
| `Lifecycle.HistoryRun` | pkg/domain/instance/controller.go:149-165 | The same over every run |
| `Lifecycle.ClaimLandsOnDiscovered` | pkg/domain/instancepool/controller.go:369-467 | A committed claim lands on a Discovered Instance although only the listed copy was checked |
| `Lifecycle.ClaimsDiscoveredStep` | pkg/domain/instancepool/controller.go:356-368 | Every step keeps that each version ever stored with a claim was Discovered |
| `Lifecycle.ClaimedImpliesDiscovered` | pkg/domain/instancepool/controller.go:356-426 | In every reachable state a claimed Instance is Discovered, with arbitrarily stale reads and no same-name recreation between List and Get |
| `Lifecycle.ClaimSafeIffDiscovered` | pkg/domain/instancepool/controller.go:433-467 | A committed claim keeps that property if and only if the copy its Get returned is Discovered |
| `Lifecycle.RecreationDefeatsClaim` | pkg/domain/instancepool/controller.go:433-467 | From every state with a claimable Instance that no finalizer holds, a run in which recreation under its name makes an undiscovered Instance claimed |
| `Lifecycle.ClaimableIsReachable` | pkg/domain/instance/controller.go:301-341 | Such a state is reachable for every key |
| `Lifecycle.CommitIsRespectful` | pkg/domain/instance/controller.go:178-197 | What a committed write may change: one Instance, and its claim and its Configured condition only in the ways listed for `NoInterference`; only deletion, finalizer removal and edits can make it vanish |
| `Lifecycle.NoInterference` | pkg/domain/taloscluster/instance_reset.go:208-218 | Over every run with any reads: a claim lands only on an unclaimed Instance, a release removes only the releasing pool's claim, discovery and the clearing by the reset controller never land on a claimed one, a cluster's teardown clears and releases only what the pool it listed still holds, and claims change hands only through an unclaimed version |
| `Lifecycle.OnlyRemovalLosesReset` | pkg/domain/taloscluster/instance_reset.go:379-390 | Of all writers only removeFinalizer takes the reset finalizer away, and only from the object it read |
| `Lifecycle.RemovalIsJustified` | pkg/domain/taloscluster/instance_reset.go:262-292 | The object removeFinalizer writes is unclaimed, not Configured, reset, ownerless or past the timeout |
| `Lifecycle.ConfiguredKeptStep` | pkg/domain/taloscluster/teardown.go:93-130 | Every step keeps Configured latched along the claimed versions of an Instance: it is lost only after a release or a successful reset |
| `Lifecycle.RemovalSince` | pkg/domain/taloscluster/instance_reset.go:262-292 | A finalizer removal measured against any version at which the Instance was claimed and Configured |
| `Lifecycle.ResetBeforeDisappearance` | pkg/domain/taloscluster/instance_reset.go:140-292 | Over every run, an Instance that was claimed and Configured at any version loses the reset finalizer only if since that version a reset of it succeeded (by its cluster's teardown, or after its deletion), or it was unclaimed, or its owner was seen gone after its deletion, or if the timeout passed |
| `PoolClaims.OnlyClaimsMakeClaims` | pkg/domain/instancepool/controller.go:433-467 | Of all writers of Instances in the lifecycle model only a claim makes an Instance claimed |
| `PoolClaims.AnchorsStay` | pkg/domain/instancepool/controller.go:221-232 | Only a pool's own finalizer removal takes its finalizer away |
| `PoolClaims.ClaimsCome` | pkg/domain/instancepool/controller.go:433-467 | Only a pool's own claim step gives it an Instance |
| `PoolClaims.NoDanglingStep` | pkg/domain/instancepool/controller.go:243-270 | Every step keeps that claimed Instances name a stored pool with its finalizer |
| `PoolClaims.PhaseStep` | pkg/domain/instancepool/controller.go:146-178 | What a reconcile in flight relies on survives every step of everyone else, with every read that is not harmful |
| `PoolClaims.SoundRun` | pkg/domain/instancepool/controller.go:135-179 | The invariant holds over every run without a harmful read; stale reads of other kinds are allowed |
| `PoolClaims.ClaimsNeverDangle` | pkg/domain/instancepool/controller.go:146-270 | In every state reachable without a harmful read the pool named by a claim label exists and carries its finalizer |
| `PoolClaims.PoolGoesEmptyHanded` | pkg/domain/instancepool/controller.go:243-270 | A pool leaves the store or loses its finalizer only by its own teardown, holding nothing |
| `PoolClaims.FetchDanglesIff` | pkg/domain/instancepool/controller.go:155-232 | A read of the pool can lead to a dangling claim, all later reads being safe, exactly if the copy is live, has the finalizer, has replicas and a parsed selector that some unclaimed Instance could match, while the stored pool has no finalizer or is gone |
| `PoolClaims.WorkingDangles` | pkg/domain/instancepool/controller.go:369-467 | From such a reconcile: a run in which an Instance is registered and discovered, passes the selector and the filter, and is claimed for the pool that is not anchored |
| `PoolClaims.CandidateAppears` | pkg/domain/instance/controller.go:301-341 | Registering and probing under an unused name yield a candidate of every selector that an unclaimed Instance can match |
| `PoolClaims.EmptyListDanglesIff` | pkg/domain/instancepool/controller.go:243-312 | An empty claim list, which a cache may return, can lead to a dangling claim exactly if something is held and the finalizer removal would commit |
| `PoolClaims.NonEmptyListIsHarmless` | pkg/domain/instancepool/controller.go:243-270 | A claim list that shows anything, however stale, does no harm |
| `PoolClaims.DropDanglesIff` | pkg/domain/instancepool/controller.go:258-270 | Removing the finalizer leaves a dangling claim exactly if it commits and something is held |
| `PoolClaims.CurrentReadsAreSafe` | pkg/domain/instancepool/controller.go:187-198 | Current reads are safe |
| `PoolClaims.LivePoolIsAnchored` | pkg/domain/instancepool/controller.go:146-232 | The first reconcile of a live pool gives it its finalizer before anything is claimed |
| `PoolClaims.DeletedPoolLeaves` | pkg/domain/instancepool/controller.go:243-270 | From every state in which a deleted pool is at rest and only its finalizer keeps it, a run with current reads releases all it holds and takes it out of the store |
| `PoolClaims.SurplusIsReleased` | pkg/domain/instancepool/controller.go:156-167 | A live pool at rest that holds more than its replicas can release any one of them |
| `PoolClaims.CandidateIsClaimed` | pkg/domain/instancepool/controller.go:169-178 | A live pool at rest that holds fewer can claim any matching, unclaimed, Discovered and Live Instance of its namespace |
| `PoolClaims.MovesWithinItsList` | pkg/domain/instancepool/controller.go:151-178 | Over every run, from its List of claims to its end a reconcile tries to release at most as many Instances as the List shows beyond the replicas, gets at most as many as it shows missing, and never does both, whatever everyone else does and however stale the List is |
| `NameOrder.LessIsTotal` | pkg/domain/instancepool/controller.go:319-319 | The name order is total and strict |
| `NameOrder.LessIsTransitive` | pkg/domain/instancepool/controller.go:387-387 | The name order is transitive |
| `NameOrder.LessIsLexicographic` | pkg/domain/instancepool/controller.go:319-319 | The name order is the lexicographic one: at the first difference the smaller name ends or has the smaller character |
| `NameOrder.SortByName` | pkg/domain/instancepool/controller.go:319-319 | Sorting permutes: nothing is lost or added |
| `NameOrder.SortSorts` | pkg/domain/instancepool/controller.go:316-321 | Sorting by name yields the same copies in strictly increasing name order |
| `NameOrder.SortedPrefixIsLowest` | pkg/domain/instancepool/controller.go:316-346 | The first n of a sorted list are exactly the members that fewer than n others precede by name |
| `PoolReconciler.Api.Fetch` | pkg/domain/instancepool/controller.go:297-312 | A List returns exactly the stored objects of the matching keys, each once |
| `PoolReconciler.Release` | pkg/domain/instancepool/controller.go:316-346 | Exactly the claims beyond the target name-smallest are removed, nothing else changes, the rest is returned, one write per release |
| `PoolReconciler.ReleaseInOrder` | pkg/domain/instancepool/controller.go:323-345 | The release loop keeps the first target of the sorted claims and releases all others |
| `PoolReconciler.ClaimableCandidates` | pkg/domain/instancepool/controller.go:412-426 | Exactly the unclaimed, Discovered and Live candidates are kept |
| `PoolReconciler.TryClaim` | pkg/domain/instancepool/controller.go:433-467 | Succeeds exactly if the Instance exists and is unclaimed, and then only adds the claim |
| `PoolReconciler.ClaimInOrder` | pkg/domain/instancepool/controller.go:391-402 | The claim loop takes the first of the sorted candidates up to the replicas and lists all the pool holds |
| `PoolReconciler.Claim` | pkg/domain/instancepool/controller.go:369-405 | The missing replicas are made up from exactly the name-smallest claimable candidates; it fails exactly on a malformed selector |
| `Fleet.SelectorLaws` | pkg/domain/instancepool/controller.go:369-385 | Selectors are conjunctions of clauses; In and NotIn, Exists and DoesNotExist are opposites; an empty selector matches everything, a malformed one nothing |
| `PoolReconciler.CountReady` | pkg/domain/instancepool/controller.go:482-495 | The number of claimed Instances that are Discovered |
| `PoolReconciler.ReportStatus` | pkg/domain/instancepool/controller.go:482-540 | The stored status afterwards: readyReplicas counts the Discovered claims, Ready is true exactly if nothing is missing and InsufficientCapacity exactly if something is, both with reason and counts, every other condition is kept; written exactly when it differs, requeued exactly when capacity is insufficient |
| `PoolReconciler.StatusReports` | pkg/domain/instancepool/controller.go:482-532 | What updateStatus computes says just that, whatever the status was before |
| `PoolReconciler.ReconcileTeardown` | pkg/domain/instancepool/controller.go:243-270 | Releases every claim and requeues, or, once nothing is held, takes exactly its own finalizer away; the pool is gone if that was the last one |
| `PoolReconciler.EnsureFinalizer` | pkg/domain/instancepool/controller.go:221-232 | The finalizer is added to whatever finalizers there are, nothing else of the pool changes, no write if it was there |
| `PoolReconciler.Rebalance` | pkg/domain/instancepool/controller.go:155-176 | The pool ends with the r name-smallest of its claims, or its claims plus the name-smallest candidates up to r; insufficient exactly if fewer than r; no write if nothing was to do |
| `PoolReconciler.StatusSettles` | pkg/domain/instancepool/controller.go:482-540 | Reporting the same again yields the same status, and InsufficientCapacity says whether replicas are missing |
| `PoolReconciler.Reconcile` | pkg/domain/instancepool/controller.go:135-179 | One undisturbed reconcile converges the claims; the stored pool then is Ready exactly if it holds its replicas, lacks capacity exactly if it holds fewer, counts the Discovered ones, and is otherwise unchanged but for its finalizer; a deleted pool releases everything or goes; it fails only on a malformed selector that is needed, and writes nothing on a settled pool or without the lease |
| `PoolReconciler.ReconcileTwice` | pkg/domain/instancepool/controller.go:135-179 | An immediate second reconcile gives the same result with zero writes |
| `InstanceReset.DialAddress` | pkg/domain/taloscluster/members.go:73-86 | The first discovered address that is neither unparseable nor loopback, else the first configured interface |
| `InstanceReset.Client.ResolveMembers` | pkg/domain/taloscluster/members.go:23-40 | Exactly the Discovered Instances the pool holds |
| `InstanceReset.Client.FindOwningCluster` | pkg/domain/taloscluster/instance_reset.go:226-251 | Finds a cluster exactly if one of the namespace names the pool as its control plane or among any of its workers; the role is that of the control plane exactly if the pool is it |
| `InstanceReset.Client.ResolveResetEndpoint` | pkg/domain/taloscluster/instance_reset.go:349-375 | Another control-plane member gracefully, else the target itself ungracefully, and no endpoint for a worker without a control plane |
| `InstanceReset.Client.ResetInstance` | pkg/domain/taloscluster/instance_reset.go:311-340 | Makes one call, to the target's own address through a proper endpoint, exactly if the bundle loads and the target is of the control plane or has a control-plane member to go through; success exactly if that call is answered well |
| `InstanceReset.Client.ReconcileTeardown` | pkg/domain/taloscluster/instance_reset.go:262-292 | The finalizer goes exactly if never Configured, reset, or timed out; a call is made exactly for a Configured, held Instance that can be reset |
| `InstanceReset.Client.Reconcile` | pkg/domain/taloscluster/instance_reset.go:140-218 | The whole new store. A deleting, Configured, held member of any pool a cluster references, control plane or worker, keeps everything until a reset succeeds or 15 minutes have passed, and its reset is issued if every such cluster can issue one; a live one gets the finalizer beside others; a live unclaimed one loses exactly the three member conditions; every call is proper |
| `InstanceReset.Client.ReconcileAfterTimeout` | pkg/domain/taloscluster/instance_reset.go:262-292 | After the timeout one failure-free reconcile removes the finalizer of any deleting Instance whatever the node answers, given that the Instances it dials have an address |
| `InstanceReset.LiveReconcileSettles` | pkg/domain/taloscluster/instance_reset.go:140-218 | Reconciling a live Instance twice is the same as once |
| `InstanceReset.DrainStepMembers` | pkg/domain/taloscluster/instance_reset.go:311-375 | A drain step removes a control-plane member exactly if that member left, reset or given up |
| `InstanceReset.MembersCountDown` | pkg/domain/taloscluster/instance_reset.go:311-375 | Remaining members plus departed members equal the initial members, at every point of every drain |
| `InstanceReset.DrainIsGracefulToTheLast` | pkg/domain/taloscluster/instance_reset.go:311-375 | Draining k members in any order, with any failures and with members that leave by the timeout: all attempts before the last member's are graceful through a different, still claimed and Discovered member, the last one's are ungraceful through its own address, workers are never reset once no member remains |
| `MemberConditions.Recorder.SetMemberCondition` | pkg/domain/taloscluster/conditions.go:79-95 | Writes the one condition, no write if it already says so |
| `MemberConditions.Recorder.ClearMemberConditions` | pkg/domain/taloscluster/conditions.go:122-143 | Removes exactly Configured, Joined and Ready, no write if none was set |
| `MemberConditions.Recorder.PersistMemberProbe` | pkg/domain/taloscluster/conditions.go:154-168 | Writes all conditions, later ones winning |
| `MemberConditions.LaterWins` | pkg/domain/taloscluster/conditions.go:158-160 | Of the conditions written together the last of a kind wins, and kinds not written keep theirs |
| `MemberConditions.ChangesKeepLatches` | pkg/domain/taloscluster/conditions.go:79-168 | Any batch of such changes keeps Discovered, Configured and Joined |
| `MemberConditions.RecordingIsSafe` | pkg/domain/taloscluster/conditions.go:79-168 | Each such write is a member write of the lifecycle model and lands only on the object it was computed from |
| `Discovery.FirstReachedIs` | pkg/domain/instance/controller.go:211-250 | The candidate that decides is the first that answers |
| `Discovery.Prober.RecordProbeResult` | pkg/domain/instance/controller.go:301-341 | Writes the probe's status exactly when it differs from the stored one |
| `Discovery.Prober.ProbeCandidates` | pkg/domain/instance/controller.go:211-250 | Candidates are tried in order, the first that answers decides, otherwise the probe failed |
| `Discovery.Prober.Reconcile` | pkg/domain/instance/controller.go:166-198 | A missing, claimed or unleased Instance is untouched, otherwise its probe is recorded |
| `Discovery.Prober.ReconcileTwice` | pkg/domain/instance/controller.go:283-300 | A second probe with the same answers writes nothing |
| `Discovery.ProbeMeaning` | pkg/domain/instance/controller.go:276-341 | Live exactly if a candidate answered, Discovered from then on, the addresses those of the first candidate that answered, the reason by outcome; every other condition and, after a failed probe, addresses and Discovered unchanged |
| `Refinement.ProbeIsStep` | pkg/domain/instance/controller.go:166-341 | What the discovery reconciler records is the discovery step of the lifecycle model |
| `Refinement.ClaimAndReleaseAreSteps` | pkg/domain/instancepool/controller.go:316-467 | The claims and releases of the pool reconciler are steps of the lifecycle model |
| `Refinement.RemovalIsRun` | pkg/domain/taloscluster/instance_reset.go:262-292 | Whatever ground a finalizer removal has, the lifecycle model has the run that establishes it and removes the finalizer |
| `Refinement.ResetReconcileIsRun` | pkg/domain/taloscluster/instance_reset.go:140-292 | A failure-free reconcile of the reset controller, in every branch, is a run of the lifecycle model |
| `Refinement.TeardownFreesMember` | pkg/domain/taloscluster/teardown.go:93-130 | From every state, the teardown of a cluster can let a member go: reset if Configured, cleared and released, still the same Discovered Instance |
| `Bootstrap.SecretClient.EnsureSecretsBundle` | pkg/domain/taloscluster/secrets.go:50-99 | A recorded reference loads and never regenerates, an unrecorded existing Secret is an error, a returned bundle is the stored one |
| `Bootstrap.Monotone` | pkg/domain/taloscluster/controller.go:325-495 | No step takes away readiness, the recorded reference, the recorded bootstrap, the bundle or the record of what was sent |
| `Bootstrap.PhaseStep` | pkg/domain/taloscluster/controller.go:230-271 | What a reconcile in flight relies on survives every step, edit and crash |
| `Bootstrap.LogStep` | pkg/domain/taloscluster/controller.go:359-390 | Whatever is sent is sent in order and under the stored bundle |
| `Bootstrap.InvariantRun` | pkg/domain/taloscluster/controller.go:230-271 | All of this over every run |
| `Bootstrap.ControlPlaneFirst` | pkg/domain/taloscluster/controller.go:257-271 | A configuration goes to a worker exactly while ControlPlaneReady is persisted, and to the control plane exactly before |
| `Bootstrap.ReadyIsForever` | pkg/domain/taloscluster/controller.go:519-579 | Once persisted, ControlPlaneReady never reverts, and whatever is sent afterwards is a worker's configuration and goes to a worker pool of a spec in force since then |
| `Bootstrap.FormerControlPlaneIsSpared` | pkg/domain/taloscluster/controller.go:678-767 | No member of a pool is configured after readiness unless a spec in force makes it a worker pool |
| `Bootstrap.SwappedPoolIsReconfigured` | pkg/domain/taloscluster/controller.go:678-767 | In every ready idle state, an edit that turns the control-plane pool into a worker pool leads to a worker's configuration for a member of it |
| `Bootstrap.OneBundle` | pkg/domain/taloscluster/secrets.go:50-121 | All configurations of a run are generated from the same bundle |
| `Bootstrap.OrphanedIff` | pkg/domain/taloscluster/controller.go:930-976 | A step orphans the Secret exactly if it ends the reconcile that created it, before its reference was recorded, without a status write that lands |
| `Bootstrap.OrphanedSecretBlocks` | pkg/domain/taloscluster/secrets.go:91-96 | Over every run an orphaned Secret stays so, nothing is sent and Bootstrap is not called |
| `Bootstrap.CrashOrphans` | pkg/domain/taloscluster/secrets.go:88-99 | From every fresh cluster, a crash that leads there |
| `Bootstrap.ConflictOrphans` | pkg/domain/taloscluster/controller.go:961-976 | From every fresh cluster, a run without a crash or an error that leads there: an edit makes the status write conflict |
| `Bootstrap.SomethingIsSent` | pkg/domain/taloscluster/controller.go:230-271 | From every idle state that is not orphaned a reconcile sends a configuration, without any edit unless the cluster is ready and has no workers |
| `Bootstrap.SendsIffNotOrphaned` | pkg/domain/taloscluster/secrets.go:50-99 | In every reachable state between reconciles, a configuration can still be sent exactly if the Secret is not orphaned |
| `Bootstrap.BootstrapStops` | pkg/domain/taloscluster/controller.go:404-430 | Once Bootstrapped or ControlPlaneReady is persisted, or the Secret is orphaned, no run calls Bootstrap |
| `Bootstrap.RecordedBootstrapIsFinal` | pkg/domain/taloscluster/controller.go:391-410 | Once Bootstrapped is persisted no run calls Bootstrap again |
| `Bootstrap.BootstrapsIff` | pkg/domain/taloscluster/controller.go:404-430 | In every reachable state between reconciles, a further call is possible exactly if neither condition is persisted and the Secret is not orphaned |
| `Bootstrap.BootstrapRepeats` | pkg/domain/taloscluster/controller.go:404-430 | From every fresh cluster and for every n, a run with n successful Bootstrap calls, each of which goes unrecorded because no condition changes with it |
| `Bootstrap.ControlPlaneComesUp` | pkg/domain/taloscluster/controller.go:404-495 | From every idle state that is not orphaned a reconcile makes the control plane ready, with reference, bootstrap and kubeconfig recorded |
| `Bootstrap.ClusterIsReported` | pkg/domain/taloscluster/controller.go:930-976 | Once it is, a reconcile records whether the cluster as a whole is ready, and nothing else changes in the status |
| `AddonWaves.Cluster.WaitForEarlierWaves` | pkg/domain/addon/controller.go:278-309 | Passes exactly if every sibling that is not disabled and of a lower wave is Ready, the wave being the priority of the spec, else 50 for gateway-api-crds, else 100 |
| `AddonWaves.PriorityIsWave` | pkg/domain/addon/values.go:252-279 | The effective priority is that wave, by spec, embedded default or global default |
| `AddonWaves.GateByPriority` | pkg/domain/addon/controller.go:272-309 | What an open gate says of a sibling that is not Ready: explicit priorities decide, an addon that sets none counts as 100, and the Gateway API CRDs come before those |
| `AddonWaves.Cluster.Reconcile` | pkg/domain/addon/controller.go:168-270 | Installs exactly if enabled, past the gate and everything before the install succeeded; Ready afterwards exactly if healthy, or as before if it was not bootstrapped or a check failed |
| `AddonWaves.Cluster.SetReady` | pkg/domain/addon/controller.go:436-455 | Sets the condition of this addon only |
| `AddonWaves.GatedStep` | pkg/domain/addon/controller.go:168-207 | Every step keeps that each pending and each issued install was gated by an actual state |
| `AddonWaves.InstallsAreGated` | pkg/domain/addon/controller.go:168-207 | Over every run, with edits and regressions: each Install follows a List, no older than the addon's own fetch, that showed all enabled siblings of lower priority Ready |
| `AddonWaves.GateIsMonotone` | pkg/domain/addon/controller.go:278-309 | A gate that is open stays open while nothing regresses |
| `AddonWaves.WavesStep` | pkg/domain/addon/controller.go:231-270 | While nothing is edited or regresses, every step keeps the waves in order |
| `AddonWaves.WavesInOrder` | pkg/domain/addon/controller.go:272-309 | In such runs the gate still holds in the state the Install is issued in, and no addon is Ready before an earlier wave; the Install and its status write are separate steps |
| `AddonWaves.SomeoneMayGo` | pkg/domain/addon/controller.go:278-309 | While some enabled addon is not Ready, one such addon passes its gate |
| `AddonWaves.RoundShrinks` | pkg/domain/addon/controller.go:278-309 | A round of gated installs that succeed takes the least waiting priority off the list |
| `AddonWaves.WavesConverge` | pkg/domain/addon/values.go:252-279 | All addons are Ready after as many rounds, in any order, as there are distinct priorities |
| `AddonWaves.ConcludedIsReady` | pkg/domain/addon/controller.go:231-309 | In steady interleaved runs an addon whose gate is open is Ready once a reconcile of it has come to its end: it cannot be turned away |
| `AddonWaves.SweepShrinks` | pkg/domain/addon/controller.go:278-309 | A stretch of a steady run in which a reconcile of every waiting addon ends takes the least waiting priority off the list |
| `AddonWaves.InterleavedWavesConverge` | pkg/domain/addon/controller.go:168-309 | Over every steady interleaved run, after as many such stretches as there are distinct priorities every enabled addon is Ready |
| `AddonWaves.GateDecides` | pkg/domain/addon/controller.go:168-207 | In any state a fresh reconcile passes its gate exactly if the gate is open, and is turned away otherwise |
| `AddonWaves.ReconcileIsRun` | pkg/domain/addon/controller.go:168-270 | What `Cluster.Reconcile` does behind an open gate is a run of the interleaved model, for every outcome of the install: one Install is issued, and Ready is what that outcome says |
| `AddonWaves.ReconcileConcludes` | pkg/domain/addon/controller.go:168-270 | From every state, whatever else is in flight, a reconcile of an enabled addon can come to its end: installed and Ready if its gate is open, turned away otherwise |
| `AddonWaves.SweepExists` | pkg/domain/addon/controller.go:168-270 | The stretches convergence speaks of exist from every state a steady run leads to |
| `AddonWaves.Cluster.ReconcileRound` | pkg/domain/addon/controller.go:168-270 | Reconciling addons one after another with healthy outcomes is the round the convergence lemmas speak of |
| `AddonWaves.Cluster.ReconcileRounds` | pkg/domain/addon/controller.go:168-309 | Reconciling as many rounds as there are distinct priorities leaves every enabled addon Ready and takes no Ready away |
| `Values.MergeValues` | pkg/domain/addon/values.go:111-138 | On heap maps: the result is a fresh map that stands for the recursive merge, whatever the order of keys; every map that existed before is unchanged, and the result shares only maps of the two inputs |
| `Values.MergeKey` | pkg/domain/addon/values.go:117-135 | One key of the overlay goes onto the clone: new, merged with the map there, or replacing; nothing but the clone is modified |
| `Values.MergePathwise` | pkg/domain/addon/values.go:103-138 | At every path: the overlay wins, two maps merge, and the base shows through exactly where the overlay holds nothing at the path and no non-map above it |
| `Values.MergeIdempotent` | pkg/domain/addon/values.go:111-138 | Applying the same overlay twice is applying it once |
| `Values.MergeSelf` | pkg/domain/addon/values.go:111-138 | A tree merged with itself is itself |
| `Values.MergeIdentities` | pkg/domain/addon/values.go:111-138 | The empty tree is neutral on both sides |
| `Values.ResolveNode` | pkg/domain/addon/celvalues.go:114-149 | Filling fresh maps and slices child by child computes the structural evaluation, an error anywhere being an error |
| `Values.CelExprIs` | pkg/domain/addon/celvalues.go:152-166 | Recognized are exactly the maps with the one key `$cel` and a text under it, and the text is the expression |
| `Values.MarkerEvaluates` | pkg/domain/addon/celvalues.go:114-121 | A marker evaluates to the value of its own expression |
| `Values.OtherMapsAreWalked` | pkg/domain/addon/celvalues.go:117-134 | A map with another key, with more keys or without a text under `$cel` becomes the map of its children's evaluations, an error if one has none |
| `Values.EvalDependsOnMarkersOnly` | pkg/domain/addon/celvalues.go:114-166 | Evaluation depends on nothing but the expressions of the markers it reaches |
| `Values.EvalIsIdentityWithoutMarkers` | pkg/domain/addon/celvalues.go:114-149 | Evaluation is the identity on trees without markers |
| `Values.EvalPathwise` | pkg/domain/addon/celvalues.go:114-149 | Each node reached through non-marker maps is replaced by its own evaluation, at its own path |
| `Values.MarkerBecomesValue` | pkg/domain/addon/celvalues.go:114-149 | A marker at any path through other maps is replaced by the value of its expression |
| `Values.DefaultsResolve` | pkg/domain/addon/celvalues.go:88-110 | The defaults become the evaluations of their entries, and a file that is one marker the map it evaluates to; anything else is an error |
| `Values.UserMarkersAreNotEvaluated` | pkg/domain/addon/values.go:288-333 | The resolved values depend on the evaluator only through the expressions of the defaults, whatever the user's tree contains |
| `Values.UserValueArrivesVerbatim` | pkg/domain/addon/values.go:288-333 | A user value where the defaults have no map arrives as written, marker or not |
| `Values.PlainDefaultsPassThrough` | pkg/domain/addon/celvalues.go:88-110 | Defaults without markers and no user values pass through untouched |
| `Identities.PublicSecretRoundTrip` | pkg/domain/etcdproxy/identity.go:235-279 | Parsing a built Secret gives the pair back, issue times to the nanosecond, exactly if both certificates are present |
| `Identities.KeysAreHeld` | pkg/domain/etcdproxy/identity.go:194-215 | A Secret yields a key at an instant exactly if one of its identities holds it and has not expired |
| `Identities.VerifyWithAnyKey` | pkg/domain/etcdproxy/jwt.go:99-122 | Accepts exactly the tokens that name the same non-empty zone as issuer and subject and the proxy as audience, with an EdDSA signature by one of the keys over exactly these claims, before expiry and after not-before with ten seconds of leeway |
| `Identities.SignedTokenVerifies` | pkg/domain/etcdproxy/jwt.go:42-122 | A signed token is accepted exactly while the key is among the zone's and 5 min 10 s since its second have not passed |
| `Identities.TamperedTokenFails` | pkg/domain/etcdproxy/jwt.go:99-122 | Whatever is changed in the claims or the algorithm of a good token makes it worthless, for every zone, under any keys and at any time |
| `Identities.NoReplayAcrossZones` | pkg/domain/etcdproxy/jwt.go:72-122 | A token is good for one zone at most, whatever keys other zones hold |
| `Verifier.KeyVerifier.LookupZone` | pkg/domain/etcdproxy/verifier.go:99-141 | A fresh hit returns the cached keys, anything else is the direct lookup, cached only if it yields keys |
| `Verifier.KeyVerifier.Authenticate` | pkg/domain/etcdproxy/verifier.go:83-92 | Accepts exactly the tokens good, in that sense, for their own issuer under the keys looked up for that issuer, and leaves the cache as that lookup does |
| `Verifier.WithoutIs` | pkg/domain/etcdproxy/verifier.go:99-141 | Removing a zone removes exactly its entry and keeps the cache duplicate-free |
| `Verifier.TouchMovesToFront` | pkg/domain/etcdproxy/verifier.go:99-102 | A Get moves the zone's entry to the front and moves nothing otherwise |
| `Verifier.AddEvictsLeastRecent` | pkg/domain/etcdproxy/verifier.go:136-141 | An Add replaces the zone's entry wherever it was; a new zone pushes out the last, least recently used entry once there are 256, and nothing else |
| `Verifier.TouchKeepsSound` | pkg/domain/etcdproxy/verifier.go:99-110 | Refreshing recency keeps every entry genuine |
| `Verifier.AddKeepsSound` | pkg/domain/etcdproxy/verifier.go:136-141 | Adding with eviction keeps the size bound and every entry genuine |
| `Verifier.InvariantStep` | pkg/domain/etcdproxy/verifier.go:99-141 | Every step of every concurrent lookup, eviction and Secret change keeps the cache sound and all uses timely |
| `Verifier.CacheRefinesDirectLookup` | pkg/domain/etcdproxy/verifier.go:99-141 | Over every run each entry holds the one or two keys a direct lookup gave at its timestamp, from a Secret read for that zone |
| `Verifier.NoKeyOutlivesItsWindow` | pkg/domain/etcdproxy/identity.go:194-215 | No key is used 6 h + 5 min + 30 s after it was issued, or later; clocks are real-valued |
| `Verifier.BoundIsTight` | pkg/domain/etcdproxy/verifier.go:99-141 | For every margin, however small, a run that uses a key within that margin of the bound |
| `IdentityWatch.KeySource.Consume` | pkg/domain/etcdproxy/identitywatch.go:266-279 | Events take effect in order until the channel closes |
| `IdentityWatch.InvariantStep` | pkg/domain/etcdproxy/identitywatch.go:158-305 | Every benign step keeps that the key held plus the queued events add up to the latest parseable key, and that the key held is the latest of what is known of the history |
| `IdentityWatch.ReopenCatchesUpIff` | pkg/domain/etcdproxy/identitywatch.go:226-260 | Reopening the watch loses nothing exactly if the stored Secret parses, or no parseable content was missed since what was delivered or read, or the last one missed carried the key held |
| `IdentityWatch.RefreshKeepsUpIff` | pkg/domain/etcdproxy/identitywatch.go:87-102 | Installing a refreshed key under an open watch loses nothing exactly if a parseable event is still queued, or no other parseable content came since it was read |
| `IdentityWatch.NoRotationLost` | pkg/domain/etcdproxy/identitywatch.go:158-305 | Over every run of rotations, opening, the first Get, reconnects and Refreshes whose reopenings and Refreshes meet these conditions: connected and drained, the key is the latest parseable one |
| `IdentityWatch.StoredKeyIsHeld` | pkg/domain/etcdproxy/identitywatch.go:158-305 | Over every run whose Refreshes are not overtaken, whatever reopenings missed: connected and drained, a stored key that parses is the one held |
| `IdentityWatch.UnparseableGapLosesKey` | pkg/domain/etcdproxy/identitywatch.go:226-305 | From every steady state, a run in which a key overwritten by garbage while disconnected is never seen |
| `IdentityWatch.OvertakenRefreshRegresses` | pkg/domain/etcdproxy/identitywatch.go:87-102 | From every steady state, a run in which an overtaken Refresh reinstalls the older key for good |
| `IdentityWatch.SteadyIsReachable` | pkg/domain/etcdproxy/identitywatch.go:158-180 | Such a state is reachable with every key |
| `StreamPump.PumpRequests` | pkg/domain/etcdproxy/proxy.go:351-375 | Everything before the stop is passed on in order, the half-close happens exactly at end of input, the outcome is what stopped it |
| `StreamPump.PumpResponses` | pkg/domain/etcdproxy/proxy.go:380-404 | The mirror without a half-close |
| `StreamPump.CollectVerdicts` | pkg/domain/etcdproxy/proxy.go:325-345 | The first error of all verdicts, none exactly if every verdict is clean |
| `StreamPump.StreamsStep` | pkg/domain/etcdproxy/proxy.go:351-404 | Every step keeps order, prefix and the single half-close |
| `StreamPump.ReportsStep` | pkg/domain/etcdproxy/proxy.go:325-345 | Every step keeps one report per finished pump, with its outcome |
| `StreamPump.InvariantRun` | pkg/domain/etcdproxy/proxy.go:325-404 | All of this under every interleaving |
| `StreamPump.NeverBlocksOnChannel` | pkg/domain/etcdproxy/proxy.go:330-331 | A pump with an outcome always finds room on the channel |
| `StreamPump.WaitsOnStreamsOnly` | pkg/domain/etcdproxy/proxy.go:325-345 | Unless a pump is inside a call on a stream, a step that needs no stream is possible, and it brings the return closer |
| `StreamPump.ReturnsAfterStreams` | pkg/domain/etcdproxy/proxy.go:325-345 | Once no pump is inside a stream call, at most five such steps lead to the return |
| `StreamPump.RelayKeepsOrder` | pkg/domain/etcdproxy/proxy.go:351-404 | Each side has sent a prefix of what the other received, at most one behind, all of it after a clean end; the half-close happens once and after every request |
| `StreamPump.NilIffBothClean` | pkg/domain/etcdproxy/proxy.go:319-345 | pumpBidi waits for both pumps and returns nil exactly if both ended cleanly; an error it returns is one of theirs |
| `RoundRobin.Pool.Pick` | pkg/domain/etcdproxy/pool.go:216-220 | The counter before the atomic add selects, wrapping at 2^64 |
| `RoundRobin.Pool.PickMany` | pkg/domain/etcdproxy/pool.go:216-220 | N picks give each proxy exactly the counted number of picks |
| `RoundRobin.FairBeforeWrap` | pkg/domain/etcdproxy/pool.go:216-220 | Up to 2^64 picks of a fresh pool give every proxy the floor or the ceiling of N/n |
| `RoundRobin.FairForever` | pkg/domain/etcdproxy/pool.go:216-220 | If n divides 2^64 this holds for any number of picks from any counter |
| `RoundRobin.UnfairAfterWrap` | pkg/domain/etcdproxy/pool.go:216-220 | If it does not, the first pick after the wrap breaks it |
| `RoundRobin.FairIffDivides` | pkg/domain/etcdproxy/pool.go:216-220 | Even for ever exactly if n divides 2^64 |
| `RoundRobin.ConfiguredPoolsAreFair` | pkg/domain/etcdproxy/hub.go:21-21 | Both configured sizes are fair for ever |
| `AuthRecovery.Recovery.RecordResult` | pkg/domain/etcdproxy/relay.go:140-161 | One step of the counter, which stays below the threshold |
| `AuthRecovery.Recovery.RecordAll` | pkg/domain/etcdproxy/relay.go:111-161 | Over every history the number of recoveries is the sum over maximal runs of Unauthenticated answers of length divided by five |
| `AuthRecovery.CountedIs` | pkg/domain/etcdproxy/relay.go:140-161 | The same with failures already counted, which the leading run continues |
| `AuthRecovery.RecoveriesCountRuns` | pkg/domain/etcdproxy/relay.go:111-161 | The counting function against the independent definition by maximal runs |
| `Heartbeat.Beater.EnsureSecret` | pkg/domain/registry/heartbeat.go:303-347 | Own entries stored, foreign entries and other Secrets kept; fails exactly if the Secret exists under another controller |
| `Heartbeat.SecretNamesDiffer` | pkg/domain/registry/heartbeat.go:33-35 | Servers do not share Secrets |
| `Heartbeat.Beater.Reregister` | pkg/domain/registry/heartbeat.go:357-398 | Healthy afterwards unless obstructed, nobody else's objects touched |
| `Heartbeat.Beater.Beat` | pkg/domain/registry/heartbeat.go:227-266 | One undisturbed beat before shutdown heals any state; during shutdown an object that is there is still refreshed and a missing one stays missing |
| `Heartbeat.Beater.Reconcile` | pkg/domain/registry/heartbeat.go:115-138 | Acts exactly on a missing object before shutdown, and then heals |
| `Heartbeat.ExclusiveStep` | pkg/domain/registry/heartbeat.go:115-266 | Every step, API errors anywhere included, keeps mutual exclusion and that nobody is about to register after shutdown |
| `Heartbeat.QuietAfterShutdown` | pkg/domain/registry/heartbeat.go:193-266 | After the flag is up nothing is ever created, over every run |
| `Heartbeat.DeregisteredStaysGone` | pkg/domain/registry/heartbeat.go:193-266 | After a successful Deregister no interleaving of this process recreates the object |
| `Heartbeat.MutexLetsWork` | pkg/domain/registry/heartbeat.go:193-266 | Whenever the mutex is free a beat recreates a missing object unless the process shuts down, and a Deregister goes through |
| `Heartbeat.FlagAloneIsNotEnough` | pkg/domain/registry/heartbeat.go:89-106 | Without the mutex there is a run that recreates it |
| `AdminBindings.Controller.ReconcileBindings` | pkg/domain/adminrbac/controller.go:217-288 | The three loops make one pass: missing groups bound where their name is free, one binding of every undesired group removed |
| `AdminBindings.Controller.IndexByGroup` | pkg/domain/adminrbac/controller.go:217-235 | Every managed group is indexed, by a managed binding annotated with it |
| `AdminBindings.Controller.DeleteStale` | pkg/domain/adminrbac/controller.go:249-263 | Exactly the indexed bindings of undesired groups are removed, in whatever order |
| `AdminBindings.PassFacts` | pkg/domain/adminrbac/controller.go:217-288 | What a pass keeps, adds and removes; stale bindings strictly decrease |
| `AdminBindings.PassLeavesOthersAlone` | pkg/domain/adminrbac/controller.go:217-263 | Bindings without the label are neither touched nor added |
| `AdminBindings.PassBinds` | pkg/domain/adminrbac/controller.go:265-288 | A desired group is bound afterwards exactly if it was before or its name was free |
| `AdminBindings.BlockedIsForever` | pkg/domain/adminrbac/controller.go:265-288 | A blocked group stays blocked |
| `AdminBindings.UnblockedStays` | pkg/domain/adminrbac/controller.go:217-288 | Without blocked groups a pass creates none, and converges once nothing is stale |
| `AdminBindings.StaleShrinks` | pkg/domain/adminrbac/controller.go:217-263 | Along any passes the stale bindings shrink by at least one each until none is left |
| `AdminBindings.ConvergedIsFixpoint` | pkg/domain/adminrbac/controller.go:217-288 | Once the managed groups are the desired ones a pass writes nothing |
| `AdminBindings.ConvergedMeans` | pkg/domain/adminrbac/controller.go:217-288 | Converged means that every managed binding is annotated with a desired group and every desired group has one |
| `AdminBindings.ConvergesIffUnblocked` | pkg/domain/adminrbac/controller.go:217-288 | After one pass more than there are stale bindings the managed groups are the desired ones, if and only if none was blocked at the start |
| `ZoneLease.LeaseNameIsAlmostInjective` | pkg/domain/zonelease/locker.go:175-181 | Two keys share a Lease exactly if they are equal or one is global and the other is spelled `global` |
| `ZoneLease.ZoneKeysAreSeparate` | pkg/domain/zonelease/locker.go:63-69 | A key made of region and zone shares its Lease with no other key |
| `ZoneLease.KeyIsUniqueIff` | pkg/domain/zonelease/locker.go:63-69 | A region and a zone have a key of their own exactly if the region has no hyphen after its first character and the zone none before its last |
| `ZoneLease.Locker.TryAcquire` | pkg/domain/zonelease/locker.go:143-275 | Acquires exactly if the process is not barred from the key and the Lease is missing, its own, or not renewed for 45 s; then holds it from now, otherwise nothing changes |
| `ZoneLease.WriteStep` | pkg/domain/zonelease/locker.go:188-275 | A create, renewal or takeover that lands keeps the grants of different holders apart, with any number of attempts per holder |
| `ZoneLease.InvariantRun` | pkg/domain/zonelease/locker.go:143-275 | The same over every run of reads, decisions and writes by any processes |
| `ZoneLease.UndisturbedAttempt` | pkg/domain/zonelease/locker.go:143-171 | In any state an attempt nobody interferes with goes ahead exactly if the Lease is free in that sense, and then gets it |
| `ZoneLease.StaleLeaseIsTakenOver` | pkg/domain/zonelease/locker.go:232-262 | From every reachable state whoever tries 46 s later can get the Lease |
| `ZoneLease.AtMostOneHolder` | pkg/domain/zonelease/locker.go:143-320 | Over every run, within a lease duration of a grant no other process has one |

## Left out

- Finalizers and condition lists are sets and maps: their order, transition times and LastProbeTime are not modelled.
- Hardware inventory and Talos versions recorded by a probe, and the text of the last probe error: the discovered addresses stand for what a probe finds.
- A no-op update counts as a write and bumps the version, as the strictest reading of the API.
- The undisturbed methods see NotFound, Conflict and AlreadyExists; other API errors end a reconcile early, which the interleaved models cover as a reconcile that stops.
- The order of a List and of map iteration is arbitrary in the model; which of several child errors is reported is not.
- Error and log texts, and the times after which a reconcile is requeued.
- Users may create, edit and delete Instances, pools and clusters at any time, but are taken not to write claim labels, the two finalizers or Instance conditions by hand.
- A negative replica count makes the pool reconcile panic; the pool methods therefore require it to be non-negative.
- InstanceReset.DialAddress: requires a routable discovered address or a configured interface, because the source panics without either. A reset that dials requires it of the target and of the owning cluster's control-plane members; all other Instances may lack both. Past the timeout the source would panic before it gives up, so the release by timeout carries the same hypothesis.
- The TalosCluster teardown loop: its resets, clearings and releases of members are steps of the lifecycle model, its own progress, its timeout and the removal of the cluster finalizer are not; the bootstrap model is about a cluster that is not being deleted, and about a Secret nobody deletes.
- Bootstrap.ControlPlaneFirst: requires disjoint pools, because the source does not reject a pool that is referenced twice.
- The Talos calls themselves (probe, ApplyConfiguration, Bootstrap, health check, Reset), Helm, CRD and pod checks: each is an outcome chosen freely.
- Signatures, certificates, the token encoding and time formatting: a signature is identified with the key and the claims it covers, parsing undoes formatting.
- CEL evaluation of a single expression: a function from the expression to a value or an error.
- Chart and namespace resolution of addons; the embedded default priorities are taken as constants.
- Identity rotation by the zone: an arbitrary change of the Secret.
- Lists inside values are copied whole by the merge and are values in the model; only maps are heap objects, and a nil map is an empty one.
- Goroutines of the relay and of the heartbeat: state machines over values in which each stream, channel, store or lock operation is one step.
- Holder identities of Leases are taken not to be empty, and all processes to use the default lease duration.
- Lease clocks are taken to agree and the Lease is not deleted; a reconcile that outlives the lease duration is not excluded by the lease.
- Heartbeat.Beater.Beat: the spec and the configuration copied into the object are not modelled, because nothing reads them back.
- AdminBindings.ConvergesIffUnblocked: requires distinct names for the desired groups, which the content hash provides; parsing of the group list is not modelled.
- The unary proxy calls, pool dialling, the user interface, the command line, configuration, key management, CPU topology, TTL handling and CRD migration: they forward, copy or render and would only add easy members.
