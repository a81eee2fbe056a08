/** Addons install in priority waves: nothing before its lower-priority siblings are Ready. */
module AddonWaves {
  import opened ApiStore

  const DefaultPriority := 100

  /** The embedded defaults; zero would mean that the file sets no priority. */
  const EmbeddedPriorities: map<string, int> :=
    map["gateway-api-crds" := 50, "cilium" := 100, "cert-manager" := 100, "external-dns" := 100]

  datatype Spec = Spec(enabled: Option<bool>, releaseName: string, priority: Option<int>)
  datatype Addon = Addon(name: string, spec: Spec, ready: bool)

  predicate Enabled(spec: Spec) { spec.enabled.None? || spec.enabled.value }

  function ReleaseName(a: Addon): string {
    if a.spec.releaseName != "" then a.spec.releaseName else a.name
  }

  function EffectivePriority(a: Addon): int {
    if a.spec.priority.Some? then a.spec.priority.value
    else if ReleaseName(a) !in EmbeddedPriorities then DefaultPriority
    else if EmbeddedPriorities[ReleaseName(a)] != 0 then EmbeddedPriorities[ReleaseName(a)]
    else DefaultPriority
  }

  /** Every enabled sibling of an earlier wave is Ready. */
  ghost predicate Gate(addons: map<string, Addon>, name: string)
    requires name in addons
  {
    forall s :: s in addons && Earlier(addons, s, name) ==> addons[s].ready
  }

  predicate Earlier(addons: map<string, Addon>, s: string, name: string)
    requires s in addons && name in addons
  {
    s != name && Enabled(addons[s].spec) && EffectivePriority(addons[s]) < EffectivePriority(addons[name])
  }

  /**
   The wave an addon belongs to, as the priority field is documented: what its spec says, else 50
   for a release called gateway-api-crds, else 100.
   */
  ghost function WaveOf(a: Addon): int {
    match a.spec.priority
    case Some(p) => p
    case None =>
      var release := if a.spec.releaseName == "" then a.name else a.spec.releaseName;
      if release == "gateway-api-crds" then 50 else 100
  }

  lemma PriorityIsWave(a: Addon)
    ensures EffectivePriority(a) == WaveOf(a)
  {
    var embedded := ["gateway-api-crds", "cilium", "cert-manager", "external-dns"];
    assert |embedded[0]| == 16 && |embedded[1]| == 6 && |embedded[2]| == 12 && embedded[3][0] == 'e';
    assert EmbeddedPriorities.Keys == {embedded[0], embedded[1], embedded[2], embedded[3]};
  }

  /** The sibling has to be Ready before the addon may install: it is not disabled and of a lower wave. */
  ghost predicate GoesBefore(sibling: Addon, a: Addon) {
    sibling.spec.enabled != Some(false) && WaveOf(sibling) < WaveOf(a)
  }

  /** The spec sets no priority, and the release is an ordinary one. */
  predicate Ordinary(spec: Spec) {
    spec.priority.None? && spec.releaseName !in {"", "gateway-api-crds"}
  }

  /**
   What an open gate means for a sibling that is not Ready, in terms of what the two specs say:
   explicit priorities decide, an addon that sets none counts as 100, and the Gateway API CRDs come
   before all that do.
   */
  lemma GateByPriority(addons: map<string, Addon>, s: string, name: string)
    requires name in addons && Gate(addons, name)
    requires s in addons && s != name && !addons[s].ready && addons[s].spec.enabled != Some(false)
    ensures var sib, own := addons[s].spec, addons[name].spec;
      && (sib.priority.Some? && own.priority.Some? ==> own.priority.value <= sib.priority.value)
      && (sib.priority.Some? && Ordinary(own) ==> 100 <= sib.priority.value)
      && (Ordinary(sib) && own.priority.Some? ==> own.priority.value <= 100)
      && !(sib.priority.None? && sib.releaseName == "gateway-api-crds" && Ordinary(own))
  {
    PriorityIsWave(addons[s]);
    PriorityIsWave(addons[name]);
    assert !Earlier(addons, s, name);
  }

  /** A cluster's addons are stored under their names. */
  ghost predicate Named(addons: map<string, Addon>) {
    forall n :: n in addons ==> addons[n].name == n
  }

  // ----- one reconcile

  /** How far a reconcile past its gate gets, and what it finds. */
  datatype Outcome =
    | NotBootstrapped
    | Unresolvable
    | SecretSyncFailed
    | InstallFailed
    | CheckError
    | NotHealthy
    | Healthy

  /** The chart's Install was called. */
  predicate Installs(o: Outcome) { o.InstallFailed? || o.CheckError? || o.NotHealthy? || o.Healthy? }

  /** The Ready condition afterwards. */
  function ReadyAfter(o: Outcome, ready: bool): bool {
    if o.NotBootstrapped? || o.CheckError? then ready else o.Healthy?
  }

  class Cluster {
    var addons: map<string, Addon>
    var installs: seq<string>

    method WaitForEarlierWaves(name: string) returns (pass: bool)
      requires name in addons && Named(addons)
      ensures pass <==> Gate(addons, name)
      ensures pass <==> forall s :: s in addons && s != name && GoesBefore(addons[s], addons[name]) ==> addons[s].ready
    {
      forall s | s in addons ensures EffectivePriority(addons[s]) == WaveOf(addons[s]) {
        PriorityIsWave(addons[s]);
      }
      assert forall s :: s in addons && s != name ==>
        (Earlier(addons, s, name) <==> GoesBefore(addons[s], addons[name]));
      var mine := EffectivePriority(addons[name]);
      var rest := addons.Keys;
      while rest != {}
        invariant rest <= addons.Keys
        invariant forall s :: s in addons && s !in rest && Earlier(addons, s, name) ==> addons[s].ready
      {
        var s :| s in rest;
        rest := rest - {s};
        var sibling := addons[s];
        if sibling.name == name || !Enabled(sibling.spec) {
          continue;
        }
        if EffectivePriority(sibling) >= mine {
          continue;
        }
        if !sibling.ready {
          assert Earlier(addons, s, name);
          return false;
        }
      }
      pass := true;
    }

    /** Reconciles one addon; `outcome` is what the cluster answers if it is asked. */
    method Reconcile(name: string, outcome: Outcome)
      requires Named(addons)
      modifies this
      ensures Named(addons)
      ensures name !in old(addons) ==> addons == old(addons) && installs == old(installs)
      ensures name in old(addons) ==>
        var was := old(addons)[name];
        var runs := was.spec.enabled != Some(false) && Gate(old(addons), name);
        var ready := outcome == Healthy || (outcome in {NotBootstrapped, CheckError} && was.ready);
        && addons == (if runs then old(addons)[name := was.(ready := ready)] else old(addons))
        && installs == (if runs && outcome in {InstallFailed, CheckError, NotHealthy, Healthy}
                        then old(installs) + [name] else old(installs))
    {
      if name !in addons || !Enabled(addons[name].spec) {
        return;
      }
      var pass := WaitForEarlierWaves(name);
      assert addons[name].(ready := addons[name].ready) == addons[name];
      if !pass || outcome.NotBootstrapped? {
        return;
      }
      if outcome.Unresolvable? || outcome.SecretSyncFailed? {
        SetReady(name, false);
        return;
      }
      installs := installs + [name];
      if outcome.InstallFailed? {
        SetReady(name, false);
        return;
      }
      if outcome.CheckError? {
        return;
      }
      SetReady(name, outcome.Healthy?);
    }

    /** Reconciles the addons one after another, each gated install succeeding. */
    method ReconcileRound(names: seq<string>)
      requires Named(addons)
      modifies this
      ensures Named(addons) && addons == Steps(old(addons), names)
    {
      for i := 0 to |names|
        invariant Named(addons) && Steps(addons, names[i..]) == Steps(old(addons), names)
      {
        assert names[i..][1..] == names[i + 1..];
        Reconcile(names[i], Healthy);
      }
    }

    /** As many rounds as there are distinct priorities make every enabled addon Ready, in whatever order. */
    method ReconcileRounds(rounds: seq<seq<string>>)
      requires Named(addons) && (forall r :: r in rounds ==> IsRound(addons, r)) && |rounds| >= |Priorities(addons)|
      modifies this
      ensures Named(addons) && AllReady(addons) && Progressed(old(addons), addons)
    {
      for i := 0 to |rounds|
        invariant Named(addons) && Progressed(old(addons), addons)
        invariant Rounds(addons, rounds[i..]) == Rounds(old(addons), rounds)
      {
        assert rounds[i..][1..] == rounds[i + 1..];
        StepsProgress(addons, rounds[i]);
        ReconcileRound(rounds[i]);
      }
      WavesConverge(old(addons), rounds);
    }

    /** Writes the condition only if it changes. */
    method SetReady(name: string, ready: bool)
      requires name in addons
      modifies this`addons
      ensures addons == old(addons)[name := old(addons)[name].(ready := ready)]
    {
      if addons[name].ready != ready {
        addons := addons[name := addons[name].(ready := ready)];
      } else {
        assert addons[name].(ready := ready) == addons[name];
      }
    }
  }

  // ----- fetch, gate, install and status write are separate steps

  /** Every state the cluster's addons were in, the current one last. */
  type History = seq<map<string, Addon>>

  /** A reconcile past its Get, and one past its gate: indices of the states the two reads saw. */
  datatype Pass = Pass(fetched: nat, seen: nat)

  /** An Install that was issued, with the states its reconcile saw and the one it was issued in. */
  datatype Install = Install(name: string, pass: Pass, at: nat)

  datatype World = World(
    history: History,
    fetched: map<string, nat>,
    passed: map<string, Pass>,
    installing: map<string, Pass>,
    log: seq<Install>)

  /**
   `Change` is anything users and other controllers do, `Stop` a reconcile that fails or crashes;
   `landed` says whether a status write was accepted.
   */
  datatype Action =
    | Change(addons: map<string, Addon>)
    | Fetch(name: string)
    | PassGate(name: string)
    | FailGate(name: string)
    | IssueInstall(name: string)
    | Report(name: string, outcome: Outcome, landed: bool)
    | Stop(name: string)

  function Now(h: History): map<string, Addon>
    requires h != []
  {
    h[|h| - 1]
  }

  /** The gate as its loop sees it: the siblings of one List against the addon's own earlier copy. */
  ghost predicate Clear(siblings: map<string, Addon>, name: string, own: Addon) {
    forall s :: s in siblings && s != name && Enabled(siblings[s].spec) ==>
      EffectivePriority(siblings[s]) < EffectivePriority(own) ==> siblings[s].ready
  }

  ghost predicate Possible(w: World, a: Action)
    requires w.history != []
  {
    match a
    case Change(addons) => true
    case Fetch(name) => name in Now(w.history) && Enabled(Now(w.history)[name].spec)
    case PassGate(name) => HasFetched(w, name) && Clear(Now(w.history), name, w.history[w.fetched[name]][name])
    case FailGate(name) => HasFetched(w, name) && !Clear(Now(w.history), name, w.history[w.fetched[name]][name])
    case IssueInstall(name) => name in w.passed
    case Report(name, outcome, landed) => name in w.installing && Installs(outcome)
    case Stop(name) => true
  }

  /** A reconcile holds the addon as it was in one of the states. */
  predicate HasFetched(w: World, name: string) {
    name in w.fetched && w.fetched[name] < |w.history| && name in w.history[w.fetched[name]]
  }

  /** The addons after an install, as far as the status write landed. */
  function Installed(addons: map<string, Addon>, name: string, outcome: Outcome, landed: bool): map<string, Addon> {
    if landed && name in addons
    then addons[name := addons[name].(ready := ReadyAfter(outcome, addons[name].ready))]
    else addons
  }

  ghost function Apply(w: World, a: Action): World
    requires w.history != [] && Possible(w, a)
  {
    var now := |w.history| - 1;
    match a
    case Change(addons) => w.(history := w.history + [addons])
    case Fetch(name) => w.(fetched := w.fetched[name := now])
    case PassGate(name) => w.(fetched := w.fetched - {name}, passed := w.passed[name := Pass(w.fetched[name], now)])
    case FailGate(name) => w.(fetched := w.fetched - {name})
    case IssueInstall(name) =>
      w.(passed := w.passed - {name}, installing := w.installing[name := w.passed[name]],
         log := w.log + [Install(name, w.passed[name], now)])
    case Report(name, outcome, landed) =>
      w.(history := w.history + [Installed(Now(w.history), name, outcome, landed)], installing := w.installing - {name})
    case Stop(name) =>
      w.(fetched := w.fetched - {name}, passed := w.passed - {name}, installing := w.installing - {name})
  }

  ghost predicate IsRun(w: World, actions: seq<Action>)
    requires w.history != []
    decreases |actions|
  {
    actions == [] || (Possible(w, actions[0]) && IsRun(Apply(w, actions[0]), actions[1..]))
  }

  ghost function After(w: World, actions: seq<Action>): (r: World)
    requires w.history != [] && IsRun(w, actions)
    ensures r.history != []
    decreases |actions|
  {
    if actions == [] then w else After(Apply(w, actions[0]), actions[1..])
  }

  /** Nothing is in flight. */
  predicate Initial(w: World) {
    w.history != [] && w.fetched == map[] && w.passed == map[] && w.installing == map[] && w.log == []
  }

  /** The reconcile fetched an enabled addon, and a List no older than that showed all earlier waves Ready. */
  ghost predicate Gated(h: History, name: string, p: Pass) {
    && p.fetched <= p.seen < |h|
    && name in h[p.fetched] && Enabled(h[p.fetched][name].spec)
    && Clear(h[p.seen], name, h[p.fetched][name])
  }

  ghost predicate AllGated(w: World) {
    && w.history != []
    && (forall n :: n in w.fetched ==>
          w.fetched[n] < |w.history| && n in w.history[w.fetched[n]] && Enabled(w.history[w.fetched[n]][n].spec))
    && (forall n :: n in w.passed ==> Gated(w.history, n, w.passed[n]))
    && (forall n :: n in w.installing ==> Gated(w.history, n, w.installing[n]))
    && (forall e :: e in w.log ==> Gated(w.history, e.name, e.pass) && e.pass.seen <= e.at < |w.history|)
  }

  lemma GatedStays(h: History, name: string, p: Pass, addons: map<string, Addon>)
    requires Gated(h, name, p)
    ensures Gated(h + [addons], name, p)
  {
  }

  /** A new state at the end of the history leaves every gate as it was. */
  lemma AllGatedStays(w: World, addons: map<string, Addon>)
    requires AllGated(w)
    ensures AllGated(w.(history := w.history + [addons]))
  {
    var h' := w.history + [addons];
    forall n | n in w.passed ensures Gated(h', n, w.passed[n]) {
      GatedStays(w.history, n, w.passed[n], addons);
    }
    forall n | n in w.installing ensures Gated(h', n, w.installing[n]) {
      GatedStays(w.history, n, w.installing[n], addons);
    }
    forall e | e in w.log ensures Gated(h', e.name, e.pass) && e.pass.seen <= e.at < |h'| {
      GatedStays(w.history, e.name, e.pass, addons);
    }
  }

  lemma GatedStep(w: World, a: Action)
    requires AllGated(w) && Possible(w, a)
    ensures AllGated(Apply(w, a))
  {
    if a.Change? {
      AllGatedStays(w, a.addons);
    } else if a.Report? {
      AllGatedStays(w.(installing := w.installing - {a.name}), Installed(Now(w.history), a.name, a.outcome, a.landed));
    }
  }

  lemma {:induction false} GatedRun(w: World, actions: seq<Action>)
    requires AllGated(w) && IsRun(w, actions)
    ensures AllGated(After(w, actions))
    decreases |actions|
  {
    if actions != [] {
      GatedStep(w, actions[0]);
      GatedRun(Apply(w, actions[0]), actions[1..]);
    }
  }

  /**
   Over every run, whatever users change, whatever regresses and however reconciles interleave:
   an Install is issued only after a List of the siblings, taken since its own addon was fetched,
   showed every enabled sibling of an earlier wave Ready.
   */
  lemma InstallsAreGated(w: World, actions: seq<Action>, e: Install)
    requires Initial(w) && IsRun(w, actions) && e in After(w, actions).log
    ensures Gated(After(w, actions).history, e.name, e.pass) && e.pass.seen <= e.at < |After(w, actions).history|
  {
    GatedRun(w, actions);
  }

  // ----- while nothing is edited and nothing regresses

  /** Same addons, and whatever was Ready still is. */
  ghost predicate Progressed(before: map<string, Addon>, after: map<string, Addon>) {
    && before.Keys == after.Keys
    && forall n :: n in before ==>
         after[n] == before[n].(ready := after[n].ready) && (before[n].ready ==> after[n].ready)
  }

  lemma GateIsMonotone(before: map<string, Addon>, after: map<string, Addon>, name: string)
    requires Progressed(before, after) && name in before && Gate(before, name)
    ensures Gate(after, name)
  {
    forall s | s in after && Earlier(after, s, name) ensures after[s].ready {
      assert Earlier(before, s, name);
    }
  }

  /** The Ready addons form an initial segment of the waves. */
  ghost predicate InOrder(addons: map<string, Addon>) {
    forall n :: n in addons && Enabled(addons[n].spec) && addons[n].ready ==> Gate(addons, n)
  }

  /** The action edits nothing and takes no Ready away. */
  predicate Steady(w: World, a: Action)
    requires w.history != []
  {
    && !a.Change?
    && (a.Report? && a.landed && a.name in Now(w.history) && Now(w.history)[a.name].ready ==>
         ReadyAfter(a.outcome, true))
  }

  ghost predicate SteadyRun(w: World, actions: seq<Action>)
    requires w.history != [] && IsRun(w, actions)
    decreases |actions|
  {
    actions == [] || (Steady(w, actions[0]) && SteadyRun(Apply(w, actions[0]), actions[1..]))
  }

  ghost predicate Growing(h: History) {
    forall i, j :: 0 <= i <= j < |h| ==> Progressed(h[i], h[j])
  }

  ghost predicate Open(h: History, e: Install) {
    e.at < |h| && e.name in h[e.at] && Gate(h[e.at], e.name)
  }

  ghost predicate Waves(w: World) {
    && AllGated(w) && Growing(w.history) && InOrder(Now(w.history))
    && (forall e :: e in w.log ==> Open(w.history, e))
  }

  /** A gate seen clear is still clear: nothing regressed since. */
  lemma StillClear(h: History, name: string, p: Pass)
    requires h != [] && Growing(h) && Gated(h, name, p)
    ensures name in Now(h) && Gate(Now(h), name)
  {
    var own, seen, now := h[p.fetched], h[p.seen], Now(h);
    assert Progressed(own, seen) && Progressed(seen, now);
    forall s | s in seen && Earlier(seen, s, name) ensures seen[s].ready {
      assert EffectivePriority(seen[name]) == EffectivePriority(own[name]);
    }
    GateIsMonotone(seen, now, name);
  }

  lemma Grows(h: History, addons: map<string, Addon>)
    requires h != [] && Growing(h) && Progressed(Now(h), addons)
    ensures Growing(h + [addons])
  {
    forall i | 0 <= i < |h| ensures Progressed(h[i], addons) {
      assert Progressed(h[i], Now(h));
    }
  }

  lemma InstallKeepsOrder(before: map<string, Addon>, after: map<string, Addon>, name: string)
    requires InOrder(before) && name in before && Gate(before, name) && Progressed(before, after)
    requires forall n :: n in before && n != name ==> after[n] == before[n]
    ensures InOrder(after)
  {
    forall n | n in after && Enabled(after[n].spec) && after[n].ready ensures Gate(after, n) {
      GateIsMonotone(before, after, n);
    }
  }

  lemma SteadyInstall(now: map<string, Addon>, name: string, outcome: Outcome, landed: bool)
    requires landed && name in now && now[name].ready ==> ReadyAfter(outcome, true)
    ensures Progressed(now, Installed(now, name, outcome, landed))
    ensures forall n :: n in now && n != name ==> Installed(now, name, outcome, landed)[n] == now[n]
  {
  }

  /** The status write of a gated install keeps the order. */
  lemma ReportKeepsOrder(h: History, name: string, p: Pass, outcome: Outcome, landed: bool)
    requires h != [] && Growing(h) && InOrder(Now(h)) && Gated(h, name, p)
    requires landed && name in Now(h) && Now(h)[name].ready ==> ReadyAfter(outcome, true)
    ensures InOrder(Installed(Now(h), name, outcome, landed))
  {
    StillClear(h, name, p);
    SteadyInstall(Now(h), name, outcome, landed);
    InstallKeepsOrder(Now(h), Installed(Now(h), name, outcome, landed), name);
  }

  /** A steady step only ever adds progress to the history. */
  lemma GrowingStep(w: World, a: Action)
    requires w.history != [] && Growing(w.history) && Possible(w, a) && Steady(w, a)
    ensures Growing(Apply(w, a).history) && Progressed(Now(w.history), Now(Apply(w, a).history))
  {
    if a.Report? {
      SteadyInstall(Now(w.history), a.name, a.outcome, a.landed);
      Grows(w.history, Installed(Now(w.history), a.name, a.outcome, a.landed));
    }
  }

  lemma OpenStays(h: History, e: Install, addons: map<string, Addon>)
    requires Open(h, e)
    ensures Open(h + [addons], e)
  {
  }

  lemma WavesStep(w: World, a: Action)
    requires Waves(w) && Possible(w, a) && Steady(w, a)
    ensures Waves(Apply(w, a))
  {
    GatedStep(w, a);
    GrowingStep(w, a);
    if a.Report? {
      ReportKeepsOrder(w.history, a.name, w.installing[a.name], a.outcome, a.landed);
      forall e | e in w.log ensures Open(Apply(w, a).history, e) {
        OpenStays(w.history, e, Installed(Now(w.history), a.name, a.outcome, a.landed));
      }
    } else if a.IssueInstall? {
      StillClear(w.history, a.name, w.passed[a.name]);
    }
  }

  lemma {:induction false} WavesRun(w: World, actions: seq<Action>)
    requires Waves(w) && IsRun(w, actions) && SteadyRun(w, actions)
    ensures Waves(After(w, actions))
    decreases |actions|
  {
    if actions != [] {
      WavesStep(w, actions[0]);
      WavesRun(Apply(w, actions[0]), actions[1..]);
    }
  }

  /**
   While nothing is edited and Ready does not regress, the gate still holds in the very state
   the Install is issued in, and no addon is Ready before an earlier wave is.
   */
  lemma WavesInOrder(w: World, actions: seq<Action>, e: Install)
    requires Initial(w) && |w.history| == 1 && InOrder(w.history[0]) && IsRun(w, actions) && SteadyRun(w, actions)
    ensures InOrder(Now(After(w, actions).history))
    ensures e in After(w, actions).log ==> Open(After(w, actions).history, e)
  {
    WavesRun(w, actions);
  }

  // ----- convergence

  /** A reconcile of `name` whose gated install succeeds. */
  ghost function Step(addons: map<string, Addon>, name: string): map<string, Addon> {
    if name in addons && Enabled(addons[name].spec) && Gate(addons, name)
      then addons[name := addons[name].(ready := true)] else addons
  }

  ghost function Steps(addons: map<string, Addon>, names: seq<string>): map<string, Addon>
    decreases |names|
  {
    if names == [] then addons else Steps(Step(addons, names[0]), names[1..])
  }

  /** A round reconciles every enabled addon at least once, in any order and any number of times. */
  ghost predicate IsRound(addons: map<string, Addon>, names: seq<string>) {
    forall n :: n in addons && Enabled(addons[n].spec) ==> n in names
  }

  ghost function Rounds(addons: map<string, Addon>, rounds: seq<seq<string>>): map<string, Addon>
    decreases |rounds|
  {
    if rounds == [] then addons else Rounds(Steps(addons, rounds[0]), rounds[1..])
  }

  /** The priorities of enabled addons, and of those still not Ready. */
  ghost function Priorities(addons: map<string, Addon>): set<int> {
    set n | n in addons && Enabled(addons[n].spec) :: EffectivePriority(addons[n])
  }

  ghost function Waiting(addons: map<string, Addon>): set<int> {
    set n | n in addons && Enabled(addons[n].spec) && !addons[n].ready :: EffectivePriority(addons[n])
  }

  ghost predicate AllReady(addons: map<string, Addon>) {
    forall n :: n in addons && Enabled(addons[n].spec) ==> addons[n].ready
  }

  lemma Pick<T>(s: set<T>) returns (x: T)
    requires s != {}
    ensures x in s
  {
    x :| x in s;
  }

  lemma {:induction false} Least(s: set<int>) returns (m: int)
    requires s != {}
    ensures m in s && forall x :: x in s ==> m <= x
  {
    var x := Pick(s);
    if s == {x} {
      m := x;
    } else {
      var rest := Least(s - {x});
      m := if x < rest then x else rest;
      assert forall y :: y in s ==> y == x || y in s - {x};
    }
  }

  /** The addons of the least waiting priority pass the gate. */
  lemma LeastPasses(addons: map<string, Addon>, p: int, name: string)
    requires (forall x :: x in Waiting(addons) ==> p <= x) && name in addons && EffectivePriority(addons[name]) <= p
    ensures Gate(addons, name)
  {
    assert forall s :: s in addons && Enabled(addons[s].spec) && !addons[s].ready ==>
      EffectivePriority(addons[s]) in Waiting(addons);
  }

  /** While some enabled addon is not Ready, at least one such addon passes its gate. */
  lemma SomeoneMayGo(addons: map<string, Addon>) returns (name: string)
    requires !AllReady(addons)
    ensures name in addons && Enabled(addons[name].spec) && !addons[name].ready && Gate(addons, name)
  {
    var n :| n in addons && Enabled(addons[n].spec) && !addons[n].ready;
    assert EffectivePriority(addons[n]) in Waiting(addons);
    var p := Least(Waiting(addons));
    name :| name in addons && Enabled(addons[name].spec) && !addons[name].ready && EffectivePriority(addons[name]) == p;
    LeastPasses(addons, p, name);
  }

  lemma {:induction false} StepsProgress(addons: map<string, Addon>, names: seq<string>)
    ensures Progressed(addons, Steps(addons, names))
    decreases |names|
  {
    if names != [] { StepsProgress(Step(addons, names[0]), names[1..]); }
  }

  /** Whoever passes the gate at the start of a round is Ready at its end. */
  lemma {:induction false} PassingBecomesReady(addons: map<string, Addon>, names: seq<string>, name: string)
    requires name in names && name in addons && Enabled(addons[name].spec) && Gate(addons, name)
    ensures name in Steps(addons, names) && Steps(addons, names)[name].ready
    decreases |names|
  {
    var next := Step(addons, names[0]);
    assert Progressed(addons, next);
    StepsProgress(next, names[1..]);
    if names[0] != name {
      GateIsMonotone(addons, next, name);
      PassingBecomesReady(next, names[1..], name);
    }
  }

  /** Each round takes at least the least waiting priority off the list. */
  lemma RoundShrinks(addons: map<string, Addon>, names: seq<string>, p: int)
    requires IsRound(addons, names) && p in Waiting(addons) && forall x :: x in Waiting(addons) ==> p <= x
    ensures Waiting(Steps(addons, names)) <= Waiting(addons) - {p}
  {
    var after := Steps(addons, names);
    StepsProgress(addons, names);
    forall n | n in after && Enabled(after[n].spec) && !after[n].ready
      ensures EffectivePriority(after[n]) in Waiting(addons) && EffectivePriority(after[n]) != p
    {
      assert !addons[n].ready && EffectivePriority(addons[n]) == EffectivePriority(after[n]);
      if EffectivePriority(addons[n]) == p {
        LeastPasses(addons, p, n);
        PassingBecomesReady(addons, names, n);
      }
    }
  }

  lemma {:induction false} SmallerSet(a: set<int>, b: set<int>)
    requires a <= b
    ensures |a| <= |b|
  {
    assert b == a + (b - a);
  }

  lemma {:induction false} RoundsConverge(addons: map<string, Addon>, rounds: seq<seq<string>>)
    requires forall r :: r in rounds ==> IsRound(addons, r)
    requires |Waiting(addons)| <= |rounds|
    ensures AllReady(Rounds(addons, rounds))
    decreases |rounds|
  {
    assert forall n :: n in addons && Enabled(addons[n].spec) && !addons[n].ready ==>
      EffectivePriority(addons[n]) in Waiting(addons);
    if rounds != [] {
      var after := Steps(addons, rounds[0]);
      StepsProgress(addons, rounds[0]);
      assert Waiting(after) <= Waiting(addons) by {
        forall n | n in after && Enabled(after[n].spec) && !after[n].ready
          ensures EffectivePriority(after[n]) in Waiting(addons)
        {
          assert EffectivePriority(addons[n]) == EffectivePriority(after[n]);
        }
      }
      if Waiting(addons) != {} {
        var p := Least(Waiting(addons));
        RoundShrinks(addons, rounds[0], p);
        SmallerSet(Waiting(after), Waiting(addons) - {p});
      } else {
        assert Waiting(after) == {};
      }
      forall r | r in rounds[1..] ensures IsRound(after, r) {
        assert r in rounds;
      }
      RoundsConverge(after, rounds[1..]);
    }
  }

  /** If gated installs succeed, all addons are Ready after as many rounds as there are distinct priorities. */
  lemma WavesConverge(addons: map<string, Addon>, rounds: seq<seq<string>>)
    requires forall r :: r in rounds ==> IsRound(addons, r)
    requires |rounds| >= |Priorities(addons)|
    ensures AllReady(Rounds(addons, rounds))
  {
    assert Waiting(addons) <= Priorities(addons);
    SmallerSet(Waiting(addons), Priorities(addons));
    RoundsConverge(addons, rounds);
  }

  // ----- a reconcile can always come to its end

  lemma {:induction false} Append(w: World, xs: seq<Action>, ys: seq<Action>)
    requires w.history != [] && IsRun(w, xs) && IsRun(After(w, xs), ys)
    ensures IsRun(w, xs + ys) && After(w, xs + ys) == After(After(w, xs), ys)
    ensures SteadyRun(w, xs) && SteadyRun(After(w, xs), ys) ==> SteadyRun(w, xs + ys)
    decreases |xs|
  {
    if xs == [] {
      assert xs + ys == ys;
    } else {
      Append(Apply(w, xs[0]), xs[1..], ys);
      assert (xs + ys)[1..] == xs[1..] + ys;
    }
  }

  lemma Single(w: World, a: Action)
    requires w.history != [] && Possible(w, a)
    ensures IsRun(w, [a]) && After(w, [a]) == Apply(w, a) && (Steady(w, a) ==> SteadyRun(w, [a]))
  {
    assert [a][1..] == [];
  }

  /** One more step at the end of a run. */
  lemma Extend(w: World, xs: seq<Action>, a: Action)
    requires w.history != [] && IsRun(w, xs) && Possible(After(w, xs), a)
    ensures IsRun(w, xs + [a]) && After(w, xs + [a]) == Apply(After(w, xs), a)
    ensures SteadyRun(w, xs) && Steady(After(w, xs), a) ==> SteadyRun(w, xs + [a])
  {
    Single(After(w, xs), a);
    Append(w, xs, [a]);
  }

  /** A fresh reconcile of an enabled addon passes its gate if the gate is open, and is turned away otherwise. */
  lemma GateDecides(w: World, name: string)
    requires w.history != [] && name in Now(w.history) && Enabled(Now(w.history)[name].spec)
    ensures Possible(w, Fetch(name))
    ensures Possible(Apply(w, Fetch(name)), PassGate(name)) <==> Gate(Now(w.history), name)
    ensures Possible(Apply(w, Fetch(name)), FailGate(name)) <==> !Gate(Now(w.history), name)
  {
    var addons := Now(w.history);
    assert Gate(addons, name) <==> Clear(addons, name, addons[name]) by {
      if Clear(addons, name, addons[name]) {
        forall s | s in addons && Earlier(addons, s, name) ensures addons[s].ready {}
      }
      if Gate(addons, name) {
        forall s | s in addons && s != name && Enabled(addons[s].spec) &&
                   EffectivePriority(addons[s]) < EffectivePriority(addons[name])
          ensures addons[s].ready
        {
          assert Earlier(addons, s, name);
        }
      }
    }
  }

  /** Behind an open gate the Install is issued. */
  lemma InstallIsRun(w: World, name: string) returns (actions: seq<Action>)
    requires w.history != [] && name in Now(w.history) && Enabled(Now(w.history)[name].spec)
    requires Gate(Now(w.history), name)
    ensures IsRun(w, actions) && SteadyRun(w, actions)
    ensures var v := After(w, actions);
      && v.history == w.history && name in v.installing
      && |v.log| == |w.log| + 1 && v.log[..|w.log|] == w.log && v.log[|w.log|].name == name
  {
    GateDecides(w, name);
    assert [] + [Fetch(name)] == [Fetch(name)];
    Extend(w, [], Fetch(name));
    actions := [Fetch(name)];
    Extend(w, actions, PassGate(name));
    actions := actions + [PassGate(name)];
    Extend(w, actions, IssueInstall(name));
    actions := actions + [IssueInstall(name)];
  }

  /** What the reconcile of an open gate does, taken step by step: the install, and Ready by its outcome. */
  lemma ReconcileIsRun(w: World, name: string, outcome: Outcome) returns (actions: seq<Action>)
    requires w.history != [] && name in Now(w.history) && Enabled(Now(w.history)[name].spec)
    requires Gate(Now(w.history), name) && outcome in {InstallFailed, CheckError, NotHealthy, Healthy}
    ensures IsRun(w, actions) && Report(name, outcome, true) in actions
    ensures outcome == Healthy ==> SteadyRun(w, actions)
    ensures var was, v := Now(w.history)[name], After(w, actions);
      && Now(v.history) ==
           Now(w.history)[name := was.(ready := outcome == Healthy || (outcome == CheckError && was.ready))]
      && |v.log| == |w.log| + 1 && v.log[..|w.log|] == w.log && v.log[|w.log|].name == name
  {
    var install := InstallIsRun(w, name);
    Extend(w, install, Report(name, outcome, true));
    actions := install + [Report(name, outcome, true)];
  }

  /** From every state, whatever else is in flight, a reconcile of an enabled addon can come to its end. */
  lemma ReconcileConcludes(w: World, name: string) returns (actions: seq<Action>)
    requires w.history != [] && name in Now(w.history) && Enabled(Now(w.history)[name].spec)
    ensures IsRun(w, actions) && SteadyRun(w, actions) && Concludes(actions, name)
    ensures var v := After(w, actions);
      if Gate(Now(w.history), name)
      then
        && Now(v.history) == Now(w.history)[name := Now(w.history)[name].(ready := true)]
        && |v.log| == |w.log| + 1 && v.log[..|w.log|] == w.log && v.log[|w.log|].name == name
      else Now(v.history) == Now(w.history) && v.log == w.log
  {
    if Gate(Now(w.history), name) {
      actions := ReconcileIsRun(w, name, Healthy);
    } else {
      GateDecides(w, name);
      assert [] + [Fetch(name)] == [Fetch(name)];
      Extend(w, [], Fetch(name));
      Extend(w, [Fetch(name)], FailGate(name));
      actions := [Fetch(name)] + [FailGate(name)];
    }
  }

  // ----- convergence of interleaved runs

  /**
   A stretch of a run in which a reconcile of every waiting addon comes to its end, turned away by
   its gate or healthy and recorded.  Any number of others may come, go, fail and overlap.
   */
  ghost predicate IsSweep(addons: map<string, Addon>, actions: seq<Action>) {
    forall n :: n in addons && Enabled(addons[n].spec) && !addons[n].ready ==> Concludes(actions, n)
  }

  predicate Concludes(actions: seq<Action>, name: string) {
    FailGate(name) in actions || Report(name, Healthy, true) in actions
  }

  lemma {:induction false} NamesConclude(w: World, names: set<string>) returns (actions: seq<Action>)
    requires w.history != [] && Growing(w.history)
    requires forall n :: n in names ==> n in Now(w.history) && Enabled(Now(w.history)[n].spec)
    ensures IsRun(w, actions) && SteadyRun(w, actions) && forall n :: n in names ==> Concludes(actions, n)
    decreases |names|
  {
    actions := [];
    if names != {} {
      var name := Pick(names);
      var first := ReconcileConcludes(w, name);
      GrowingRun(w, first);
      assert Progressed(Now(w.history), Now(After(w, first).history));
      var rest := NamesConclude(After(w, first), names - {name});
      Append(w, first, rest);
      actions := first + rest;
      forall n | n in names ensures Concludes(actions, n) {
        assert n == name || n in names - {name};
      }
    }
  }

  /** Such stretches exist, from every state a steady run leads to. */
  lemma SweepExists(w: World) returns (actions: seq<Action>)
    requires w.history != [] && Growing(w.history)
    ensures IsRun(w, actions) && SteadyRun(w, actions) && IsSweep(Now(w.history), actions)
  {
    var addons := Now(w.history);
    actions := NamesConclude(w, set n | n in addons && Enabled(addons[n].spec) && !addons[n].ready);
  }

  /** Stretches of one steady run, each a sweep of what is waiting when it begins. */
  ghost predicate AreSweeps(w: World, sweeps: seq<seq<Action>>)
    requires w.history != []
    decreases |sweeps|
  {
    sweeps == [] || (
      && IsRun(w, sweeps[0]) && SteadyRun(w, sweeps[0]) && IsSweep(Now(w.history), sweeps[0])
      && AreSweeps(After(w, sweeps[0]), sweeps[1..]))
  }

  ghost function AfterSweeps(w: World, sweeps: seq<seq<Action>>): (r: World)
    requires w.history != [] && AreSweeps(w, sweeps)
    ensures r.history != []
    decreases |sweeps|
  {
    if sweeps == [] then w else AfterSweeps(After(w, sweeps[0]), sweeps[1..])
  }

  lemma {:induction false} GrowingRun(w: World, actions: seq<Action>)
    requires w.history != [] && Growing(w.history) && IsRun(w, actions) && SteadyRun(w, actions)
    ensures Growing(After(w, actions).history) && Progressed(Now(w.history), Now(After(w, actions).history))
    decreases |actions|
  {
    if actions != [] {
      var w' := Apply(w, actions[0]);
      GrowingStep(w, actions[0]);
      GrowingRun(w', actions[1..]);
    }
  }

  /** A gate that is open turns nobody away: the copy fetched differs from the current one in readiness at most. */
  lemma OpenGateLetsPass(w: World, name: string)
    requires w.history != [] && Growing(w.history) && name in Now(w.history) && Gate(Now(w.history), name)
    ensures !Possible(w, FailGate(name))
  {
    if HasFetched(w, name) {
      assert Progressed(w.history[w.fetched[name]], Now(w.history));
      forall s | s in Now(w.history) && s != name && Enabled(Now(w.history)[s].spec) &&
                 EffectivePriority(Now(w.history)[s]) < EffectivePriority(w.history[w.fetched[name]][name])
        ensures Now(w.history)[s].ready
      {
        assert Earlier(Now(w.history), s, name);
      }
    }
  }

  /** An addon whose gate is open at the start is Ready once a reconcile of it has come to its end. */
  lemma {:induction false} ConcludedIsReady(w: World, actions: seq<Action>, name: string)
    requires w.history != [] && Growing(w.history) && IsRun(w, actions) && SteadyRun(w, actions)
    requires name in Now(w.history) && Gate(Now(w.history), name) && Concludes(actions, name)
    ensures name in Now(After(w, actions).history) && Now(After(w, actions).history)[name].ready
    decreases |actions|
  {
    var w', rest := Apply(w, actions[0]), actions[1..];
    OpenGateLetsPass(w, name);
    GrowingStep(w, actions[0]);
    if actions[0] == Report(name, Healthy, true) {
      GrowingRun(w', rest);
    } else {
      GateIsMonotone(Now(w.history), Now(w'.history), name);
      ConcludedIsReady(w', rest, name);
    }
  }

  /** A sweep takes at least the least waiting priority off the list. */
  lemma SweepShrinks(w: World, actions: seq<Action>, p: int)
    requires w.history != [] && Growing(w.history) && IsRun(w, actions) && SteadyRun(w, actions)
    requires IsSweep(Now(w.history), actions)
    requires p in Waiting(Now(w.history)) && forall x :: x in Waiting(Now(w.history)) ==> p <= x
    ensures Waiting(Now(After(w, actions).history)) <= Waiting(Now(w.history)) - {p}
  {
    var before, after := Now(w.history), Now(After(w, actions).history);
    GrowingRun(w, actions);
    forall n | n in after && Enabled(after[n].spec) && !after[n].ready
      ensures EffectivePriority(after[n]) in Waiting(before) && EffectivePriority(after[n]) != p
    {
      assert !before[n].ready && EffectivePriority(before[n]) == EffectivePriority(after[n]);
      if EffectivePriority(before[n]) == p {
        LeastPasses(before, p, n);
        ConcludedIsReady(w, actions, n);
      }
    }
  }

  lemma StillWaiting(before: map<string, Addon>, after: map<string, Addon>)
    requires Progressed(before, after)
    ensures Waiting(after) <= Waiting(before)
  {
    forall n | n in after && Enabled(after[n].spec) && !after[n].ready
      ensures EffectivePriority(after[n]) in Waiting(before)
    {
      assert EffectivePriority(before[n]) == EffectivePriority(after[n]) && !before[n].ready;
    }
  }

  lemma {:induction false} SweepsConverge(w: World, sweeps: seq<seq<Action>>)
    requires w.history != [] && Growing(w.history) && AreSweeps(w, sweeps)
    requires |Waiting(Now(w.history))| <= |sweeps|
    ensures AllReady(Now(AfterSweeps(w, sweeps).history))
    decreases |sweeps|
  {
    var addons := Now(w.history);
    assert forall n :: n in addons && Enabled(addons[n].spec) && !addons[n].ready ==>
      EffectivePriority(addons[n]) in Waiting(addons);
    if sweeps != [] {
      var w' := After(w, sweeps[0]);
      GrowingRun(w, sweeps[0]);
      StillWaiting(addons, Now(w'.history));
      if Waiting(addons) != {} {
        var p := Least(Waiting(addons));
        SweepShrinks(w, sweeps[0], p);
        SmallerSet(Waiting(Now(w'.history)), Waiting(addons) - {p});
      } else {
        assert Waiting(Now(w'.history)) == {};
      }
      SweepsConverge(w', sweeps[1..]);
    }
  }

  /**
   Over every interleaved run in which nothing is edited and Ready does not regress: after as many
   sweeps as there are distinct priorities, every enabled addon is Ready.
   */
  lemma InterleavedWavesConverge(w: World, sweeps: seq<seq<Action>>)
    requires Initial(w) && |w.history| == 1 && AreSweeps(w, sweeps)
    requires |sweeps| >= |Priorities(Now(w.history))|
    ensures AllReady(Now(AfterSweeps(w, sweeps).history))
  {
    SmallerSet(Waiting(Now(w.history)), Priorities(Now(w.history)));
    SweepsConverge(w, sweeps);
  }
}
