/**
 Self-registration of a server process: one heartbeat heals whatever is missing, and a
 deregistered process never registers itself again.
 */
module Heartbeat {
  import opened ApiStore

  const SystemNamespace := "kontinuum-system"

  datatype Owner = Owner(kind: string, name: string)
  datatype SecretRef = SecretRef(name: string, namespace: string)
  datatype Status = Status(role: string, version: string, secretRef: Option<SecretRef>, lastHeartbeat: nat)
  datatype Server = Server(resourceVersion: nat, status: Status)
  datatype Secret = Secret(data: map<string, string>, controller: Option<Owner>)

  /** Everything one heartbeat reads and writes in the system namespace. */
  datatype Hub = Hub(namespaces: set<string>, servers: map<string, Server>, secrets: map<string, Secret>, next: nat)

  function SecretName(server: string): string { "kontinuum-" + server }

  /** Servers do not share Secrets, and each one's is called after it. */
  lemma SecretNamesDiffer(a: string, b: string)
    ensures SecretName(a) == SecretName(b) <==> a == b
    ensures |SecretName(a)| == 10 + |a| && SecretName(a)[..10] == "kontinuum-"
  {
    assert SecretName(a)[10..] == a && SecretName(b)[10..] == b;
  }

  /** controllerutil.SetControllerReference refuses an object another owner controls. */
  predicate Controllable(s: Secret, owner: Owner) {
    s.controller.None? || s.controller.value == owner
  }

  // ----- one beat

  class Beater {
    const name: string
    const role: string
    const version: string
    const secretData: map<string, string>
    var hub: Hub
    var shuttingDown: bool

    constructor (name: string, role: string, version: string, secretData: map<string, string>, hub: Hub)
      ensures this.name == name && this.role == role && this.version == version && this.secretData == secretData
      ensures this.hub == hub && !shuttingDown
    {
      this.name, this.role, this.version, this.secretData := name, role, version, secretData;
      this.hub, this.shuttingDown := hub, false;
    }

    ghost function Ref(): SecretRef { SecretRef(SecretName(name), SystemNamespace) }

    /** Someone else's object sits where this server's Secret belongs. */
    ghost predicate Obstructed(h: Hub) {
      SecretName(name) in h.secrets && !Controllable(h.secrets[SecretName(name)], Owner("Kontinuum", name))
    }

    /** Namespace, object and Secret are there, the Secret is complete, and the status names it. */
    ghost predicate Healthy(h: Hub, now: nat) {
      && SystemNamespace in h.namespaces
      && name in h.servers
      && h.servers[name].status == Status(role, version, Some(Ref()), now)
      && SecretName(name) in h.secrets
      && h.secrets[SecretName(name)].controller == Some(Owner("Kontinuum", name))
      && (forall k :: k in secretData ==>
            k in h.secrets[SecretName(name)].data && h.secrets[SecretName(name)].data[k] == secretData[k])
    }

    method EnsureNamespace()
      modifies this`hub
      ensures hub == old(hub).(namespaces := old(hub).namespaces + {SystemNamespace})
    {
      hub := hub.(namespaces := hub.namespaces + {SystemNamespace});
    }

    /** Upserts the Secret: entries of this process win, foreign entries survive. */
    method EnsureSecret() returns (ok: bool)
      modifies this`hub
      ensures ok <==> !Obstructed(old(hub))
      ensures ok <==>
        || SecretName(name) !in old(hub).secrets
        || old(hub).secrets[SecretName(name)].controller in {None, Some(Owner("Kontinuum", name))}
      ensures hub.namespaces == old(hub).namespaces + {SystemNamespace} && hub.servers == old(hub).servers
      ensures hub.next == old(hub).next
      ensures !ok ==> hub.secrets == old(hub).secrets
      ensures ok ==>
        var kept := if SecretName(name) in old(hub).secrets then old(hub).secrets[SecretName(name)].data else map[];
        hub.secrets == old(hub).secrets[SecretName(name) := Secret(kept + secretData, Some(Owner("Kontinuum", name)))]
    {
      EnsureNamespace();
      var secret := SecretName(name);
      var owner := Owner("Kontinuum", name);
      if secret !in hub.secrets {
        assert map[] + secretData == secretData;
        hub := hub.(secrets := hub.secrets[secret := Secret(secretData, Some(owner))]);
        return true;
      }
      var existing := hub.secrets[secret];
      if !Controllable(existing, owner) {
        return false;
      }
      hub := hub.(secrets := hub.secrets[secret := Secret(existing.data + secretData, Some(owner))]);
      ok := true;
    }

    /** Status().Update on a copy read at `version`. */
    method SendStatus(resourceVersion: nat, now: nat)
      requires name in hub.servers && hub.servers[name].resourceVersion == resourceVersion
      modifies this`hub
      ensures hub == old(hub).(
        servers := old(hub).servers[name := Server(old(hub).next, Status(role, version, Some(Ref()), now))],
        next := old(hub).next + 1)
    {
      var status := Status(role, version, Some(SecretRef(SecretName(name), SystemNamespace)), now);
      hub := hub.(servers := hub.servers[name := Server(hub.next, status)], next := hub.next + 1);
    }

    method Reregister(now: nat)
      modifies this`hub
      ensures Registered(old(hub), hub, now)
    {
      EnsureNamespace();
      if name !in hub.servers {
        hub := hub.(servers := hub.servers[name := Server(hub.next, Status("", "", None, 0))], next := hub.next + 1);
      }
      var resourceVersion := hub.servers[name].resourceVersion;
      var ok := EnsureSecret();
      if !ok {
        return;
      }
      SendStatus(resourceVersion, now);
    }

    /** Unless obstructed, everything is in place; nobody else's objects are touched. */
    ghost predicate Registered(before: Hub, after: Hub, now: nat) {
      && (!Obstructed(before) ==> Healthy(after, now))
      && (Obstructed(before) ==>
            after.secrets == before.secrets && (name in before.servers ==> after.servers == before.servers))
      && (forall s :: s != name ==>
            (s in after.servers <==> s in before.servers) &&
            (s in before.servers ==> after.servers[s] == before.servers[s]))
      && (forall s :: s != SecretName(name) ==>
            (s in after.secrets <==> s in before.secrets) &&
            (s in before.secrets ==> after.secrets[s] == before.secrets[s]))
      && (SecretName(name) in before.secrets ==> SecretName(name) in after.secrets)
      && (SecretName(name) in before.secrets ==>
            forall k :: k in before.secrets[SecretName(name)].data && k !in secretData ==>
              && k in after.secrets[SecretName(name)].data
              && after.secrets[SecretName(name)].data[k] == before.secrets[SecretName(name)].data[k])
    }

    /** One undisturbed heartbeat, from any state of the store. */
    method Beat(now: nat)
      modifies this`hub
      ensures !shuttingDown ==> Registered(old(hub), hub, now)
      ensures shuttingDown ==>
        if name in old(hub).servers then Registered(old(hub), hub, now) else hub == old(hub)
    {
      if name !in hub.servers {
        if shuttingDown {
          return;
        }
        Reregister(now);
        return;
      }
      var resourceVersion := hub.servers[name].resourceVersion;
      var ok := EnsureSecret();
      if !ok {
        return;
      }
      SendStatus(resourceVersion, now);
    }

    /** Reconcile reacts to the object's absence only. */
    method Reconcile(now: nat)
      modifies this`hub
      ensures name in old(hub).servers || shuttingDown ==> hub == old(hub)
      ensures name !in old(hub).servers && !shuttingDown ==> Registered(old(hub), hub, now)
    {
      if name !in hub.servers {
        if shuttingDown {
          return;
        }
        Reregister(now);
      }
    }

    method Deregister()
      modifies this
      ensures shuttingDown && hub == old(hub).(servers := old(hub).servers - {name})
    {
      shuttingDown := true;
      hub := hub.(servers := hub.servers - {name});
    }
  }

  // ----- the two goroutines and the shutdown

  /** Where a goroutine stands between its API calls. */
  datatype Phase =
    | Looking
    | Deciding(missing: bool)
    | Registering
    | Refreshing
    | Deleting

  datatype World = World(
    present: bool,
    shuttingDown: bool,
    deregistered: bool,
    holder: Option<nat>,
    threads: map<nat, Phase>,
    created: nat)

  /** Steps of the process's goroutines and of everyone else; `Fail` is an API call that errors, wherever it comes. */
  datatype Action =
    | OthersCreate
    | OthersDelete
    | Begin(t: nat)
    | BeginDeregister(t: nat)
    | Get(t: nat)
    | Decide(t: nat)
    | CreateObject(t: nat)
    | DeleteObject(t: nat, ok: bool)
    | Fail(t: nat)
    | End(t: nat)

  /** `mutual` says whether a goroutine must hold the mutex to act. */
  predicate Enabled(w: World, a: Action, mutual: bool) {
    match a
    case OthersCreate => true
    case OthersDelete => true
    case Begin(t) => t !in w.threads && (mutual ==> w.holder.None?)
    case BeginDeregister(t) => t !in w.threads && (mutual ==> w.holder.None?)
    case Get(t) => t in w.threads && w.threads[t].Looking?
    case Decide(t) => t in w.threads && w.threads[t].Deciding?
    case CreateObject(t) => t in w.threads && w.threads[t].Registering?
    case DeleteObject(t, ok) => t in w.threads && w.threads[t].Deleting?
    case Fail(t) => t in w.threads
    case End(t) => t in w.threads && w.threads[t].Refreshing?
  }

  function Apply(w: World, a: Action, mutual: bool): World
    requires Enabled(w, a, mutual)
  {
    match a
    case OthersCreate => w.(present := true)
    case OthersDelete => w.(present := false)
    case Begin(t) => w.(threads := w.threads[t := Looking], holder := Some(t))
    case BeginDeregister(t) => w.(threads := w.threads[t := Deleting], holder := Some(t), shuttingDown := true)
    case Get(t) => w.(threads := w.threads[t := Deciding(!w.present)])
    case Decide(t) =>
      if !w.threads[t].missing then w.(threads := w.threads[t := Refreshing])
      else if w.shuttingDown then w.(threads := w.threads - {t}, holder := None)
      else w.(threads := w.threads[t := Registering])
    case CreateObject(t) =>
      w.(present := true, created := w.created + (if w.present then 0 else 1), threads := w.threads[t := Refreshing])
    case DeleteObject(t, ok) =>
      w.(present := w.present && !ok, deregistered := w.deregistered || ok, threads := w.threads - {t}, holder := None)
    case Fail(t) => w.(threads := w.threads - {t}, holder := None)
    case End(t) => w.(threads := w.threads - {t}, holder := None)
  }

  predicate IsRun(w: World, actions: seq<Action>, mutual: bool)
    decreases |actions|
  {
    actions == [] || (Enabled(w, actions[0], mutual) && IsRun(Apply(w, actions[0], mutual), actions[1..], mutual))
  }

  function After(w: World, actions: seq<Action>, mutual: bool): World
    requires IsRun(w, actions, mutual)
    decreases |actions|
  {
    if actions == [] then w else After(Apply(w, actions[0], mutual), actions[1..], mutual)
  }

  predicate Initial(w: World) {
    w.threads == map[] && w.holder.None? && !w.shuttingDown && !w.deregistered
  }

  /** The mutex admits one goroutine, and shutdown leaves none about to register. */
  predicate Exclusive(w: World) {
    && (forall t :: t in w.threads ==> w.holder == Some(t))
    && (w.deregistered ==> w.shuttingDown)
    && (forall t :: t in w.threads && w.threads[t].Deleting? ==> w.shuttingDown)
    && (w.shuttingDown ==> forall t :: t in w.threads ==> !w.threads[t].Registering?)
  }

  lemma ExclusiveStep(w: World, a: Action)
    requires Exclusive(w) && Enabled(w, a, true)
    ensures Exclusive(Apply(w, a, true))
    ensures w.shuttingDown ==> Apply(w, a, true).created == w.created && Apply(w, a, true).shuttingDown
    ensures w.shuttingDown && !w.present && !a.OthersCreate? ==> !Apply(w, a, true).present
  {
  }

  lemma {:induction false} ExclusiveRun(w: World, actions: seq<Action>)
    requires Exclusive(w) && IsRun(w, actions, true)
    ensures Exclusive(After(w, actions, true))
    decreases |actions|
  {
    if actions != [] {
      ExclusiveStep(w, actions[0]);
      ExclusiveRun(Apply(w, actions[0], true), actions[1..]);
    }
  }

  lemma {:induction false} QuietAfterShutdown(w: World, actions: seq<Action>)
    requires Exclusive(w) && w.shuttingDown && IsRun(w, actions, true)
    ensures After(w, actions, true).created == w.created
    ensures !w.present && (forall a :: a in actions ==> !a.OthersCreate?) ==> !After(w, actions, true).present
    decreases |actions|
  {
    if actions != [] {
      ExclusiveStep(w, actions[0]);
      QuietAfterShutdown(Apply(w, actions[0], true), actions[1..]);
    }
  }

  /**
   Once Deregister has returned without error, no interleaving of beats and reconciles creates
   the object again, and it stays gone unless someone else brings it back.
   */
  lemma DeregisteredStaysGone(w: World, before: seq<Action>, after: seq<Action>)
    requires Initial(w) && IsRun(w, before, true) && After(w, before, true).deregistered
    requires IsRun(After(w, before, true), after, true)
    ensures After(After(w, before, true), after, true).created == After(w, before, true).created
    ensures !After(w, before, true).present && (forall a :: a in after ==> !a.OthersCreate?) ==>
      !After(After(w, before, true), after, true).present
  {
    ExclusiveRun(w, before);
    QuietAfterShutdown(After(w, before, true), after);
  }

  lemma Prepend(w: World, a: Action, rest: seq<Action>, mutual: bool)
    requires Enabled(w, a, mutual) && IsRun(Apply(w, a, mutual), rest, mutual)
    ensures IsRun(w, [a] + rest, mutual) && After(w, [a] + rest, mutual) == After(Apply(w, a, mutual), rest, mutual)
  {
    assert ([a] + rest)[1..] == rest;
  }

  /**
   The mutex keeps nobody from acting: whenever it is free, a beat recreates a missing object unless
   the process is shutting down, and a Deregister that succeeds removes it.
   */
  lemma MutexLetsWork(w: World, t: nat) returns (beat: seq<Action>, gone: seq<Action>)
    requires w.threads == map[] && w.holder.None? && !w.present
    ensures IsRun(w, beat, true) && IsRun(w, gone, true)
    ensures var v := After(w, beat, true);
      v == w.(present := !w.shuttingDown, created := w.created + if w.shuttingDown then 0 else 1)
    ensures var v := After(w, gone, true);
      v == w.(shuttingDown := true, deregistered := true)
  {
    var begin, get, decide, create, end := Begin(t), Get(t), Decide(t), CreateObject(t), End(t);
    var w1 := Apply(w, begin, true);
    var w2 := Apply(w1, get, true);
    var rest := [];
    if !w.shuttingDown {
      var w3 := Apply(w2, decide, true);
      var w4 := Apply(w3, create, true);
      Prepend(w4, end, [], true);
      Prepend(w3, create, [end] + [], true);
      rest := [create] + ([end] + []);
    }
    Prepend(w2, decide, rest, true);
    Prepend(w1, get, [decide] + rest, true);
    Prepend(w, begin, [get] + ([decide] + rest), true);
    beat := [begin] + ([get] + ([decide] + rest));
    assert w.threads[t := Looking][t := Deciding(true)] - {t} == w.threads;
    var x1 := Apply(w, BeginDeregister(t), true);
    Prepend(x1, DeleteObject(t, true), [], true);
    Prepend(w, BeginDeregister(t), [DeleteObject(t, true)] + [], true);
    gone := [BeginDeregister(t)] + ([DeleteObject(t, true)] + []);
  }

  /** The flag alone is not enough: without the mutex a beat past its check recreates the object. */
  lemma FlagAloneIsNotEnough() returns (w: World, actions: seq<Action>)
    ensures Initial(w) && IsRun(w, actions, false)
    ensures After(w, actions, false).deregistered && After(w, actions, false).present
    ensures After(w, actions, false).created == w.created + 1
  {
    w := World(false, false, false, None, map[], 0);
    var a1, a2, a3, a4, a5, a6 := Begin(0), Get(0), Decide(0), BeginDeregister(1), DeleteObject(1, true),
      CreateObject(0);
    var w1 := Apply(w, a1, false);
    var w2 := Apply(w1, a2, false);
    var w3 := Apply(w2, a3, false);
    var w4 := Apply(w3, a4, false);
    var w5 := Apply(w4, a5, false);
    assert [a6] + [] == [a6];
    Prepend(w5, a6, [], false);
    Prepend(w4, a5, [a6], false);
    Prepend(w3, a4, [a5] + [a6], false);
    Prepend(w2, a3, [a4] + ([a5] + [a6]), false);
    Prepend(w1, a2, [a3] + ([a4] + ([a5] + [a6])), false);
    Prepend(w, a1, [a2] + ([a3] + ([a4] + ([a5] + [a6]))), false);
    actions := [a1] + ([a2] + ([a3] + ([a4] + ([a5] + [a6]))));
  }
}
