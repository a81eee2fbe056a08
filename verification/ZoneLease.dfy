/**
 The zone lease: a Lease object renewed by its holder and taken over once it has gone stale,
 through reads, decisions and conditional writes that other processes interleave with.

 Clocks are taken to agree and nobody deletes the Lease.  Times are in seconds.
 */
module ZoneLease {
  import opened ApiStore

  const LeaseDuration: nat := 45

  /** Key and lease names. */
  const GlobalKey := ""
  const LeaseNamePrefix := "zonelock-"

  function Key(region: string, zone: string): string {
    if region == "" || zone == "" then GlobalKey else region + "-" + zone
  }

  function LeaseName(key: string): string {
    if key == GlobalKey then LeaseNamePrefix + "global" else LeaseNamePrefix + key
  }

  /** Two keys share a Lease only if they are equal or one is global and the other is spelled "global". */
  lemma LeaseNameIsAlmostInjective(a: string, b: string)
    ensures LeaseName(a) == LeaseName(b) <==> a == b || {a, b} == {GlobalKey, "global"}
  {
    var x, y := if a == GlobalKey then "global" else a, if b == GlobalKey then "global" else b;
    assert LeaseName(a) == LeaseNamePrefix + x && LeaseName(b) == LeaseNamePrefix + y;
    assert LeaseName(a)[|LeaseNamePrefix|..] == x && LeaseName(b)[|LeaseNamePrefix|..] == y;
    if a != b && x == y {
      assert {a, b} == {GlobalKey, "global"};
    }
    if {a, b} == {GlobalKey, "global"} {
      assert a in {GlobalKey, "global"} && b in {GlobalKey, "global"};
    }
  }

  /** Keys derived from a region and a zone never are, so real zones never share the global Lease. */
  lemma ZoneKeysAreSeparate(region: string, zone: string, other: string)
    requires Key(region, zone) != GlobalKey
    ensures LeaseName(Key(region, zone)) == LeaseName(other) <==> Key(region, zone) == other
  {
    LeaseNameIsAlmostInjective(Key(region, zone), other);
    assert Key(region, zone)[|region|] == '-';
    assert forall i :: 0 <= i < 6 ==> "global"[i] != '-';
  }

  /** A hyphen inside the region, or in the zone before its last character. */
  predicate Ambiguous(region: string, zone: string) {
    (exists i :: 0 < i < |region| && region[i] == '-') || (exists i :: 0 <= i < |zone| - 1 && zone[i] == '-')
  }

  /** A region and a zone have a key of their own exactly if no other hyphen could be taken for the separator. */
  lemma KeyIsUniqueIff(region: string, zone: string)
    requires region != "" && zone != ""
    ensures Ambiguous(region, zone) <==>
      exists r, z :: (r, z) != (region, zone) && r != "" && z != "" && Key(r, z) == Key(region, zone)
  {
    if i :| 0 < i < |region| && region[i] == '-' {
      var r, z := region[..i], region[i + 1..] + "-" + zone;
      assert region == r + "-" + region[i + 1..];
      assert r + "-" + z == region + "-" + zone;
      assert Key(r, z) == Key(region, zone) && (r, z) != (region, zone);
    }
    if i :| 0 <= i < |zone| - 1 && zone[i] == '-' {
      var r, z := region + "-" + zone[..i], zone[i + 1..];
      assert zone == zone[..i] + "-" + z;
      assert r + "-" + z == region + "-" + zone;
      assert Key(r, z) == Key(region, zone) && |r| != |region|;
    }
    forall r, z | (r, z) != (region, zone) && r != "" && z != "" && Key(r, z) == Key(region, zone)
      ensures Ambiguous(region, zone)
    {
      SameKey(region, zone, r, z);
    }
  }

  lemma SameKey(region: string, zone: string, r: string, z: string)
    requires (r, z) != (region, zone) && region != "" && zone != "" && r != "" && z != ""
    requires r + "-" + z == region + "-" + zone
    ensures Ambiguous(region, zone)
  {
    var key := region + "-" + zone;
    assert key[|r|] == '-' && (r + "-" + z)[..|r|] == r && (r + "-" + z)[|r| + 1..] == z;
    assert key[..|region|] == region && key[|region| + 1..] == zone;
    if |r| < |region| {
      assert region[|r|] == '-';
    } else if |r| > |region| {
      assert zone[|r| - |region| - 1] == '-';
    }
  }

  // ----- one attempt

  datatype Lease = Lease(version: nat, holder: Option<string>, renewed: Option<int>)

  predicate Expired(l: Lease, now: int) {
    l.renewed.None? || now - l.renewed.value > LeaseDuration
  }

  /** What TryAcquire decides to do with the Lease it read. */
  predicate MayWrite(copy: Option<Lease>, me: string, now: int) {
    copy.None? || copy.value.holder == Some(me) || Expired(copy.value, now)
  }

  /** The Lease may be written at `now`: nobody has it, it is one's own, or it went 45 s without a renewal. */
  ghost predicate Free(lease: Option<Lease>, me: string, now: int) {
    match lease
    case None => true
    case Some(l) => l.holder == Some(me) || l.renewed.None? || now > l.renewed.value + 45
  }

  /** One process, with the name it holds Leases under and the key of the zone it runs in, if it runs in one. */
  class Locker {
    const me: string
    const selfZoneKey: string
    var leases: map<string, Lease>
    var next: nat

    constructor (me: string, selfZoneKey: string, leases: map<string, Lease>, next: nat)
      requires me != ""
      ensures this.me == me && this.selfZoneKey == selfZoneKey && this.leases == leases && this.next == next
    {
      this.me, this.selfZoneKey, this.leases, this.next := me, selfZoneKey, leases, next;
    }

    /** TryAcquire, undisturbed: a zone's own process never gets the global Lease or that of its own zone. */
    method TryAcquire(zoneKey: string, now: int) returns (acquired: bool)
      modifies this`leases, this`next
      ensures acquired <==>
        && (selfZoneKey == "" || (zoneKey != "" && zoneKey != selfZoneKey))
        && Free(if LeaseName(zoneKey) in old(leases) then Some(old(leases)[LeaseName(zoneKey)]) else None, me, now)
      ensures acquired ==> leases == old(leases)[LeaseName(zoneKey) := Lease(old(next), Some(me), Some(now))]
      ensures !acquired ==> leases == old(leases)
    {
      if selfZoneKey != "" && (zoneKey == GlobalKey || zoneKey == selfZoneKey) {
        return false;
      }
      var name := LeaseName(zoneKey);
      var copy := if name in leases then Some(leases[name]) else None;
      if !MayWrite(copy, me, now) {
        return false;
      }
      leases, next := leases[name := Lease(next, Some(me), Some(now))], next + 1;
      acquired := true;
    }
  }

  /**
   A TryAcquire between its read and its write, the latter carrying the time it was prepared.  The
   controllers of one process share its holder identity and may be at it at the same time.
   */
  datatype Attempt =
    | Read(me: string, copy: Option<Lease>)
    | Prepared(me: string, copy: Option<Lease>, at: int)

  /** A successful TryAcquire, from the timestamp it wrote. */
  datatype Grant = Grant(holder: string, from: int)

  datatype World = World(lease: Option<Lease>, next: nat, now: int, attempts: map<nat, Attempt>, grants: set<Grant>)

  datatype Action = Tick(seconds: nat) | Get(id: nat, me: string) | Prepare(id: nat) | Write(id: nat) | GiveUp(id: nat)

  predicate Enabled(w: World, a: Action) {
    match a
    case Tick(_) => true
    case Get(id, me) => id !in w.attempts
    case Prepare(id) =>
      id in w.attempts && w.attempts[id].Read? && MayWrite(w.attempts[id].copy, w.attempts[id].me, w.now)
    case Write(id) => id in w.attempts && w.attempts[id].Prepared?
    case GiveUp(id) => true
  }

  /** Create succeeds only without a Lease, Update only on the version that was read. */
  predicate Lands(w: World, copy: Option<Lease>) {
    match copy
    case None => w.lease.None?
    case Some(l) => w.lease.Some? && w.lease.value.version == l.version
  }

  function Apply(w: World, a: Action): World
    requires Enabled(w, a)
  {
    match a
    case Tick(seconds) => w.(now := w.now + seconds)
    case Get(id, me) => w.(attempts := w.attempts[id := Read(me, w.lease)])
    case Prepare(id) => w.(attempts := w.attempts[id := Prepared(w.attempts[id].me, w.attempts[id].copy, w.now)])
    case Write(id) =>
      var t := w.attempts[id];
      var w' := w.(attempts := w.attempts - {id});
      if Lands(w, t.copy) then
        w'.(lease := Some(Lease(w.next, Some(t.me), Some(t.at))), next := w.next + 1,
          grants := w.grants + {Grant(t.me, t.at)})
      else w'
    case GiveUp(id) => w.(attempts := w.attempts - {id})
  }

  /** An attempt nobody interferes with goes ahead exactly if the Lease is free, and then gets it. */
  lemma UndisturbedAttempt(w: World, id: nat, me: string)
    requires id !in w.attempts
    ensures Enabled(w, Get(id, me))
    ensures Enabled(Apply(w, Get(id, me)), Prepare(id)) <==> Free(w.lease, me, w.now)
    ensures Free(w.lease, me, w.now) ==>
      var actions := [Get(id, me), Prepare(id), Write(id)];
      && IsRun(w, actions)
      && After(w, actions) == w.(lease := Some(Lease(w.next, Some(me), Some(w.now))), next := w.next + 1,
           grants := w.grants + {Grant(me, w.now)})
  {
    if Free(w.lease, me, w.now) {
      var w1 := Apply(w, Get(id, me));
      var w2 := Apply(w1, Prepare(id));
      var w3 := Apply(w2, Write(id));
      assert w3.attempts == w.attempts;
      Prepend(w2, Write(id), []);
      Prepend(w1, Prepare(id), [Write(id)] + []);
      Prepend(w, Get(id, me), [Prepare(id)] + ([Write(id)] + []));
      assert [Get(id, me)] + ([Prepare(id)] + ([Write(id)] + [])) == [Get(id, me), Prepare(id), Write(id)];
    }
  }

  /** A Lease whose holder is gone does not block anyone for long: 46 s later whoever tries gets it. */
  lemma StaleLeaseIsTakenOver(w: World, id: nat, me: string) returns (actions: seq<Action>)
    requires Invariant(w) && id !in w.attempts
    ensures IsRun(w, actions) && Grant(me, w.now + 46) in After(w, actions).grants
  {
    var later := Apply(w, Tick(46));
    UndisturbedAttempt(later, id, me);
    actions := [Get(id, me), Prepare(id), Write(id)];
    Prepend(w, Tick(46), actions);
    actions := [Tick(46)] + actions;
  }

  lemma Prepend(w: World, a: Action, rest: seq<Action>)
    requires Enabled(w, a) && IsRun(Apply(w, a), rest)
    ensures IsRun(w, [a] + rest) && After(w, [a] + rest) == After(Apply(w, a), rest)
  {
    assert ([a] + rest)[1..] == rest;
  }

  // ----- mutual exclusion

  /** The two windows do not overlap. */
  predicate Apart(g: Grant, h: Grant) {
    g.from + LeaseDuration < h.from || h.from + LeaseDuration < g.from
  }

  /** Every grant of another holder ended before the stored Lease was last renewed. */
  predicate LeaseSound(w: World) {
    && (w.grants != {} ==> w.lease.Some?)
    && (w.lease.Some? ==>
          && w.lease.value.version < w.next
          && (w.lease.value.renewed.Some? ==> w.lease.value.renewed.value <= w.now)
          && forall g :: g in w.grants ==>
               && w.lease.value.renewed.Some? && g.from <= w.lease.value.renewed.value
               && (w.lease.value.holder != Some(g.holder) ==> g.from + LeaseDuration < w.lease.value.renewed.value))
  }

  /** An attempt's copy, if it is still the stored version, is the stored Lease, and its decision was sound. */
  predicate AttemptSound(w: World, t: Attempt) {
    && (t.copy.Some? ==> t.copy.value.version < w.next)
    && (t.copy.Some? && w.lease.Some? && w.lease.value.version == t.copy.value.version ==> t.copy == w.lease)
    && (t.Prepared? ==> t.at <= w.now && MayWrite(t.copy, t.me, t.at))
    && (t.Prepared? && t.copy.Some? && t.copy.value.renewed.Some? ==> t.copy.value.renewed.value <= t.at)
    && (t.copy.Some? && t.copy.value.renewed.Some? ==> t.copy.value.renewed.value <= w.now)
  }

  predicate Invariant(w: World) {
    && LeaseSound(w)
    && (forall id :: id in w.attempts ==> AttemptSound(w, w.attempts[id]))
    && (forall g, h :: g in w.grants && h in w.grants && g.holder != h.holder ==> Apart(g, h))
  }

  lemma WriteStep(w: World, id: nat)
    requires Invariant(w) && Enabled(w, Write(id))
    ensures Invariant(Apply(w, Write(id)))
  {
    var t, w' := w.attempts[id], Apply(w, Write(id));
    if Lands(w, t.copy) {
      forall g | g in w.grants ensures g.from <= t.at && (g.holder != t.me ==> g.from + LeaseDuration < t.at) {
        assert t.copy == w.lease;
      }
    }
  }

  lemma InvariantStep(w: World, a: Action)
    requires Invariant(w) && Enabled(w, a)
    ensures Invariant(Apply(w, a))
  {
    if a.Write? { WriteStep(w, a.id); }
  }

  predicate IsRun(w: World, actions: seq<Action>)
    decreases |actions|
  {
    actions == [] || (Enabled(w, actions[0]) && IsRun(Apply(w, actions[0]), actions[1..]))
  }

  function After(w: World, actions: seq<Action>): World
    requires IsRun(w, actions)
    decreases |actions|
  {
    if actions == [] then w else After(Apply(w, actions[0]), actions[1..])
  }

  /** No attempt yet; a Lease someone else left behind is allowed. */
  predicate Initial(w: World) {
    && w.attempts == map[] && w.grants == {}
    && (w.lease.Some? ==> w.lease.value.version < w.next)
    && (w.lease.Some? && w.lease.value.renewed.Some? ==> w.lease.value.renewed.value <= w.now)
  }

  lemma {:induction false} InvariantRun(w: World, actions: seq<Action>)
    requires Invariant(w) && IsRun(w, actions)
    ensures Invariant(After(w, actions))
    decreases |actions|
  {
    if actions != [] {
      InvariantStep(w, actions[0]);
      InvariantRun(Apply(w, actions[0]), actions[1..]);
    }
  }

  /**
   Mutual exclusion: for a lease duration after the timestamp of a successful TryAcquire, no other
   process has one.  This is what keeps the reconciles of one key from overlapping.
   */
  lemma AtMostOneHolder(w: World, actions: seq<Action>, g: Grant, h: Grant, t: int)
    requires Initial(w) && IsRun(w, actions)
    requires g in After(w, actions).grants && h in After(w, actions).grants
    requires g.from <= t <= g.from + 45 && h.from <= t <= h.from + 45
    ensures g.holder == h.holder
  {
    InvariantRun(w, actions);
  }
}
