/**
 The hub's token verifier: an LRU cache of zone keys with a time-to-live in front of the
 identity Secrets, used by many RPCs at once.
 */
module Verifier {
  import opened ApiStore
  import opened Identities

  const CacheSize := 256
  const CacheTTL := (30 * Second) as real

  datatype Entry = Entry(keys: seq<PublicKey>, fetchedAt: real)
  datatype Slot = Slot(zone: string, entry: Entry)

  /** Most recently used first. */
  type Cache = seq<Slot>

  // ----- the LRU list

  function Find(c: Cache, zone: string): Option<Entry> {
    if c == [] then None else if c[0].zone == zone then Some(c[0].entry) else Find(c[1..], zone)
  }

  function Without(c: Cache, zone: string): Cache {
    if c == [] then [] else if c[0].zone == zone then Without(c[1..], zone) else [c[0]] + Without(c[1..], zone)
  }

  /** cache.Get refreshes recency, whether or not the entry is still trusted. */
  function Touched(c: Cache, zone: string): Cache {
    match Find(c, zone)
    case None => c
    case Some(e) => [Slot(zone, e)] + Without(c, zone)
  }

  /** cache.Add replaces the zone's entry or evicts the least recently used one. */
  function Added(c: Cache, zone: string, e: Entry): Cache {
    var rest := Without(c, zone);
    [Slot(zone, e)] + if |rest| >= CacheSize then rest[..CacheSize - 1] else rest
  }

  lemma {:induction false} WithoutIs(c: Cache, zone: string)
    ensures |Without(c, zone)| <= |c| && (Find(c, zone).Some? ==> |Without(c, zone)| < |c|)
    ensures forall s :: s in Without(c, zone) <==> s in c && s.zone != zone
    ensures Find(c, zone).Some? ==> Slot(zone, Find(c, zone).value) in c
    ensures Distinct(c) ==> Distinct(Without(c, zone))
  {
    if c != [] {
      WithoutIs(c[1..], zone);
      assert c == [c[0]] + c[1..];
    }
  }

  lemma HeadAndRest(c: Cache, i: nat)
    requires 0 < i < |c|
    ensures c[..i] == [c[0]] + c[1..][..i - 1] && c[i + 1..] == c[1..][i..]
  {
    forall j | 0 <= j < i ensures c[..i][j] == ([c[0]] + c[1..][..i - 1])[j] {}
  }

  lemma {:induction false} WithoutAbsent(c: Cache, zone: string)
    requires forall i :: 0 <= i < |c| ==> c[i].zone != zone
    ensures Without(c, zone) == c && Find(c, zone).None?
  {
    if c != [] { WithoutAbsent(c[1..], zone); }
  }

  /** Removing the zone at `i` closes the gap and moves nothing else. */
  lemma {:induction false} WithoutAt(c: Cache, zone: string, i: nat)
    requires Distinct(c) && i < |c| && c[i].zone == zone
    ensures Without(c, zone) == c[..i] + c[i + 1..] && Find(c, zone) == Some(c[i].entry)
  {
    if i == 0 {
      WithoutAbsent(c[1..], zone);
    } else {
      WithoutAt(c[1..], zone, i - 1);
      HeadAndRest(c, i);
    }
  }

  /** A Get moves the zone's entry to the front, and moves nothing otherwise. */
  lemma TouchMovesToFront(c: Cache, zone: string, i: nat)
    requires Distinct(c) && i < |c|
    ensures c[i].zone == zone ==> Touched(c, zone) == [c[i]] + c[..i] + c[i + 1..]
    ensures (forall s :: s in c ==> s.zone != zone) ==> Touched(c, zone) == c
  {
    if c[i].zone == zone { WithoutAt(c, zone, i); }
    if forall s :: s in c ==> s.zone != zone { WithoutAbsent(c, zone); }
  }

  /**
   An Add puts the new entry in front.  It replaces the zone's old one, wherever that was; a new zone
   pushes out the least recently used one, which is the last, once there are 256, and nothing else.
   */
  lemma AddEvictsLeastRecent(c: Cache, zone: string, e: Entry, i: nat)
    requires Distinct(c) && |c| <= 256
    ensures i < |c| && c[i].zone == zone ==> Added(c, zone, e) == [Slot(zone, e)] + c[..i] + c[i + 1..]
    ensures (forall s :: s in c ==> s.zone != zone) ==>
      Added(c, zone, e) == [Slot(zone, e)] + if |c| == 256 then c[..255] else c
  {
    if i < |c| && c[i].zone == zone { WithoutAt(c, zone, i); }
    if forall s :: s in c ==> s.zone != zone { WithoutAbsent(c, zone); }
  }

  ghost predicate Distinct(c: Cache) {
    forall i, j :: 0 <= i < j < |c| ==> c[i].zone != c[j].zone
  }

  // ----- direct lookup

  datatype LookupError = NoSecret | InvalidSecret | NoValidKeys
  datatype Lookup = Keys(keys: seq<PublicKey>) | Error(error: LookupError)

  /** What reading the Secret and judging it at `now` yields, with no cache in between. */
  function DirectLookup(f: Formats, secret: Option<SecretData>, now: real): Lookup {
    if secret.None? then Error(NoSecret)
    else
      match ParsePublicSecret(f, secret.value)
      case None => Error(InvalidSecret)
      case Some(pair) => if KeysAt(f, pair, now) == [] then Error(NoValidKeys) else Keys(KeysAt(f, pair, now))
  }

  /** A Secret that was stored for a zone and read at `at`. */
  datatype Read = Read(zone: string, secret: SecretData, at: real)

  /** The entry is what a direct lookup at its own timestamp gave, from a Secret read no later. */
  ghost predicate Genuine(f: Formats, fetches: set<Read>, zone: string, e: Entry) {
    exists r :: r in fetches && r.zone == zone && r.at <= e.fetchedAt &&
      DirectLookup(f, Some(r.secret), e.fetchedAt) == Keys(e.keys)
  }

  ghost predicate CacheSound(f: Formats, fetches: set<Read>, c: Cache, now: real) {
    && |c| <= CacheSize && Distinct(c)
    && forall s :: s in c ==> s.entry.fetchedAt <= now && Genuine(f, fetches, s.zone, s.entry)
  }

  lemma TouchKeepsSound(f: Formats, fetches: set<Read>, c: Cache, now: real, zone: string)
    requires CacheSound(f, fetches, c, now)
    ensures CacheSound(f, fetches, Touched(c, zone), now)
  {
    WithoutIs(c, zone);
  }

  lemma AddKeepsSound(f: Formats, fetches: set<Read>, c: Cache, now: real, zone: string, e: Entry)
    requires CacheSound(f, fetches, c, now) && e.fetchedAt <= now && Genuine(f, fetches, zone, e)
    ensures CacheSound(f, fetches, Added(c, zone, e), now)
  {
    WithoutIs(c, zone);
  }

  // ----- one lookup

  class KeyVerifier {
    var cache: Cache

    /**
     Verifier.lookup; `secret` is what the API returned, `first` and `second` what the clock said
     before and after.
     */
    method LookupZone(f: Formats, zone: string, secret: Option<SecretData>, first: real, second: real)
      returns (r: Lookup)
      modifies this
      ensures var hit := Find(old(cache), zone);
        if hit.Some? && first - hit.value.fetchedAt < CacheTTL
        then r == Keys(hit.value.keys) && cache == Touched(old(cache), zone)
        else
          && r == DirectLookup(f, secret, second)
          && cache == if r.Keys? then Added(Touched(old(cache), zone), zone, Entry(r.keys, second))
             else Touched(old(cache), zone)
    {
      var hit := Find(cache, zone);
      cache := Touched(cache, zone);
      if hit.Some? && first - hit.value.fetchedAt < CacheTTL {
        return Keys(hit.value.keys);
      }
      if secret.None? {
        return Error(NoSecret);
      }
      var pair := ParsePublicSecret(f, secret.value);
      if pair.None? {
        return Error(InvalidSecret);
      }
      var keys: seq<PublicKey> := [];
      var current, previous := pair.value.current, pair.value.previous;
      if current.ValidAt(second) && f.keyOf(current.cert).Some? {
        keys := keys + [f.keyOf(current.cert).value];
      }
      if previous.ValidAt(second) && f.keyOf(previous.cert).Some? {
        keys := keys + [f.keyOf(previous.cert).value];
      }
      assert keys == KeysAt(f, pair.value, second);
      if |keys| == 0 {
        return Error(NoValidKeys);
      }
      cache := Added(cache, zone, Entry(keys, second));
      r := Keys(keys);
    }

    /** Verifier.Authenticate: accepts exactly the tokens good for their own issuer under its keys. */
    method Authenticate(f: Formats, t: Token, secret: Option<SecretData>, first: real, second: real, third: real)
      returns (zone: Option<string>, ghost used: Lookup)
      modifies this
      ensures zone.Some? <==> t.Token? && used.Keys? && GoodFor(t, t.claims.iss, used.keys, third)
      ensures zone.Some? ==> zone.value == t.claims.iss == t.claims.sub
      ensures t.Token? && t.claims.iss != "" ==>
        var hit := Find(old(cache), t.claims.iss);
        if hit.Some? && first - hit.value.fetchedAt < CacheTTL
        then used == Keys(hit.value.keys) && cache == Touched(old(cache), t.claims.iss)
        else
          && used == DirectLookup(f, secret, second)
          && cache ==
             if used.Keys? then Added(Touched(old(cache), t.claims.iss), t.claims.iss, Entry(used.keys, second))
             else Touched(old(cache), t.claims.iss)
      ensures t.Garbage? || t.claims.iss == "" ==> zone.None? && cache == old(cache)
    {
      used := Error(NoSecret);
      if t.Garbage? || t.claims.iss == "" {
        return None, used;
      }
      var r := LookupZone(f, t.claims.iss, secret, first, second);
      used := r;
      if r.Error? || |r.keys| == 0 {
        return None, used;
      }
      zone := VerifyWithAnyKey(t, t.claims.iss, r.keys, third);
    }
  }

  // ----- many lookups at once

  /** A lookup between its Get of the Secret and its use of the clock. */
  datatype Pending = Pending(zone: string, secret: SecretData, readAt: real)

  /** A key handed to a verification. */
  datatype Use = Use(zone: string, key: PublicKey, at: real)

  datatype World = World(
    now: real,
    secrets: map<string, SecretData>,
    fetches: set<Read>,
    cache: Cache,
    pending: set<Pending>,
    uses: set<Use>)

  datatype Action =
    | Tick(span: real)
    | PutSecret(zone: string, secret: SecretData)
    | DropSecret(zone: string)
    | Evict(zone: string)
    | Hit(zone: string)
    | GetSecret(zone: string)
    | Finish(lookup: Pending)

  predicate Enabled(w: World, a: Action) {
    match a
    case Tick(span) => span >= 0.0
    case Hit(zone) => Find(w.cache, zone).Some?
    case GetSecret(zone) => zone in w.secrets
    case Finish(lookup) => lookup in w.pending
    case _ => true
  }

  function Apply(f: Formats, w: World, a: Action): World
    requires Enabled(w, a)
  {
    match a
    case Tick(span) => w.(now := w.now + span)
    case PutSecret(zone, secret) => w.(secrets := w.secrets[zone := secret])
    case DropSecret(zone) => w.(secrets := w.secrets - {zone})
    case Evict(zone) => w.(cache := Without(w.cache, zone))
    case Hit(zone) =>
      var e := Find(w.cache, zone).value;
      var touched := w.(cache := Touched(w.cache, zone));
      if w.now - e.fetchedAt >= CacheTTL then touched
      else touched.(uses := w.uses + set k | k in e.keys :: Use(zone, k, w.now))
    case GetSecret(zone) =>
      w.(fetches := w.fetches + {Read(zone, w.secrets[zone], w.now)},
        pending := w.pending + {Pending(zone, w.secrets[zone], w.now)})
    case Finish(lookup) =>
      var r := DirectLookup(f, Some(lookup.secret), w.now);
      var w' := w.(pending := w.pending - {lookup});
      if r.Error? then w'
      else
        var used := set k | k in r.keys :: Use(lookup.zone, k, w.now);
        w'.(cache := Added(w.cache, lookup.zone, Entry(r.keys, w.now)), uses := w.uses + used)
  }

  /** The key came from a Secret read for this zone and was still, but for the TTL, in its window. */
  ghost predicate Timely(f: Formats, fetches: set<Read>, u: Use) {
    exists r, pair :: r in fetches && r.zone == u.zone && r.at <= u.at &&
      ParsePublicSecret(f, r.secret) == Some(pair) && HeldUntil(f, pair, u.key, u.at - CacheTTL)
  }

  ghost predicate Invariant(f: Formats, w: World) {
    && CacheSound(f, w.fetches, w.cache, w.now)
    && (forall r :: r in w.fetches ==> r.at <= w.now)
    && (forall p :: p in w.pending ==> Read(p.zone, p.secret, p.readAt) in w.fetches)
    && (forall u :: u in w.uses ==> u.at <= w.now && Timely(f, w.fetches, u))
  }

  lemma GenuineKeysAreTimely(f: Formats, fetches: set<Read>, zone: string, e: Entry, key: PublicKey, now: real)
    requires Genuine(f, fetches, zone, e) && key in e.keys && e.fetchedAt <= now && now - e.fetchedAt < CacheTTL
    ensures Timely(f, fetches, Use(zone, key, now))
  {
    var r :| r in fetches && r.zone == zone && r.at <= e.fetchedAt &&
      DirectLookup(f, Some(r.secret), e.fetchedAt) == Keys(e.keys);
    var pair := ParsePublicSecret(f, r.secret).value;
    KeysAreHeld(f, pair, e.fetchedAt, key);
    assert HeldUntil(f, pair, key, now - CacheTTL);
  }

  lemma {:induction false} InvariantStep(f: Formats, w: World, a: Action)
    requires Invariant(f, w) && Enabled(w, a)
    ensures Invariant(f, Apply(f, w, a))
  {
    var w' := Apply(f, w, a);
    forall zone, e | Genuine(f, w.fetches, zone, e) ensures Genuine(f, w'.fetches, zone, e) {}
    match a
    case Evict(zone) => WithoutIs(w.cache, zone);
    case Hit(zone) =>
      WithoutIs(w.cache, zone);
      TouchKeepsSound(f, w.fetches, w.cache, w.now, zone);
      var e := Find(w.cache, zone).value;
      assert Slot(zone, e) in w.cache;
      if w.now - e.fetchedAt < CacheTTL {
        forall k | k in e.keys ensures Timely(f, w.fetches, Use(zone, k, w.now)) {
          GenuineKeysAreTimely(f, w.fetches, zone, e, k, w.now);
        }
      }
    case Finish(lookup) =>
      var r := DirectLookup(f, Some(lookup.secret), w.now);
      if r.Keys? {
        var e := Entry(r.keys, w.now);
        assert Read(lookup.zone, lookup.secret, lookup.readAt) in w.fetches;
        AddKeepsSound(f, w.fetches, w.cache, w.now, lookup.zone, e);
        forall k | k in e.keys ensures Timely(f, w.fetches, Use(lookup.zone, k, w.now)) {
          GenuineKeysAreTimely(f, w.fetches, lookup.zone, e, k, w.now);
        }
      }
    case _ =>
  }

  // ----- every run

  predicate IsRun(f: Formats, w: World, actions: seq<Action>)
    decreases |actions|
  {
    actions == [] || (Enabled(w, actions[0]) && IsRun(f, Apply(f, w, actions[0]), actions[1..]))
  }

  function After(f: Formats, w: World, actions: seq<Action>): World
    requires IsRun(f, w, actions)
    decreases |actions|
  {
    if actions == [] then w else After(f, Apply(f, w, actions[0]), actions[1..])
  }

  predicate Initial(w: World) {
    w.fetches == {} && w.cache == [] && w.pending == {} && w.uses == {}
  }

  lemma {:induction false} InvariantRun(f: Formats, w: World, actions: seq<Action>)
    requires Invariant(f, w) && IsRun(f, w, actions)
    ensures Invariant(f, After(f, w, actions))
    decreases |actions|
  {
    if actions != [] {
      InvariantStep(f, w, actions[0]);
      InvariantRun(f, Apply(f, w, actions[0]), actions[1..]);
    }
  }

  /**
   Whatever lookups, evictions and Secret changes interleave: each cached entry holds the one or
   two keys a direct lookup gave at its timestamp, from a Secret read for that zone.
   */
  lemma CacheRefinesDirectLookup(f: Formats, w: World, actions: seq<Action>, s: Slot)
    requires Initial(w) && IsRun(f, w, actions) && s in After(f, w, actions).cache
    ensures 1 <= |s.entry.keys| <= 2 && Genuine(f, After(f, w, actions).fetches, s.zone, s.entry)
  {
    InvariantRun(f, w, actions);
    var r :| r in After(f, w, actions).fetches &&
      DirectLookup(f, Some(r.secret), s.entry.fetchedAt) == Keys(s.entry.keys);
  }

  predicate IssuedWithin(f: Formats, id: Identity, u: Use, bound: int) {
    f.keyOf(id.cert) == Some(u.key) && u.at < (id.issuedAt + bound) as real
  }

  const Lifetime := (6 * 3600 + 5 * 60 + 30) * Second

  /** A Secret read for the use's own zone carried the key, issued less than a lifetime before. */
  ghost predicate UsedInTime(f: Formats, fetches: set<Read>, u: Use) {
    exists r, pair ::
      && r in fetches && r.zone == u.zone && r.at <= u.at && ParsePublicSecret(f, r.secret) == Some(pair)
      && (IssuedWithin(f, pair.current, u, Lifetime) || IssuedWithin(f, pair.previous, u, Lifetime))
  }

  /** No key is used later than six hours, five minutes and thirty seconds after it was issued. */
  lemma NoKeyOutlivesItsWindow(f: Formats, w: World, actions: seq<Action>, u: Use)
    requires Initial(w) && IsRun(f, w, actions) && u in After(f, w, actions).uses
    ensures UsedInTime(f, After(f, w, actions).fetches, u)
  {
    InvariantRun(f, w, actions);
    var fetches := After(f, w, actions).fetches;
    var r, pair :|
      && r in fetches && r.zone == u.zone && r.at <= u.at && ParsePublicSecret(f, r.secret) == Some(pair)
      && HeldUntil(f, pair, u.key, u.at - CacheTTL);
    assert HeldUntil(f, pair, u.key, u.at - CacheTTL);
    assert InWindow(f, pair.current, u.key, u.at - CacheTTL) ==> IssuedWithin(f, pair.current, u, Lifetime);
  }

  lemma Prepend(f: Formats, w: World, a: Action, rest: seq<Action>)
    requires Enabled(w, a) && IsRun(f, Apply(f, w, a), rest)
    ensures IsRun(f, w, [a] + rest) && After(f, w, [a] + rest) == After(f, Apply(f, w, a), rest)
  {
    assert ([a] + rest)[1..] == rest;
  }

  /** The bound is tight: for every margin, however small, a run uses a key that close to it. */
  lemma BoundIsTight(f: Formats, id: Identity, key: PublicKey, w: World, zone: string, margin: real)
    returns (actions: seq<Action>)
    requires Lawful(f) && id.cert != "" && f.keyOf(id.cert) == Some(key)
    requires 0.0 < margin <= CacheTTL && Initial(w) && w.now == id.ExpiresAt() as real - margin / 2.0
    ensures IsRun(f, w, actions)
    ensures Use(zone, key, (id.issuedAt + Lifetime) as real - margin) in After(f, w, actions).uses
  {
    var pair := IdentityPair(id, id);
    PublicSecretRoundTrip(f, pair);
    var secret := BuildPublicSecret(f, pair);
    var tick := Tick(CacheTTL - margin / 2.0);
    var w1 := Apply(f, w, PutSecret(zone, secret));
    var w2 := Apply(f, w1, GetSecret(zone));
    var p := Pending(zone, secret, w.now);
    var w3 := Apply(f, w2, Finish(p));
    KeysAreHeld(f, pair, w.now, key);
    assert Find(w3.cache, zone) == Some(Entry(KeysAt(f, pair, w.now), w.now));
    var w4 := Apply(f, w3, tick);
    assert [Hit(zone)] + [] == [Hit(zone)];
    Prepend(f, w4, Hit(zone), []);
    Prepend(f, w3, tick, [Hit(zone)]);
    Prepend(f, w2, Finish(p), [tick] + [Hit(zone)]);
    Prepend(f, w1, GetSecret(zone), [Finish(p)] + ([tick] + [Hit(zone)]));
    Prepend(f, w, PutSecret(zone, secret), [GetSecret(zone)] + ([Finish(p)] + ([tick] + [Hit(zone)])));
    actions := [PutSecret(zone, secret)] + ([GetSecret(zone)] + ([Finish(p)] + ([tick] + [Hit(zone)])));
  }
}
