/** Zone identities, the public Secret that carries them, and zone-signed tokens. */
module Identities {
  import opened ApiStore

  // ----- identities: times are in nanoseconds, stored ones whole, as the Secret keeps them

  const Second := 1_000_000_000

  const RotationInterval := 6 * 3600 * Second
  const OverlapWindow := 5 * 60 * Second

  datatype Identity = Identity(cert: string, issuedAt: int) {
    function DueAt(): int { issuedAt + RotationInterval }

    function ExpiresAt(): int { DueAt() + OverlapWindow }

    predicate ValidAt(now: real) { cert != "" && now < ExpiresAt() as real }
  }

  datatype IdentityPair = IdentityPair(current: Identity, previous: Identity)

  type PublicKey = nat

  /** Time formatting and certificate parsing, as laws rather than code. */
  datatype Formats = Formats(
    formatTime: int -> string,
    parseTime: string -> Option<int>,
    keyOf: string -> Option<PublicKey>)

  /** Parsing undoes formatting. */
  ghost predicate Lawful(f: Formats) {
    forall t :: f.parseTime(f.formatTime(t)) == Some(t)
  }

  type SecretData = map<string, string>

  const CurrentCert := "current-tls.crt"
  const CurrentIssuedAt := "current-issued-at"
  const PreviousCert := "previous-tls.crt"
  const PreviousIssuedAt := "previous-issued-at"

  function BuildPublicSecret(f: Formats, pair: IdentityPair): SecretData {
    map[CurrentCert := pair.current.cert, CurrentIssuedAt := f.formatTime(pair.current.issuedAt),
        PreviousCert := pair.previous.cert, PreviousIssuedAt := f.formatTime(pair.previous.issuedAt)]
  }

  function ParseIdentity(f: Formats, data: SecretData, cert: string, issuedAt: string): Option<Identity> {
    if cert !in data || data[cert] == "" then None
    else
      match f.parseTime(if issuedAt in data then data[issuedAt] else "")
      case None => None
      case Some(t) => Some(Identity(data[cert], t))
  }

  function ParsePublicSecret(f: Formats, data: SecretData): Option<IdentityPair> {
    var current := ParseIdentity(f, data, CurrentCert, CurrentIssuedAt);
    var previous := ParseIdentity(f, data, PreviousCert, PreviousIssuedAt);
    if current.Some? && previous.Some? then Some(IdentityPair(current.value, previous.value)) else None
  }

  /** The Secret gives the pair back exactly when both certificates are there. */
  lemma PublicSecretRoundTrip(f: Formats, pair: IdentityPair)
    requires Lawful(f)
    ensures ParsePublicSecret(f, BuildPublicSecret(f, pair)) ==
      if pair.current.cert != "" && pair.previous.cert != "" then Some(pair) else None
  {
    assert CurrentCert != PreviousCert && CurrentIssuedAt != PreviousIssuedAt;
    assert CurrentCert[0] != PreviousCert[0] && CurrentIssuedAt[0] != PreviousIssuedAt[0];
    assert CurrentCert[8] != CurrentIssuedAt[8] && PreviousCert[9] != PreviousIssuedAt[9];
  }

  /** The keys a Secret yields at an instant, the current one first. */
  function KeysAt(f: Formats, pair: IdentityPair, now: real): (keys: seq<PublicKey>)
    ensures |keys| <= 2
  {
    KeyAt(f, pair.current, now) + KeyAt(f, pair.previous, now)
  }

  function KeyAt(f: Formats, id: Identity, now: real): seq<PublicKey> {
    if id.ValidAt(now) && f.keyOf(id.cert).Some? then [f.keyOf(id.cert).value] else []
  }

  /** The identity holds the key and `now` is before its expiry. */
  predicate InWindow(f: Formats, id: Identity, key: PublicKey, now: real) {
    id.cert != "" && f.keyOf(id.cert) == Some(key) && now < id.ExpiresAt() as real
  }

  predicate HeldUntil(f: Formats, pair: IdentityPair, key: PublicKey, now: real) {
    InWindow(f, pair.current, key, now) || InWindow(f, pair.previous, key, now)
  }

  /** A Secret yields a key at an instant exactly when one of its identities holds it then. */
  lemma KeysAreHeld(f: Formats, pair: IdentityPair, now: real, key: PublicKey)
    ensures key in KeysAt(f, pair, now) <==> HeldUntil(f, pair, key, now)
  {
    assert key in KeyAt(f, pair.current, now) <==> InWindow(f, pair.current, key, now);
  }

  // ----- tokens, which keep their times in whole seconds

  const TokenAudience := "kontinuum-etcd-proxy"
  const TokenTTL := 5 * 60
  const TokenClockSkew := 10

  /** The registered claims of section 4.1 of RFC 7519 that the proxy reads. */
  datatype Claims = Claims(iss: string, sub: string, aud: seq<string>, exp: Option<int>, nbf: Option<int>)

  /** A signature is identified with the key that made it and the claims it covers. */
  datatype Token = Garbage | Token(alg: string, claims: Claims, signer: PublicKey, signed: Claims)

  /** The second an instant falls into. */
  function SecondOf(now: real): (s: int)
    ensures (s * Second) as real <= now < ((s + 1) * Second) as real
  {
    now.Floor / Second
  }

  /** The expiry is cut to the second. */
  function SignToken(zone: string, key: PublicKey, now: real): Token {
    var claims := Claims(zone, zone, [TokenAudience], Some(SecondOf(now) + TokenTTL), None);
    Token("EdDSA", claims, key, claims)
  }

  /** What the verifying parse checks: algorithm, signature, audience, and the times with leeway. */
  predicate Verifies(t: Token, key: PublicKey, now: real) {
    && t.Token? && t.alg == "EdDSA" && t.signer == key && t.signed == t.claims
    && TokenAudience in t.claims.aud
    && (t.claims.exp.Some? ==> now < ((t.claims.exp.value + TokenClockSkew) * Second) as real)
    && (t.claims.nbf.Some? ==> ((t.claims.nbf.value - TokenClockSkew) * Second) as real <= now)
  }

  /**
   The token is good for `zone` under one of the keys: it names the zone as issuer and subject and
   the proxy as audience, one of the keys made an Ed25519 signature over exactly these claims, and
   `now` is before its expiry and not before its start, each with ten seconds of leeway.
   */
  ghost predicate GoodFor(t: Token, zone: string, keys: seq<PublicKey>, now: real) {
    && zone != "" && t.Token? && t.claims.iss == zone && t.claims.sub == zone
    && "kontinuum-etcd-proxy" in t.claims.aud
    && t.alg == "EdDSA" && t.signer in keys && t.signed == t.claims
    && (forall exp :: t.claims.exp == Some(exp) ==> now < ((exp + 10) * Second) as real)
    && (forall nbf :: t.claims.nbf == Some(nbf) ==> now >= ((nbf - 10) * Second) as real)
  }

  method VerifyWithAnyKey(t: Token, issuer: string, keys: seq<PublicKey>, now: real) returns (zone: Option<string>)
    requires t.Token? && t.claims.iss == issuer
    ensures zone == if GoodFor(t, issuer, keys, now) then Some(issuer) else None
  {
    assert forall k :: k in keys ==> (Verifies(t, k, now) && issuer != "" && t.claims.sub == issuer <==>
      GoodFor(t, issuer, keys, now) && t.signer == k);
    for i := 0 to |keys|
      invariant forall j :: 0 <= j < i ==> !(Verifies(t, keys[j], now) && issuer != "" && t.claims.sub == issuer)
    {
      if Verifies(t, keys[i], now) && t.claims.iss != "" && t.claims.iss == t.claims.sub && t.claims.iss == issuer {
        assert keys[i] in keys;
        return Some(t.claims.iss);
      }
    }
    zone := None;
  }

  /**
   A freshly signed token is accepted for its zone exactly while it has not expired beyond the
   leeway and the signing key is among the zone's keys.
   */
  lemma SignedTokenVerifies(zone: string, key: PublicKey, issued: real, keys: seq<PublicKey>, now: real)
    ensures GoodFor(SignToken(zone, key, issued), zone, keys, now) <==>
      zone != "" && key in keys && now < ((SecondOf(issued) + 5 * 60 + 10) * Second) as real
  {
    var t := SignToken(zone, key, issued);
    assert TokenAudience in t.claims.aud;
  }

  /**
   Whatever is changed in a good token, its claims or the algorithm it names, makes it worthless: for
   every zone, under any keys and at any time.
   */
  lemma TamperedTokenFails(t: Token, keys: seq<PublicKey>, now: real, alg: string, claims: Claims, zone: string,
          others: seq<PublicKey>, later: real)
    requires t.Token? && GoodFor(t, t.claims.iss, keys, now) && (alg != t.alg || claims != t.claims)
    ensures !GoodFor(t.(alg := alg, claims := claims), zone, others, later)
  {
  }

  /** A token is good for one zone at most, whatever keys other zones hold. */
  lemma NoReplayAcrossZones(t: Token, a: string, b: string, keysA: seq<PublicKey>, keysB: seq<PublicKey>, now: real)
    requires GoodFor(t, a, keysA, now) && GoodFor(t, b, keysB, now)
    ensures a == b && exists k :: k in keysA && k in keysB && t.signer == k
  {
    assert t.signer in keysA && t.signer in keysB;
  }
}
