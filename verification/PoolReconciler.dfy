/**
 The InstancePool reconciler, run undisturbed.

 `Api` is the store as one client sees it when nobody else writes; the interleaved runs are the
 subject of PoolClaims and Lifecycle.
 */
module PoolReconciler {
  import opened ApiStore
  import opened Fleet
  import opened NameOrder

  // ----- what the reconciler is measured against

  ghost function ClaimedKeys(st: InstanceStore, pool: Key): set<Key> {
    set k | k in st.objects && Holds(st, pool, k)
  }

  ghost function CandidateKeys(st: InstanceStore, namespace: string, selector: Selector): set<Key> {
    set k | k in st.objects && k.namespace == namespace && Matches(selector, st.objects[k].labels) &&
      Claimable(st.objects[k])
  }

  ghost function DiscoveredKeys(st: InstanceStore, keys: set<Key>): set<Key> {
    set k | k in keys && k in st.objects && IsDiscovered(st.objects[k])
  }

  /** The copies are exactly the stored objects of `keys`, each once. */
  ghost predicate Lists(items: seq<InstanceCopy>, st: InstanceStore, keys: set<Key>) {
    && Distinct(items) && KeysOf(items) == keys
    && (forall c :: c in items ==> c.key in st.objects && c.obj == st.objects[c.key])
  }

  /** `after` differs from `before` only in the claim label of the keys in `drop` and `add`. */
  ghost predicate Relabelled(before: InstanceStore, after: InstanceStore, drop: set<Key>, add: set<Key>, pool: string) {
    && after.objects.Keys == before.objects.Keys
    && forall k :: k in before.objects ==>
         var o, o' := before.objects[k], after.objects[k];
         if k in drop then o' == o.(labels := o.labels - {LabelClaimedBy}, version := o'.version)
         else if k in add then o' == o.(labels := o.labels[LabelClaimedBy := pool], version := o'.version)
         else o' == o
  }

  /** What updateStatus writes. */
  function StatusFor(conds: Conditions, ready: int, claimed: int, replicas: int, insufficient: bool): PoolStatus {
    var reason := if insufficient then "CandidatesExhausted" else "Claimed";
    var text := if insufficient then "only claimed %d/%d replicas: no more matching unclaimed candidates"
      else "claimed %d/%d replicas";
    var message := Message(text, claimed, replicas);
    var conds' := conds[InsufficientCapacity := Condition(insufficient, reason, message)];
    PoolStatus(ready, conds'[Ready := Condition(!insufficient, reason, message)])
  }

  /**
   What a reported status says: the Discovered among the `claimed`, Ready exactly if nothing is
   missing and InsufficientCapacity exactly if something is, both with the counts; everything else
   is as it `was`.
   */
  ghost predicate Reports(was: PoolStatus, s: PoolStatus, ready: int, claimed: int, replicas: int, missing: bool) {
    && s.readyReplicas == ready
    && s.conditions.Keys == was.conditions.Keys + {"Ready", "InsufficientCapacity"}
    && s.conditions["Ready"].status == !missing && s.conditions["InsufficientCapacity"].status == missing
    && (forall kind :: kind in {"Ready", "InsufficientCapacity"} ==>
          && s.conditions[kind].reason == (if missing then "CandidatesExhausted" else "Claimed")
          && s.conditions[kind].message.claimed == claimed && s.conditions[kind].message.replicas == replicas)
    && (forall kind :: kind in was.conditions && kind !in {"Ready", "InsufficientCapacity"} ==>
          s.conditions[kind] == was.conditions[kind])
  }

  /** Nothing is left to do for the pool. */
  ghost predicate Settled(instances: InstanceStore, pools: PoolStore, pool: Key) {
    && pool in pools.objects
    && var p := pools.objects[pool]; var held := ClaimedKeys(instances, pool);
       && p.deletedAt.None? && InstancePoolFinalizer in p.finalizers
       && |held| <= p.spec.replicas
       && (|held| < p.spec.replicas ==>
             p.spec.selector.Requirements? && CandidateKeys(instances, pool.namespace, p.spec.selector) == {})
       && p.status == StatusFor(p.status.conditions, |DiscoveredKeys(instances, held)|, |held|, p.spec.replicas,
          |held| < p.spec.replicas)
  }

  // ----- the client

  class Api {
    var instances: InstanceStore
    var pools: PoolStore
    var writes: nat

    ghost predicate Valid()
      reads this
    {
      WellFormed(instances) && WellFormed(pools)
    }

    /** List: the stored objects of the keys that match, in no particular order. */
    method Fetch(keys: set<Key>) returns (items: seq<InstanceCopy>)
      requires keys <= instances.objects.Keys
      ensures Lists(items, instances, keys)
    {
      items := [];
      var rest := keys;
      while rest != {}
        invariant rest <= keys && Lists(items, instances, keys - rest)
      {
        var k :| k in rest;
        var c := Copy(k, instances.objects[k]);
        assert KeysOf(items + [c]) == KeysOf(items) + {k};
        items := items + [c];
        rest := rest - {k};
        assert keys - rest == KeysOf(items);
      }
      assert keys - rest == keys;
    }

    method UpdateInstance(c: InstanceCopy) returns (committed: bool)
      requires Valid()
      modifies this
      ensures Valid() && pools == old(pools) && writes == old(writes) + 1
      ensures committed == Accepts(old(instances), c)
      ensures instances == Update(old(instances), c)
    {
      committed := Accepts(instances, c);
      instances := Update(instances, c);
      writes := writes + 1;
    }

    method UpdatePool(c: PoolCopy) returns (committed: bool)
      requires Valid()
      modifies this
      ensures Valid() && instances == old(instances) && writes == old(writes) + 1
      ensures committed == Accepts(old(pools), c)
      ensures pools == Update(old(pools), c)
    {
      committed := Accepts(pools, c);
      pools := Update(pools, c);
      writes := writes + 1;
    }

    method UpdatePoolStatus(c: PoolCopy) returns (committed: bool)
      requires Valid()
      modifies this
      ensures Valid() && instances == old(instances) && writes == old(writes) + 1
      ensures committed == Accepts(old(pools), c)
      ensures pools == UpdateStatus(old(pools), c)
    {
      committed := Accepts(pools, c);
      pools := UpdateStatus(pools, c);
      writes := writes + 1;
    }
  }

  // ----- release

  /** The Instances of `sorted` from `n` up to `i` have lost their claim, nothing else changed. */
  ghost predicate ReleasedUpTo(before: InstanceStore, after: InstanceStore, sorted: seq<InstanceCopy>, n: nat, i: nat,
          pool: string)
    requires n <= i <= |sorted|
  {
    Relabelled(before, after, KeysOf(sorted[n..i]), {}, pool)
  }

  lemma ReleaseOne(before: InstanceStore, mid: InstanceStore, sorted: seq<InstanceCopy>, n: nat, i: nat, pool: string)
    requires n <= i < |sorted| && ReleasedUpTo(before, mid, sorted, n, i, pool) && WellFormed(mid)
    requires Lists(sorted, before, KeysOf(sorted))
    ensures Accepts(mid, WithoutClaim(sorted[i]))
    ensures ReleasedUpTo(before, Update(mid, WithoutClaim(sorted[i])), sorted, n, i + 1, pool)
  {
    var c := sorted[i];
    assert c in sorted;
    assert c.key !in KeysOf(sorted[n..i]);
    assert sorted[n..i + 1] == sorted[n..i] + [c];
    assert KeysOf(sorted[n..i + 1]) == KeysOf(sorted[n..i]) + {c.key};
  }

  lemma KeepOne(before: InstanceStore, mid: InstanceStore, sorted: seq<InstanceCopy>, i: nat, pool: string)
    requires i < |sorted| && ReleasedUpTo(before, mid, sorted, i, i, pool)
    ensures ReleasedUpTo(before, mid, sorted, i + 1, i + 1, pool) && sorted[..i] + [sorted[i]] == sorted[..i + 1]
  {
    assert sorted[i + 1..i + 1] == sorted[i..i];
  }

  lemma ReleaseDone(before: InstanceStore, after: InstanceStore, claimed: seq<InstanceCopy>, sorted: seq<InstanceCopy>,
          n: nat, target: nat, pool: string)
    requires n == (if target < |sorted| then target else |sorted|)
    requires ReleasedUpTo(before, after, sorted, n, |sorted|, pool)
    requires Sorted(sorted) && KeysOf(sorted) == KeysOf(claimed) && |sorted| == |claimed|
    requires Lists(sorted, before, KeysOf(sorted))
    ensures Relabelled(before, after, KeysOf(claimed) - Lowest(KeysOf(claimed), target), {}, pool)
    ensures Lists(sorted[..n], after, Lowest(KeysOf(claimed), target))
  {
    SortedPrefixIsLowest(sorted, n);
    PrefixAndRest(sorted, n);
    LowestCut(KeysOf(claimed), n, target);
    forall c | c in sorted[..n] ensures c.key in after.objects && c.obj == after.objects[c.key] {
      assert c in sorted && c.key in KeysOf(sorted[..n]);
    }
  }

  /** Sorting a List gives the same List in name order. */
  lemma SortKeepsList(items: seq<InstanceCopy>, st: InstanceStore, namespace: string)
    requires Lists(items, st, KeysOf(items)) && InNamespace(items, namespace)
    ensures var s := SortByName(items);
      Sorted(s) && KeysOf(s) == KeysOf(items) && |s| == |items| && Lists(s, st, KeysOf(s))
  {
    SortSorts(items, namespace);
  }

  /** Releases all but the `target` name-smallest of the claimed Instances. */
  method Release(api: Api, pool: string, claimed: seq<InstanceCopy>, target: nat, ghost namespace: string)
    returns (remaining: seq<InstanceCopy>)
    requires api.Valid() && Lists(claimed, api.instances, KeysOf(claimed)) && InNamespace(claimed, namespace)
    modifies api
    ensures api.Valid() && api.pools == old(api.pools)
    ensures Relabelled(old(api.instances), api.instances, KeysOf(claimed) - Lowest(KeysOf(claimed), target), {}, pool)
    ensures Lists(remaining, api.instances, Lowest(KeysOf(claimed), target))
    ensures |remaining| == if target < |claimed| then target else |claimed|
    ensures api.writes == old(api.writes) + |claimed| - |remaining|
  {
    ghost var before := api.instances;
    var sorted := SortByName(claimed);
    SortKeepsList(claimed, before, namespace);
    remaining := ReleaseInOrder(api, pool, sorted, target);
    ReleaseDone(before, api.instances, claimed, sorted, |remaining|, target, pool);
  }

  /** After `i` rounds: the first `target` are kept, those after them released. */
  ghost predicate Releasing(before: InstanceStore, after: InstanceStore, sorted: seq<InstanceCopy>, target: nat,
          i: nat, remaining: seq<InstanceCopy>, pool: string)
    requires i <= |sorted|
  {
    && |remaining| == (if i < target then i else target) && remaining == sorted[..|remaining|]
    && ReleasedUpTo(before, after, sorted, |remaining|, i, pool)
  }

  /** The release loop over the sorted claims. */
  method ReleaseInOrder(api: Api, pool: string, sorted: seq<InstanceCopy>, target: nat)
    returns (remaining: seq<InstanceCopy>)
    requires api.Valid() && Lists(sorted, api.instances, KeysOf(sorted))
    modifies api
    ensures api.Valid() && api.pools == old(api.pools)
    ensures Releasing(old(api.instances), api.instances, sorted, target, |sorted|, remaining, pool)
    ensures api.writes == old(api.writes) + |sorted| - |remaining|
  {
    ghost var before := api.instances;
    remaining := [];
    for i := 0 to |sorted|
      invariant api.Valid() && api.pools == old(api.pools)
      invariant Releasing(before, api.instances, sorted, target, i, remaining, pool)
      invariant api.writes == old(api.writes) + i - |remaining|
    {
      remaining := ReleaseNext(api, pool, sorted, target, i, remaining, before);
    }
  }

  /** One round of the loop; a claim whose release conflicts would be kept. */
  method ReleaseNext(api: Api, pool: string, sorted: seq<InstanceCopy>, target: nat, i: nat,
          remaining: seq<InstanceCopy>, ghost before: InstanceStore)
    returns (r: seq<InstanceCopy>)
    requires api.Valid() && i < |sorted| && Lists(sorted, before, KeysOf(sorted))
    requires Releasing(before, api.instances, sorted, target, i, remaining, pool)
    modifies api
    ensures api.Valid() && api.pools == old(api.pools)
    ensures Releasing(before, api.instances, sorted, target, i + 1, r, pool)
    ensures api.writes == old(api.writes) + 1 - (|r| - |remaining|)
  {
    var inst := sorted[i];
    if i < target {
      KeepOne(before, api.instances, sorted, i, pool);
      return remaining + [inst];
    }
    ReleaseOne(before, api.instances, sorted, |remaining|, i, pool);
    var committed := api.UpdateInstance(WithoutClaim(inst));
    r := if committed then remaining else remaining + [inst];
  }

  lemma PrefixAndRest(s: seq<InstanceCopy>, n: nat)
    requires Distinct(s) && n <= |s|
    ensures KeysOf(s[n..]) == KeysOf(s) - KeysOf(s[..n]) && s[n..|s|] == s[n..]
    ensures Distinct(s[..n]) && (forall c :: c in s[..n] ==> c in s)
  {
    assert s == s[..n] + s[n..];
    forall k ensures k in KeysOf(s[n..]) <==> k in KeysOf(s) - KeysOf(s[..n]) {
      if k in KeysOf(s[n..]) {
        var i :| 0 <= i < |s| - n && s[n..][i].key == k;
        assert s[n + i] in s;
      }
    }
  }

  /** Asking for more than there are changes nothing. */
  lemma LowestCut(s: set<Key>, n: int, m: int)
    requires n == m || (n == |s| && n <= m)
    ensures Lowest(s, n) == Lowest(s, m)
    ensures n == |s| ==> Lowest(s, n) == s
  {
    forall k | k in s ensures |Below(s, k)| < |s| {
      LessIsTotal(k.name, k.name);
      assert Below(s, k) <= s - {k};
      SubsetSize(Below(s, k), s - {k});
    }
  }

  lemma {:induction false} SubsetSize(a: set<Key>, b: set<Key>)
    requires a <= b
    ensures |a| <= |b| && (|a| == |b| ==> a == b)
  {
    assert b == a + (b - a);
  }

  // ----- claim

  /** Keeps the unclaimed, Discovered and Live candidates. */
  method ClaimableCandidates(candidates: seq<InstanceCopy>) returns (unclaimed: seq<InstanceCopy>)
    requires Distinct(candidates)
    ensures Distinct(unclaimed)
    ensures forall c :: c in unclaimed <==> c in candidates && Claimable(c.obj)
    ensures forall c :: c in unclaimed <==>
      && c in candidates && LabelClaimedBy !in c.obj.labels
      && IsTrue(c.obj.status.conditions, Discovered) && IsTrue(c.obj.status.conditions, Live)
  {
    unclaimed := [];
    for i := 0 to |candidates|
      invariant Distinct(unclaimed)
      invariant forall c :: c in unclaimed <==> c in candidates[..i] && Claimable(c.obj)
      invariant forall c :: c in unclaimed ==> exists j :: 0 <= j < i && candidates[j] == c
    {
      var inst := candidates[i];
      assert candidates[..i + 1] == candidates[..i] + [inst];
      if Claimable(inst.obj) {
        unclaimed := unclaimed + [inst];
      }
    }
    assert candidates[..|candidates|] == candidates;
  }

  /** Fetches the candidate again and claims it if nobody has. */
  method TryClaim(api: Api, pool: string, key: Key) returns (inst: InstanceCopy, ok: bool)
    requires api.Valid()
    modifies api
    ensures api.Valid() && api.pools == old(api.pools)
    ensures ok <==> key in old(api.instances).objects && ClaimedBy(old(api.instances).objects[key]).None?
    ensures api.instances ==
      if ok then Update(old(api.instances), WithClaim(Copy(key, old(api.instances).objects[key]), pool))
      else old(api.instances)
    ensures ok ==> key in api.instances.objects && inst == Copy(key, api.instances.objects[key])
  {
    inst := Copy(key, Object(0, 0, map[], {}, None, InstanceSpec([]), InstanceStatus(map[], [])));
    if key !in api.instances.objects {
      return inst, false;
    }
    var fetched := Copy(key, api.instances.objects[key]);
    if ClaimedBy(fetched.obj).Some? {
      return inst, false;
    }
    ok := api.UpdateInstance(WithClaim(fetched, pool));
    if ok {
      inst := Copy(key, api.instances.objects[key]);
    }
  }

  ghost predicate ClaimedUpTo(before: InstanceStore, after: InstanceStore, sorted: seq<InstanceCopy>, i: nat,
          pool: string)
    requires i <= |sorted|
  {
    Relabelled(before, after, {}, KeysOf(sorted[..i]), pool)
  }

  lemma ClaimOne(before: InstanceStore, mid: InstanceStore, sorted: seq<InstanceCopy>, i: nat, pool: string)
    requires i < |sorted| && ClaimedUpTo(before, mid, sorted, i, pool) && WellFormed(mid)
    requires Lists(sorted, before, KeysOf(sorted)) && Claimable(sorted[i].obj)
    ensures sorted[i].key in mid.objects && mid.objects[sorted[i].key] == sorted[i].obj
    ensures ClaimedUpTo(before, Update(mid, WithClaim(sorted[i], pool)), sorted, i + 1, pool)
  {
    var c := sorted[i];
    assert c in sorted;
    assert c.key !in KeysOf(sorted[..i]);
    assert sorted[..i + 1] == sorted[..i] + [c];
    assert KeysOf(sorted[..i + 1]) == KeysOf(sorted[..i]) + {c.key};
  }

  lemma ExtendList(items: seq<InstanceCopy>, mid: InstanceStore, after: InstanceStore, keys: set<Key>, c: InstanceCopy)
    requires Lists(items, mid, keys) && c.key !in keys && c.key in after.objects && c.obj == after.objects[c.key]
    requires forall k :: k in keys && k in mid.objects ==> k in after.objects && after.objects[k] == mid.objects[k]
    ensures Lists(items + [c], after, keys + {c.key})
  {
    assert KeysOf(items + [c]) == KeysOf(items) + {c.key};
    forall x | x in items ensures x.key in KeysOf(items) {}
  }

  /** The first `i` of `sorted` are claimed, nothing else changed, and `result` lists all the pool holds. */
  ghost predicate Progress(before: InstanceStore, after: InstanceStore, held: set<Key>, sorted: seq<InstanceCopy>,
          i: nat, pool: string, result: seq<InstanceCopy>)
    requires i <= |sorted|
  {
    ClaimedUpTo(before, after, sorted, i, pool) && Lists(result, after, held + KeysOf(sorted[..i]))
  }

  lemma ProgressStep(before: InstanceStore, mid: InstanceStore, held: set<Key>, sorted: seq<InstanceCopy>, i: nat,
          pool: string, result: seq<InstanceCopy>)
    requires i < |sorted| && WellFormed(mid) && Progress(before, mid, held, sorted, i, pool, result)
    requires Lists(sorted, before, KeysOf(sorted)) && Claimable(sorted[i].obj) && held !! KeysOf(sorted)
    ensures sorted[i].key in mid.objects && mid.objects[sorted[i].key] == sorted[i].obj
    ensures var after := Update(mid, WithClaim(sorted[i], pool)); var k := sorted[i].key;
      k in after.objects && Progress(before, after, held, sorted, i + 1, pool, result + [Copy(k, after.objects[k])])
  {
    var c := sorted[i];
    ClaimOne(before, mid, sorted, i, pool);
    var after := Update(mid, WithClaim(c, pool));
    assert c in sorted && c.key in KeysOf(sorted);
    assert c.key !in KeysOf(sorted[..i]);
    ExtendList(result, mid, after, held + KeysOf(sorted[..i]), Copy(c.key, after.objects[c.key]));
    assert sorted[..i + 1] == sorted[..i] + [c];
    assert held + KeysOf(sorted[..i]) + {c.key} == held + KeysOf(sorted[..i + 1]);
  }

  /** The claim loop over the sorted candidates. */
  method ClaimInOrder(api: Api, pool: string, replicas: int, claimed: seq<InstanceCopy>, sorted: seq<InstanceCopy>)
    returns (result: seq<InstanceCopy>, ghost n: nat)
    requires api.Valid() && |claimed| < replicas && Lists(claimed, api.instances, KeysOf(claimed))
    requires Lists(sorted, api.instances, KeysOf(sorted)) && KeysOf(claimed) !! KeysOf(sorted)
    requires forall c :: c in sorted ==> Claimable(c.obj)
    modifies api
    ensures api.Valid() && api.pools == old(api.pools)
    ensures n == if replicas - |claimed| < |sorted| then replicas - |claimed| else |sorted|
    ensures |result| == |claimed| + n
    ensures Progress(old(api.instances), api.instances, KeysOf(claimed), sorted, n, pool, result)
    ensures sorted == [] ==> api.instances == old(api.instances) && api.writes == old(api.writes)
  {
    ghost var before := api.instances;
    result := claimed;
    var i := 0;
    while i < |sorted| && |result| < replicas
      invariant i <= |sorted| && api.Valid() && api.pools == old(api.pools)
      invariant |result| == |claimed| + i <= replicas
      invariant Progress(before, api.instances, KeysOf(claimed), sorted, i, pool, result)
      invariant i == 0 ==> api.instances == before && api.writes == old(api.writes)
      decreases |sorted| - i
    {
      ProgressStep(before, api.instances, KeysOf(claimed), sorted, i, pool, result);
      assert sorted[i] in sorted;
      var inst, taken := TryClaim(api, pool, sorted[i].key);
      if taken {
        result := result + [inst];
      }
      i := i + 1;
    }
    n := i;
  }

  /** Claims the name-smallest candidates until the pool has its replicas or none is left. */
  method Claim(api: Api, pool: PoolCopy, claimed: seq<InstanceCopy>) returns (result: seq<InstanceCopy>, ok: bool)
    requires api.Valid() && |claimed| < pool.obj.spec.replicas
    requires Lists(claimed, api.instances, ClaimedKeys(api.instances, pool.key))
    modifies api
    ensures api.Valid() && api.pools == old(api.pools)
    ensures ok <==> pool.obj.spec.selector.Requirements?
    ensures !ok ==> api.instances == old(api.instances)
    ensures ok ==> Topped(old(api.instances), api.instances, pool.key, pool.obj.spec, result)
    ensures ok && CandidateKeys(old(api.instances), pool.key.namespace, pool.obj.spec.selector) == {} ==>
      api.instances == old(api.instances) && api.writes == old(api.writes)
  {
    var selector, namespace := pool.obj.spec.selector, pool.key.namespace;
    result := claimed;
    if selector.Malformed? {
      return result, false;
    }
    ok := true;
    ghost var before := api.instances;
    var matching := set k | k in api.instances.objects && k.namespace == namespace &&
      Matches(selector, api.instances.objects[k].labels);
    var candidates := api.Fetch(matching);
    var unclaimed := ClaimableCandidates(candidates);
    CandidatesListed(before, namespace, selector, candidates, unclaimed);
    var sorted := SortByName(unclaimed);
    SortSorts(unclaimed, namespace);
    KeysOfSize(sorted);
    ghost var n;
    result, n := ClaimInOrder(api, pool.key.name, pool.obj.spec.replicas, claimed, sorted);
    ClaimDone(before, api.instances, pool.key, pool.obj.spec, claimed, sorted, n, result);
  }

  lemma TakenIsPrefix(before: InstanceStore, pool: Key, spec: PoolSpec, claimed: seq<InstanceCopy>,
          sorted: seq<InstanceCopy>, n: nat)
    requires Distinct(claimed) && KeysOf(claimed) == ClaimedKeys(before, pool) && |claimed| < spec.replicas
    requires Sorted(sorted) && KeysOf(sorted) == CandidateKeys(before, pool.namespace, spec.selector)
    requires n == if spec.replicas - |claimed| < |sorted| then spec.replicas - |claimed| else |sorted|
    ensures |ClaimedKeys(before, pool)| == |claimed|
    ensures |CandidateKeys(before, pool.namespace, spec.selector)| == |sorted|
    ensures Taken(before, pool, spec) == KeysOf(sorted[..n])
  {
    KeysOfSize(claimed);
    SortedPrefixIsLowest(sorted, n);
    LowestCut(KeysOf(sorted), n, spec.replicas - |claimed|);
  }

  lemma ClaimDone(before: InstanceStore, after: InstanceStore, pool: Key, spec: PoolSpec, claimed: seq<InstanceCopy>,
          sorted: seq<InstanceCopy>, n: nat, result: seq<InstanceCopy>)
    requires Distinct(claimed) && KeysOf(claimed) == ClaimedKeys(before, pool) && |claimed| < spec.replicas
    requires Sorted(sorted) && KeysOf(sorted) == CandidateKeys(before, pool.namespace, spec.selector)
    requires n == if spec.replicas - |claimed| < |sorted| then spec.replicas - |claimed| else |sorted|
    requires Progress(before, after, KeysOf(claimed), sorted, n, pool.name, result) && |result| == |claimed| + n
    ensures Topped(before, after, pool, spec, result)
  {
    TakenIsPrefix(before, pool, spec, claimed, sorted, n);
    KeysOfSize(result);
  }

  /** What the pool misses is made up from the name-smallest candidates, as far as they go. */
  ghost predicate Topped(before: InstanceStore, after: InstanceStore, pool: Key, spec: PoolSpec,
          result: seq<InstanceCopy>)
  {
    var held, candidates := ClaimedKeys(before, pool), CandidateKeys(before, pool.namespace, spec.selector);
    var missing := spec.replicas - |held|;
    && Relabelled(before, after, {}, Taken(before, pool, spec), pool.name)
    && Lists(result, after, held + Taken(before, pool, spec))
    && |result| == |held + Taken(before, pool, spec)|
    && |result| == |held| + (if missing < |candidates| then missing else |candidates|)
  }

  lemma CandidatesListed(st: InstanceStore, namespace: string, selector: Selector, candidates: seq<InstanceCopy>,
          unclaimed: seq<InstanceCopy>)
    requires Lists(candidates, st, set k | k in st.objects && k.namespace == namespace &&
      Matches(selector, st.objects[k].labels))
    requires forall c :: c in unclaimed <==> c in candidates && Claimable(c.obj)
    ensures KeysOf(unclaimed) == CandidateKeys(st, namespace, selector)
    ensures InNamespace(unclaimed, namespace)
    ensures forall c :: c in unclaimed ==> c.key in st.objects && c.obj == st.objects[c.key]
  {
    forall c | c in candidates ensures c.key in KeysOf(candidates) {}
    forall k | k in CandidateKeys(st, namespace, selector) ensures k in KeysOf(unclaimed) {
      assert k in KeysOf(candidates);
      var c :| c in candidates && c.key == k;
      assert c in unclaimed;
    }
  }

  // ----- status

  /** meta.SetStatusCondition, and whether it changed anything. */
  function SetCondition(conds: Conditions, kind: string, c: Condition): (Conditions, bool) {
    (conds[kind := c], kind !in conds || conds[kind] != c)
  }

  method CountReady(claimed: seq<InstanceCopy>, ghost st: InstanceStore) returns (ready: nat)
    requires Lists(claimed, st, KeysOf(claimed))
    ensures ready == |DiscoveredKeys(st, KeysOf(claimed))|
  {
    ready := 0;
    for i := 0 to |claimed|
      invariant ready == |DiscoveredKeys(st, KeysOf(claimed[..i]))|
    {
      var inst := claimed[i];
      assert inst in claimed;
      assert claimed[..i + 1] == claimed[..i] + [inst];
      assert KeysOf(claimed[..i + 1]) == KeysOf(claimed[..i]) + {inst.key};
      assert inst.key !in KeysOf(claimed[..i]);
      if IsDiscovered(inst.obj) {
        assert DiscoveredKeys(st, KeysOf(claimed[..i + 1])) == DiscoveredKeys(st, KeysOf(claimed[..i])) + {inst.key};
        ready := ready + 1;
      } else {
        assert DiscoveredKeys(st, KeysOf(claimed[..i + 1])) == DiscoveredKeys(st, KeysOf(claimed[..i]));
      }
    }
    assert claimed[..|claimed|] == claimed;
  }

  datatype Result = Done | Requeue | Failed

  /** Writes the status, but only when it says something new. */
  method ReportStatus(api: Api, pool: PoolCopy, claimed: seq<InstanceCopy>, insufficient: bool) returns (r: Result)
    requires api.Valid() && pool.key in api.pools.objects && api.pools.objects[pool.key] == pool.obj
    requires Lists(claimed, api.instances, KeysOf(claimed))
    modifies api
    ensures api.Valid() && api.instances == old(api.instances)
    ensures var status := StatusFor(pool.obj.status.conditions, |DiscoveredKeys(api.instances, KeysOf(claimed))|,
      |claimed|, pool.obj.spec.replicas, insufficient);
      if status == pool.obj.status then api.pools == old(api.pools) && api.writes == old(api.writes)
      else api.pools == UpdateStatus(old(api.pools), pool.(obj := pool.obj.(status := status)))
    ensures pool.key in api.pools.objects
    ensures Reports(pool.obj.status, api.pools.objects[pool.key].status,
      |DiscoveredKeys(api.instances, KeysOf(claimed))|, |claimed|, pool.obj.spec.replicas, insufficient)
    ensures r == if insufficient then Requeue else Done
  {
    var ready := CountReady(claimed, api.instances);
    var changed := pool.obj.status.readyReplicas != ready;
    var status, reason := insufficient, if insufficient then "CandidatesExhausted" else "Claimed";
    var text := if insufficient then "only claimed %d/%d replicas: no more matching unclaimed candidates"
      else "claimed %d/%d replicas";
    var message := Message(text, |claimed|, pool.obj.spec.replicas);
    var (conds, insufficientChanged) := SetCondition(pool.obj.status.conditions, InsufficientCapacity,
      Condition(status, reason, message));
    var (conds', readyChanged) := SetCondition(conds, Ready, Condition(!insufficient, reason, message));
    if changed || insufficientChanged || readyChanged {
      var committed := api.UpdatePoolStatus(pool.(obj := pool.obj.(status := PoolStatus(ready, conds'))));
      if !committed {
        return Failed;
      }
    } else {
      assert conds == pool.obj.status.conditions && conds' == conds;
    }
    StatusReports(pool.obj.status, ready, |claimed|, pool.obj.spec.replicas, insufficient);
    r := if insufficient then Requeue else Done;
  }

  /** What updateStatus writes says how many Instances there are and whether that is enough. */
  lemma StatusReports(was: PoolStatus, ready: int, claimed: int, replicas: int, missing: bool)
    ensures var s := StatusFor(was.conditions, ready, claimed, replicas, missing);
      Reports(was, s, ready, claimed, replicas, missing)
  {
    assert InsufficientCapacity != Ready;
  }

  // ----- the whole reconcile

  /** The pool has lost its own finalizer and keeps the others, if there are any; otherwise it is gone. */
  ghost predicate LetGo(before: PoolStore, after: PoolStore, key: Key)
    requires key in before.objects
  {
    var p := before.objects[key]; var others := p.finalizers - {InstancePoolFinalizer};
    && after.objects - {key} == before.objects - {key}
    && (key !in after.objects <==> p.deletedAt.Some? && others == {})
    && (key in after.objects ==>
          after.objects[key] == p.(finalizers := others, version := after.objects[key].version))
  }

  /** Releases everything, or lets the pool go once nothing is left. */
  method ReconcileTeardown(api: Api, pool: PoolCopy) returns (r: Result)
    requires api.Valid() && pool.key in api.pools.objects && api.pools.objects[pool.key] == pool.obj
    modifies api
    ensures api.Valid()
    ensures InstancePoolFinalizer !in pool.obj.finalizers ==>
      r == Done && api.instances == old(api.instances) && api.pools == old(api.pools)
    ensures InstancePoolFinalizer in pool.obj.finalizers && ClaimedKeys(old(api.instances), pool.key) != {} ==>
      && r == Requeue && api.pools == old(api.pools)
      && Relabelled(old(api.instances), api.instances, ClaimedKeys(old(api.instances), pool.key), {}, pool.key.name)
    ensures InstancePoolFinalizer in pool.obj.finalizers && ClaimedKeys(old(api.instances), pool.key) == {} ==>
      r == Done && api.instances == old(api.instances) && LetGo(old(api.pools), api.pools, pool.key)
  {
    if InstancePoolFinalizer !in pool.obj.finalizers {
      return Done;
    }
    var claimed := api.Fetch(set k | k in api.instances.objects && Holds(api.instances, pool.key, k));
    ListedClaims(api.instances, pool.key, claimed);
    if |claimed| > 0 {
      assert claimed[0] in claimed && claimed[0].key in KeysOf(claimed);
      var _ := Release(api, pool.key.name, claimed, 0, pool.key.namespace);
      assert Lowest(KeysOf(claimed), 0) == {};
      return Requeue;
    }
    var committed := api.UpdatePool(WithoutPoolFinalizer(pool));
    if !committed {
      return Failed;
    }
    r := Done;
  }

  lemma ListedClaims(st: InstanceStore, pool: Key, claimed: seq<InstanceCopy>)
    requires Lists(claimed, st, ClaimedKeys(st, pool))
    ensures InNamespace(claimed, pool.namespace) && |claimed| == |ClaimedKeys(st, pool)|
  {
    KeysOfSize(claimed);
    forall c | c in claimed ensures c.key.namespace == pool.namespace {
      assert c.key in KeysOf(claimed);
    }
  }

  /** Whom the pool lets go and whom it takes. */
  ghost function Dropped(st: InstanceStore, pool: Key, replicas: int): set<Key> {
    ClaimedKeys(st, pool) - Lowest(ClaimedKeys(st, pool), replicas)
  }

  ghost function Taken(st: InstanceStore, pool: Key, spec: PoolSpec): set<Key> {
    if |ClaimedKeys(st, pool)| < spec.replicas
    then Lowest(CandidateKeys(st, pool.namespace, spec.selector), spec.replicas - |ClaimedKeys(st, pool)|)
    else {}
  }

  lemma AfterRelease(before: InstanceStore, after: InstanceStore, pool: Key, n: int)
    requires Relabelled(before, after, ClaimedKeys(before, pool) - Lowest(ClaimedKeys(before, pool), n), {}, pool.name)
    ensures ClaimedKeys(after, pool) == Lowest(ClaimedKeys(before, pool), n)
  {
  }

  lemma AfterClaim(before: InstanceStore, after: InstanceStore, pool: Key, selector: Selector, taken: set<Key>)
    requires taken <= CandidateKeys(before, pool.namespace, selector)
    requires Relabelled(before, after, {}, taken, pool.name)
    ensures ClaimedKeys(after, pool) == ClaimedKeys(before, pool) + taken
    ensures CandidateKeys(after, pool.namespace, selector) == CandidateKeys(before, pool.namespace, selector) - taken
  {
  }

  method EnsureFinalizer(api: Api, pool: PoolCopy) returns (r: PoolCopy, ok: bool)
    requires api.Valid() && pool.key in api.pools.objects && api.pools.objects[pool.key] == pool.obj
    requires pool.obj.deletedAt.None?
    modifies api
    ensures api.Valid() && api.instances == old(api.instances) && ok
    ensures r.key == pool.key && pool.key in api.pools.objects && api.pools.objects[pool.key] == r.obj
    ensures r.obj ==
      pool.obj.(finalizers := pool.obj.finalizers + {InstancePoolFinalizer}, version := r.obj.version)
    ensures InstancePoolFinalizer in pool.obj.finalizers ==>
      api.pools == old(api.pools) && api.writes == old(api.writes)
  {
    r, ok := pool, true;
    if InstancePoolFinalizer in pool.obj.finalizers {
      assert pool.obj.finalizers == pool.obj.finalizers + {InstancePoolFinalizer};
      return;
    }
    ok := api.UpdatePool(WithPoolFinalizer(pool));
    if ok {
      r := Copy(pool.key, api.pools.objects[pool.key]);
    }
  }

  lemma ReleaseBalances(before: InstanceStore, after: InstanceStore, pool: Key, spec: PoolSpec,
          remaining: seq<InstanceCopy>)
    requires 0 <= spec.replicas < |ClaimedKeys(before, pool)| && |remaining| == spec.replicas
    requires Relabelled(before, after, Dropped(before, pool, spec.replicas), {}, pool.name)
    requires Lists(remaining, after, Lowest(ClaimedKeys(before, pool), spec.replicas))
    ensures Balanced(before, after, pool, spec) && Lists(remaining, after, ClaimedKeys(after, pool))
  {
    AfterRelease(before, after, pool, spec.replicas);
    KeysOfSize(remaining);
  }

  lemma ClaimCalms(before: InstanceStore, after: InstanceStore, pool: Key, spec: PoolSpec, held: set<Key>,
          taken: set<Key>, n: int)
    requires spec.selector.Requirements? && held == ClaimedKeys(before, pool) && |held| < spec.replicas
    requires taken == Lowest(CandidateKeys(before, pool.namespace, spec.selector), spec.replicas - |held|)
    requires Relabelled(before, after, {}, taken, pool.name) && |held + taken| == n
    requires n == |held| + (if spec.replicas - |held| < |CandidateKeys(before, pool.namespace, spec.selector)|
      then spec.replicas - |held| else |CandidateKeys(before, pool.namespace, spec.selector)|)
    ensures ClaimedKeys(after, pool) == held + taken && Calm(after, pool, spec)
  {
    AfterClaim(before, after, pool, spec.selector, taken);
    LowestOfEnough(CandidateKeys(before, pool.namespace, spec.selector), spec.replicas - |held|);
  }

  lemma ClaimBalances(before: InstanceStore, after: InstanceStore, pool: Key, spec: PoolSpec, result: seq<InstanceCopy>)
    requires spec.selector.Requirements? && |ClaimedKeys(before, pool)| < spec.replicas
    requires Topped(before, after, pool, spec, result)
    ensures Balanced(before, after, pool, spec) && Lists(result, after, ClaimedKeys(after, pool))
  {
    var held := ClaimedKeys(before, pool);
    ClaimCalms(before, after, pool, spec, held, Taken(before, pool, spec), |result|);
    LowestOfEnough(held, spec.replicas);
    assert Dropped(before, pool, spec.replicas) == {};
  }

  lemma IdleBalances(st: InstanceStore, pool: Key, spec: PoolSpec)
    requires |ClaimedKeys(st, pool)| == spec.replicas
    ensures Balanced(st, st, pool, spec)
  {
    LowestOfEnough(ClaimedKeys(st, pool), spec.replicas);
    assert Dropped(st, pool, spec.replicas) == {};
  }

  /** Scale-down and scale-up in one: at most one of the two does something. */
  method Rebalance(api: Api, pool: PoolCopy) returns (claimed: seq<InstanceCopy>, insufficient: bool, ok: bool)
    requires api.Valid() && pool.obj.spec.replicas >= 0
    modifies api
    ensures api.Valid() && api.pools == old(api.pools)
    ensures ok <==>
      |ClaimedKeys(old(api.instances), pool.key)| >= pool.obj.spec.replicas || pool.obj.spec.selector.Requirements?
    ensures !ok ==> api.instances == old(api.instances)
    ensures ok ==> Balanced(old(api.instances), api.instances, pool.key, pool.obj.spec)
    ensures ok ==> Lists(claimed, api.instances, ClaimedKeys(api.instances, pool.key))
    ensures ok ==> insufficient == (|claimed| < pool.obj.spec.replicas)
    ensures Calm(old(api.instances), pool.key, pool.obj.spec) ==>
      api.instances == old(api.instances) && api.writes == old(api.writes)
  {
    ghost var before := api.instances;
    var replicas := pool.obj.spec.replicas;
    claimed := api.Fetch(set k | k in api.instances.objects && Holds(api.instances, pool.key, k));
    ListedClaims(before, pool.key, claimed);
    ok, insufficient := true, false;
    if |claimed| > replicas {
      claimed := Release(api, pool.key.name, claimed, replicas, pool.key.namespace);
      ReleaseBalances(before, api.instances, pool.key, pool.obj.spec, claimed);
    } else if |claimed| < replicas {
      claimed, ok := Claim(api, pool, claimed);
      if ok {
        insufficient := |claimed| < replicas;
        ClaimBalances(before, api.instances, pool.key, pool.obj.spec, claimed);
      }
    } else {
      IdleBalances(before, pool.key, pool.obj.spec);
    }
  }

  lemma LowestOfEnough(s: set<Key>, n: int)
    requires n >= 0
    ensures n >= |s| ==> Lowest(s, n) == s
  {
    if n >= |s| { LowestCut(s, |s|, n); }
  }

  /** Neither too many claims nor anything to claim. */
  ghost predicate Calm(st: InstanceStore, pool: Key, spec: PoolSpec) {
    && |ClaimedKeys(st, pool)| <= spec.replicas
    && (|ClaimedKeys(st, pool)| < spec.replicas ==>
          spec.selector.Requirements? && CandidateKeys(st, pool.namespace, spec.selector) == {})
  }

  /** The pool ends with the right Instances, nothing else is touched, and nothing is left to do. */
  ghost predicate Balanced(before: InstanceStore, after: InstanceStore, pool: Key, spec: PoolSpec) {
    var held := ClaimedKeys(before, pool);
    && Relabelled(before, after, Dropped(before, pool, spec.replicas), Taken(before, pool, spec), pool.name)
    && ClaimedKeys(after, pool) ==
         (if |held| > spec.replicas then Lowest(held, spec.replicas) else held + Taken(before, pool, spec))
    && Calm(after, pool, spec)
  }

  /** What one reconcile of an active pool, stored as `was`, leaves behind. */
  ghost predicate Converged(before: InstanceStore, after: InstanceStore, pools: PoolStore, key: Key, was: Pool,
          r: Result)
  {
    var held, replicas := ClaimedKeys(after, key), was.spec.replicas;
    && Balanced(before, after, key, was.spec)
    && Settled(after, pools, key)
    && var p := pools.objects[key];
       && p == was.(finalizers := was.finalizers + {InstancePoolFinalizer}, status := p.status, version := p.version)
       && (r.Requeue? <==> |held| < replicas)
       && (IsTrue(p.status.conditions, Ready) <==> |held| == replicas)
       && (IsTrue(p.status.conditions, InsufficientCapacity) <==> |held| < replicas)
       && Reports(was.status, p.status, |DiscoveredKeys(after, held)|, |held|, replicas, |held| < replicas)
  }

  method ReconcileActive(api: Api, pool: PoolCopy) returns (r: Result)
    requires api.Valid() && pool.key in api.pools.objects && api.pools.objects[pool.key] == pool.obj
    requires pool.obj.deletedAt.None? && pool.obj.spec.replicas >= 0
    modifies api
    ensures api.Valid()
    ensures r.Failed? ==>
      |ClaimedKeys(old(api.instances), pool.key)| < pool.obj.spec.replicas && pool.obj.spec.selector.Malformed? &&
        api.instances == old(api.instances)
    ensures !r.Failed? ==> Converged(old(api.instances), api.instances, api.pools, pool.key, pool.obj, r)
    ensures Settled(old(api.instances), old(api.pools), pool.key) ==>
      api.instances == old(api.instances) && api.pools == old(api.pools) && api.writes == old(api.writes) && !r.Failed?
  {
    var updated, ok := EnsureFinalizer(api, pool);
    r := RebalanceAndReport(api, updated);
  }

  method RebalanceAndReport(api: Api, pool: PoolCopy) returns (r: Result)
    requires api.Valid() && pool.key in api.pools.objects && api.pools.objects[pool.key] == pool.obj
    requires pool.obj.deletedAt.None? && pool.obj.spec.replicas >= 0 && InstancePoolFinalizer in pool.obj.finalizers
    modifies api
    ensures api.Valid()
    ensures r.Failed? ==>
      |ClaimedKeys(old(api.instances), pool.key)| < pool.obj.spec.replicas && pool.obj.spec.selector.Malformed? &&
        api.instances == old(api.instances)
    ensures !r.Failed? ==> Converged(old(api.instances), api.instances, api.pools, pool.key, pool.obj, r)
    ensures Settled(old(api.instances), old(api.pools), pool.key) ==>
      api.instances == old(api.instances) && api.pools == old(api.pools) && api.writes == old(api.writes) && !r.Failed?
  {
    var claimed, insufficient, ok := Rebalance(api, pool);
    if !ok {
      return Failed;
    }
    ghost var before := old(api.instances);
    ListedClaims(api.instances, pool.key, claimed);
    r := ReportStatus(api, pool, claimed, insufficient);
    StatusConverges(before, api.instances, api.pools, pool, insufficient, r);
  }

  lemma StatusConverges(before: InstanceStore, instances: InstanceStore, pools: PoolStore, pool: PoolCopy,
          insufficient: bool, r: Result)
    requires pool.key in pools.objects && pool.obj.deletedAt.None? && InstancePoolFinalizer in pool.obj.finalizers
    requires Balanced(before, instances, pool.key, pool.obj.spec)
    requires insufficient == (|ClaimedKeys(instances, pool.key)| < pool.obj.spec.replicas)
    requires r == if insufficient then Requeue else Done
    requires var held := ClaimedKeys(instances, pool.key);
      var status := StatusFor(pool.obj.status.conditions, |DiscoveredKeys(instances, held)|, |held|,
        pool.obj.spec.replicas, insufficient);
      pools.objects[pool.key] == pool.obj.(status := status, version := pools.objects[pool.key].version)
    ensures Converged(before, instances, pools, pool.key, pool.obj, r)
  {
    var held := ClaimedKeys(instances, pool.key);
    var ready := |DiscoveredKeys(instances, held)|;
    StatusSettles(pool.obj.status.conditions, ready, |held|, pool.obj.spec.replicas, insufficient);
    StatusReports(pool.obj.status, ready, |held|, pool.obj.spec.replicas, insufficient);
    assert pool.obj.finalizers + {InstancePoolFinalizer} == pool.obj.finalizers;
  }

  /** Writing the status once more would write the same. */
  lemma StatusSettles(conds: Conditions, ready: int, claimed: int, replicas: int, insufficient: bool)
    ensures var s := StatusFor(conds, ready, claimed, replicas, insufficient);
      && StatusFor(s.conditions, ready, claimed, replicas, insufficient) == s
      && IsTrue(s.conditions, InsufficientCapacity) == insufficient
  {
    assert InsufficientCapacity != Ready;
  }

  /** One undisturbed reconcile; `acquired` is the zone lease's answer. */
  method Reconcile(api: Api, key: Key, acquired: bool) returns (r: Result)
    requires api.Valid()
    requires key in api.pools.objects && api.pools.objects[key].deletedAt.None? ==>
      api.pools.objects[key].spec.replicas >= 0
    modifies api
    ensures api.Valid()
    ensures key !in old(api.pools).objects || !acquired ==>
      && api.instances == old(api.instances) && api.pools == old(api.pools) && api.writes == old(api.writes)
      && r == if key in old(api.pools).objects then Requeue else Done
    ensures acquired && IsDeleted(old(api.pools), key) ==>
      if InstancePoolFinalizer !in old(api.pools).objects[key].finalizers
      then r == Done && api.instances == old(api.instances) && api.pools == old(api.pools)
      else if ClaimedKeys(old(api.instances), key) == {}
      then r == Done && api.instances == old(api.instances) && LetGo(old(api.pools), api.pools, key)
      else
        && r == Requeue && api.pools == old(api.pools)
        && Relabelled(old(api.instances), api.instances, ClaimedKeys(old(api.instances), key), {}, key.name)
        && ClaimedKeys(api.instances, key) == {}
    ensures acquired && key in old(api.pools).objects && !IsDeleted(old(api.pools), key) && r.Failed? ==>
      && |ClaimedKeys(old(api.instances), key)| < old(api.pools).objects[key].spec.replicas
      && old(api.pools).objects[key].spec.selector.Malformed? && api.instances == old(api.instances)
    ensures acquired && key in old(api.pools).objects && !IsDeleted(old(api.pools), key) && !r.Failed? ==>
      Converged(old(api.instances), api.instances, api.pools, key, old(api.pools).objects[key], r)
    ensures acquired && Settled(old(api.instances), old(api.pools), key) ==>
      api.instances == old(api.instances) && api.pools == old(api.pools) && api.writes == old(api.writes) && !r.Failed?
  {
    if key !in api.pools.objects {
      return Done;
    }
    var pool := Copy(key, api.pools.objects[key]);
    if !acquired {
      return Requeue;
    }
    if pool.obj.deletedAt.Some? {
      r := ReconcileTeardown(api, pool);
      assert ClaimedKeys(old(api.instances), key) != {} && InstancePoolFinalizer in pool.obj.finalizers ==>
        ClaimedKeys(api.instances, key) == {};
    } else {
      r := ReconcileActive(api, pool);
    }
  }

  predicate IsDeleted(pools: PoolStore, key: Key) {
    key in pools.objects && pools.objects[key].deletedAt.Some?
  }

  /** An immediate second reconcile issues no write at all. */
  method ReconcileTwice(api: Api, key: Key) returns (first: Result, second: Result, writes: nat)
    requires api.Valid() && key in api.pools.objects && api.pools.objects[key].deletedAt.None?
    requires api.pools.objects[key].spec.replicas >= 0
    modifies api
    ensures api.Valid()
    ensures !first.Failed? ==> second == first && api.writes == writes
  {
    first := Reconcile(api, key, true);
    writes := api.writes;
    second := first;
    if !first.Failed? {
      second := Reconcile(api, key, true);
    }
  }
}
