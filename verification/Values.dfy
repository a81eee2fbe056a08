/** Resolving an addon's Helm values: computed defaults first, then the user's values on top. */
module Values {
  import opened ApiStore

  datatype Scalar = Null | Bool(b: bool) | Number(n: int) | Text(s: string)

  /** A values tree as JSON or YAML decodes it. */
  datatype Value = Leaf(scalar: Scalar) | Map(entries: map<string, Value>) | List(items: seq<Value>)

  type Tree = map<string, Value>

  // ----- mergeValues

  /** Overlay onto base: maps merge key by key, anything else is replaced. */
  function Merge(base: Value, overlay: Value): Value
    decreases overlay
  {
    if base.Map? && overlay.Map? then
      Map(map k | k in base.entries.Keys + overlay.entries.Keys ::
            if k !in overlay.entries then base.entries[k]
            else if k !in base.entries then overlay.entries[k]
            else Merge(base.entries[k], overlay.entries[k]))
    else overlay
  }

  function MergeTrees(base: Tree, overlay: Tree): Tree {
    Merge(Map(base), Map(overlay)).entries
  }

  /** What a map may hold: a map of its own, shared by reference, or anything else, which merging never looks into. */
  datatype Any = Plain(v: Value) | Nested(m: GoMap)

  /** A map on the heap, as the source passes it around; a nil one reads as an empty one. */
  class GoMap {
    var entries: map<string, Any>
    ghost var tree: Tree
    ghost var repr: set<GoMap>

    /** `tree` is what the map stands for and `repr` covers the maps below it, which it is not among. */
    ghost predicate Valid()
      reads this, repr
      decreases repr
    {
      && this in repr && tree.Keys == entries.Keys
      && forall k :: k in entries ==> Stands(entries[k], tree[k])
    }

    ghost predicate Stands(a: Any, v: Value)
      requires this in repr
      reads this, repr
      decreases repr, 0
    {
      match a
      case Plain(p) => !p.Map? && v == p
      case Nested(m) => m in repr && m.repr <= repr - {this} && m.Valid() && v == Map(m.tree)
    }

    /** maps.Clone is shallow: the new map shares the maps below with the old one. */
    constructor Clone(base: GoMap)
      requires base.Valid()
      ensures Valid() && fresh(this) && entries == base.entries && tree == base.tree && repr == {this} + base.repr
    {
      entries := base.entries;
      tree := base.tree;
      repr := {this} + base.repr;
    }

    /** m[key] = a, for an entry that is valid beside this map. */
    method Set(key: string, a: Any, ghost v: Value)
      requires Valid() && Fits(a, v)
      modifies this
      ensures Valid() && entries == old(entries)[key := a] && tree == old(tree)[key := v]
      ensures repr == old(repr) + Below(a)
    {
      ghost var below := Below(a);
      entries := entries[key := a];
      tree := tree[key := v];
      repr := repr + below;
    }

    ghost function Below(a: Any): set<GoMap>
      reads if a.Nested? then {a.m} else {}
    {
      if a.Nested? then a.m.repr else {}
    }

    ghost predicate Fits(a: Any, v: Value)
      reads Below(a), if a.Nested? then {a.m} else {}
    {
      match a
      case Plain(p) => !p.Map? && v == p
      case Nested(m) => this !in m.repr && m.Valid() && v == Map(m.tree)
    }
  }

  /** The keys of the overlay outside `rest` are merged, the others show the base. */
  ghost predicate MergedBut(base: Tree, overlay: Tree, merged: Tree, rest: set<string>) {
    && merged.Keys == base.Keys + (overlay.Keys - rest)
    && forall k :: k in merged ==>
         merged[k] == if k in overlay && k !in rest then MergedAt(base, overlay, k) else base[k]
  }

  function MergedAt(base: Tree, overlay: Tree, key: string): Value
    requires key in overlay
  {
    if key in base then Merge(base[key], overlay[key]) else overlay[key]
  }

  /**
   mergeValues: a fresh map that stands for the merge.  Nothing that existed before changes, although
   the result shares maps with both inputs.
   */
  method MergeValues(base: GoMap, overlay: GoMap) returns (merged: GoMap)
    requires base.Valid() && overlay.Valid()
    ensures fresh(merged) && merged.Valid() && merged.tree == MergeTrees(base.tree, overlay.tree)
    ensures forall m :: m in merged.repr ==> fresh(m) || m in base.repr + overlay.repr
    ensures forall m :: m in base.repr + overlay.repr ==> unchanged(m)
    decreases overlay.repr, 1
  {
    merged := new GoMap.Clone(base);
    var rest := overlay.entries.Keys;
    while rest != {}
      invariant rest <= overlay.entries.Keys && fresh(merged) && merged.Valid()
      invariant forall m :: m in merged.repr ==> fresh(m) || m in base.repr + overlay.repr
      invariant MergedBut(base.tree, overlay.tree, merged.tree, rest)
    {
      var key :| key in rest;
      rest := rest - {key};
      MergeKey(merged, overlay, key);
    }
    MergedAll(base.tree, overlay.tree, merged.tree);
  }

  /** One round of the loop: the overlay's value at the key goes onto the clone. */
  method MergeKey(merged: GoMap, overlay: GoMap, key: string)
    requires merged.Valid() && overlay.Valid() && merged !in overlay.repr && key in overlay.entries
    modifies merged
    ensures merged.Valid() && merged.tree == old(merged.tree)[key := MergedAt(old(merged.tree), overlay.tree, key)]
    ensures forall m :: m in merged.repr ==> m in old(merged.repr) || m in overlay.repr || fresh(m)
    decreases overlay.repr, 0
  {
    var overlayValue := overlay.entries[key];
    assert overlay.Stands(overlayValue, overlay.tree[key]);
    if key !in merged.entries {
      merged.Set(key, overlayValue, overlay.tree[key]);
      return;
    }
    var baseValue := merged.entries[key];
    assert merged.Stands(baseValue, merged.tree[key]);
    if baseValue.Nested? && overlayValue.Nested? {
      var inner := MergeValues(baseValue.m, overlayValue.m);
      merged.Set(key, Nested(inner), Map(inner.tree));
      return;
    }
    merged.Set(key, overlayValue, overlay.tree[key]);
  }

  lemma MergedAll(base: Tree, overlay: Tree, merged: Tree)
    requires MergedBut(base, overlay, merged, {})
    ensures merged == MergeTrees(base, overlay)
  {
    forall k | k in overlay ensures MergeTrees(base, overlay)[k] == MergedAt(base, overlay, k) {
      MergeAt(base, overlay, k);
    }
  }

  lemma MergeAt(base: Tree, overlay: Tree, key: string)
    requires key in overlay
    ensures key in MergeTrees(base, overlay)
    ensures MergeTrees(base, overlay)[key] == if key in base then Merge(base[key], overlay[key]) else overlay[key]
  {
  }

  // ----- what a merge means, path by path

  type Path = seq<string>

  /** What the tree holds at a path of map keys. */
  function At(v: Value, path: Path): Option<Value>
    decreases |path|
  {
    if path == [] then Some(v)
    else if v.Map? && path[0] in v.entries then At(v.entries[path[0]], path[1..])
    else None
  }

  /** Something that is not a map sits at a proper prefix of the path. */
  predicate Blocks(v: Value, path: Path)
    decreases |path|
  {
    path != [] && (!v.Map? || (path[0] in v.entries && Blocks(v.entries[path[0]], path[1..])))
  }

  /**
   The merge, path by path: where the overlay holds something it wins, except that two maps
   merge; where it holds nothing the base shows through, unless the overlay put something that
   is not a map above the path.
   */
  lemma {:induction false} MergePathwise(base: Value, overlay: Value, path: Path)
    requires base.Map? && overlay.Map?
    ensures At(Merge(base, overlay), path) ==
      match At(overlay, path)
      case Some(o) =>
        if o.Map? && At(base, path).Some? && At(base, path).value.Map? then Some(Merge(At(base, path).value, o))
          else Some(o)
      case None => if Blocks(overlay, path) then None else At(base, path)
    decreases |path|
  {
    if path != [] && path[0] in base.entries && path[0] in overlay.entries {
      var b, o := base.entries[path[0]], overlay.entries[path[0]];
      if b.Map? && o.Map? {
        MergePathwise(b, o, path[1..]);
      }
    }
  }

  /** Applying the same overlay again changes nothing. */
  lemma {:induction false} MergeIdempotent(base: Value, overlay: Value)
    ensures Merge(Merge(base, overlay), overlay) == Merge(base, overlay)
    decreases overlay
  {
    if overlay.Map? {
      var m := Merge(base, overlay);
      forall k | k in overlay.entries ensures Merge(m.entries[k], overlay.entries[k]) == m.entries[k] {
        if base.Map? && k in base.entries {
          MergeIdempotent(base.entries[k], overlay.entries[k]);
        } else {
          MergeSelf(overlay.entries[k]);
        }
      }
      assert Merge(m, overlay).entries == m.entries;
    }
  }

  lemma {:induction false} MergeSelf(v: Value)
    ensures Merge(v, v) == v
    decreases v
  {
    if v.Map? {
      forall k | k in v.entries ensures Merge(v.entries[k], v.entries[k]) == v.entries[k] {
        MergeSelf(v.entries[k]);
      }
      assert Merge(v, v).entries == v.entries;
    }
  }

  /** The empty tree is neutral on either side. */
  lemma MergeIdentities(t: Tree)
    ensures MergeTrees(t, map[]) == t && MergeTrees(map[], t) == t
  {
  }

  // ----- computed values

  const CelFieldKey := "$cel"

  /** A marker is a map with the single key "$cel" holding a string. */
  function CelExpr(entries: Tree): Option<string> {
    if |entries| == 1 && CelFieldKey in entries && entries[CelFieldKey].Leaf? && entries[CelFieldKey].scalar.Text?
    then Some(entries[CelFieldKey].scalar.s) else None
  }

  /** A marker of the expression, and of any. */
  ghost predicate IsMarker(entries: Tree, expr: string) {
    entries == map["$cel" := Leaf(Text(expr))]
  }

  ghost predicate Marks(entries: Tree) {
    exists expr :: IsMarker(entries, expr)
  }

  /** The source recognizes exactly the markers, and takes the text under the key for the expression. */
  lemma CelExprIs(entries: Tree)
    ensures forall expr :: CelExpr(entries) == Some(expr) <==> IsMarker(entries, expr)
    ensures CelExpr(entries).None? <==> !Marks(entries)
  {
    if |entries| == 1 && CelFieldKey in entries {
      OnlyKey(entries.Keys, CelFieldKey);
      assert entries == map[CelFieldKey := entries[CelFieldKey]];
    }
    forall expr | IsMarker(entries, expr) ensures CelExpr(entries) == Some(expr) {
      assert entries.Keys == {CelFieldKey};
    }
    if CelExpr(entries).Some? { assert IsMarker(entries, CelExpr(entries).value); }
  }

  lemma OnlyKey(keys: set<string>, key: string)
    requires |keys| == 1 && key in keys
    ensures keys == {key}
  {
    assert |keys - {key}| == 0;
  }

  /** How an expression evaluates against the cluster's context, or None for an error. */
  type Evaluator = string -> Option<Value>

  function EvalNode(eval: Evaluator, v: Value): Option<Value>
    decreases v
  {
    match v
    case Leaf(_) => Some(v)
    case List(items) =>
      if forall i :: 0 <= i < |items| ==> EvalNode(eval, items[i]).Some?
      then
        var resolved := seq(|items|, i requires 0 <= i < |items| && EvalNode(eval, items[i]).Some? =>
                              EvalNode(eval, items[i]).value);
        Some(List(resolved))
      else None
    case Map(entries) =>
      if CelExpr(entries).Some? then eval(CelExpr(entries).value)
      else if forall k :: k in entries ==> EvalNode(eval, entries[k]).Some?
      then Some(Map(map k | k in entries :: EvalNode(eval, entries[k]).value))
      else None
  }

  /** A marker evaluates to the value of its own expression. */
  lemma MarkerEvaluates(eval: Evaluator, expr: string)
    ensures EvalNode(eval, Map(map["$cel" := Leaf(Text(expr))])) == eval(expr)
  {
    CelExprIs(map["$cel" := Leaf(Text(expr))]);
    assert IsMarker(map["$cel" := Leaf(Text(expr))], expr);
  }

  /**
   Any other map is walked child by child: one with another key than "$cel", with more keys, or
   without a text under it.
   */
  lemma OtherMapsAreWalked(eval: Evaluator, entries: Tree)
    requires "$cel" !in entries || (exists k :: k in entries && k != "$cel") ||
      !(entries["$cel"].Leaf? && entries["$cel"].scalar.Text?)
    ensures EvalNode(eval, Map(entries)).Some? <==> forall k :: k in entries ==> EvalNode(eval, entries[k]).Some?
    ensures EvalNode(eval, Map(entries)).Some? ==>
      var r := EvalNode(eval, Map(entries)).value;
      r.Map? && r.entries.Keys == entries.Keys &&
        forall k :: k in entries ==> EvalNode(eval, entries[k]) == Some(r.entries[k])
  {
    CelExprIs(entries);
  }

  /** evalNode as it runs: fresh maps and slices filled child by child, stopping at the first error. */
  method ResolveNode(eval: Evaluator, node: Value) returns (r: Option<Value>)
    ensures r == EvalNode(eval, node)
    decreases node, 1
  {
    match node
    case Leaf(_) => r := Some(node);
    case List(items) => r := ResolveItems(eval, node);
    case Map(entries) =>
      var expr := CelExpr(entries);
      if expr.Some? {
        return eval(expr.value);
      }
      r := ResolveEntries(eval, node);
  }

  method ResolveItems(eval: Evaluator, node: Value) returns (r: Option<Value>)
    requires node.List?
    ensures r == EvalNode(eval, node)
    decreases node, 0
  {
    var resolved: seq<Value> := [];
    for i := 0 to |node.items|
      invariant |resolved| == i
      invariant forall j :: 0 <= j < i ==> EvalNode(eval, node.items[j]) == Some(resolved[j])
    {
      var child := ResolveNode(eval, node.items[i]);
      if child.None? {
        return None;
      }
      resolved := resolved + [child.value];
    }
    ItemsEvaluate(eval, node, resolved);
    r := Some(List(resolved));
  }

  lemma ItemsEvaluate(eval: Evaluator, node: Value, resolved: seq<Value>)
    requires node.List? && |resolved| == |node.items|
    requires forall j :: 0 <= j < |resolved| ==> EvalNode(eval, node.items[j]) == Some(resolved[j])
    ensures EvalNode(eval, node) == Some(List(resolved))
  {
    assert EvalNode(eval, node).value.items == resolved;
  }

  method ResolveEntries(eval: Evaluator, node: Value) returns (r: Option<Value>)
    requires node.Map? && CelExpr(node.entries).None?
    ensures r == EvalNode(eval, node)
    decreases node, 0
  {
    var resolved: Tree := map[];
    var rest := node.entries.Keys;
    while rest != {}
      invariant rest <= node.entries.Keys && resolved.Keys == node.entries.Keys - rest
      invariant forall k :: k in resolved ==> EvalNode(eval, node.entries[k]) == Some(resolved[k])
    {
      var key :| key in rest;
      rest := rest - {key};
      var child := ResolveNode(eval, node.entries[key]);
      if child.None? {
        return None;
      }
      resolved := resolved[key := child.value];
    }
    EntriesEvaluate(eval, node, resolved);
    r := Some(Map(resolved));
  }

  lemma EntriesEvaluate(eval: Evaluator, node: Value, resolved: Tree)
    requires node.Map? && CelExpr(node.entries).None? && resolved.Keys == node.entries.Keys
    requires forall k :: k in resolved ==> EvalNode(eval, node.entries[k]) == Some(resolved[k])
    ensures EvalNode(eval, node) == Some(Map(resolved))
  {
    assert EvalNode(eval, node).value.entries == resolved;
  }

  /** The expressions evaluation reaches: it does not look inside a marker. */
  ghost predicate Reaches(v: Value, expr: string)
    decreases v
  {
    match v
    case Leaf(_) => false
    case List(items) => exists i :: 0 <= i < |items| && Reaches(items[i], expr)
    case Map(entries) =>
      IsMarker(entries, expr) || (!Marks(entries) && exists k :: k in entries && Reaches(entries[k], expr))
  }

  ghost predicate MarkerFree(v: Value) {
    forall expr :: !Reaches(v, expr)
  }

  /** Evaluation depends on nothing but the expressions it reaches. */
  lemma {:induction false} EvalDependsOnMarkersOnly(e1: Evaluator, e2: Evaluator, v: Value)
    requires forall expr :: Reaches(v, expr) ==> e1(expr) == e2(expr)
    ensures EvalNode(e1, v) == EvalNode(e2, v)
    decreases v
  {
    match v
    case Leaf(_) =>
    case List(items) =>
      forall i | 0 <= i < |items| ensures EvalNode(e1, items[i]) == EvalNode(e2, items[i]) {
        EvalDependsOnMarkersOnly(e1, e2, items[i]);
      }
      if EvalNode(e1, v).Some? {
        assert EvalNode(e1, v).value.items == EvalNode(e2, v).value.items;
      }
    case Map(entries) =>
      CelExprIs(entries);
      if CelExpr(entries).Some? {
        assert Reaches(v, CelExpr(entries).value);
      } else {
        forall k | k in entries ensures EvalNode(e1, entries[k]) == EvalNode(e2, entries[k]) {
          forall expr | Reaches(entries[k], expr) ensures e1(expr) == e2(expr) {
            assert Reaches(v, expr);
          }
          EvalDependsOnMarkersOnly(e1, e2, entries[k]);
        }
        if EvalNode(e1, v).Some? {
          assert EvalNode(e1, v).value.entries == EvalNode(e2, v).value.entries;
        }
      }
  }

  /** Evaluation is the identity on trees without markers. */
  lemma {:induction false} EvalIsIdentityWithoutMarkers(eval: Evaluator, v: Value)
    requires MarkerFree(v)
    ensures EvalNode(eval, v) == Some(v)
    decreases v
  {
    match v
    case Leaf(_) =>
    case List(items) =>
      forall i | 0 <= i < |items| ensures EvalNode(eval, items[i]) == Some(items[i]) {
        forall expr ensures !Reaches(items[i], expr) { assert Reaches(items[i], expr) ==> Reaches(v, expr); }
        EvalIsIdentityWithoutMarkers(eval, items[i]);
      }
      assert EvalNode(eval, v).value.items == items;
    case Map(entries) =>
      CelExprIs(entries);
      assert CelExpr(entries).None? by {
        assert CelExpr(entries).Some? ==> Reaches(v, CelExpr(entries).value);
      }
      forall k | k in entries ensures EvalNode(eval, entries[k]) == Some(entries[k]) {
        forall expr ensures !Reaches(entries[k], expr) { assert Reaches(entries[k], expr) ==> Reaches(v, expr); }
        EvalIsIdentityWithoutMarkers(eval, entries[k]);
      }
      assert EvalNode(eval, v).value.entries == entries;
  }

  /** Where evaluation succeeds, each node it walks to holds that node's own evaluation. */
  lemma {:induction false} EvalPathwise(eval: Evaluator, v: Value, path: Path)
    requires EvalNode(eval, v).Some? && Walks(v, path)
    ensures At(v, path).Some? && At(EvalNode(eval, v).value, path) == EvalNode(eval, At(v, path).value)
    ensures EvalNode(eval, At(v, path).value).Some?
    decreases |path|
  {
    if path != [] {
      CelExprIs(v.entries);
      EvalPathwise(eval, v.entries[path[0]], path[1..]);
    }
  }

  /** So a marker at such a path is replaced by the value of its expression. */
  lemma MarkerBecomesValue(eval: Evaluator, v: Value, path: Path, expr: string)
    requires EvalNode(eval, v).Some? && Walks(v, path) && At(v, path) == Some(Map(map["$cel" := Leaf(Text(expr))]))
    ensures eval(expr).Some? && At(EvalNode(eval, v).value, path) == eval(expr)
  {
    EvalPathwise(eval, v, path);
    MarkerEvaluates(eval, expr);
  }

  /** The path leads through maps that are not markers. */
  ghost predicate Walks(v: Value, path: Path)
    decreases |path|
  {
    path == [] || (v.Map? && !Marks(v.entries) && path[0] in v.entries && Walks(v.entries[path[0]], path[1..]))
  }

  /** EvaluateComputedValues. */
  function EvaluateComputedValues(eval: Evaluator, values: Tree): Option<Tree> {
    if values == map[] then Some(values)
    else
      match EvalNode(eval, Map(values))
      case Some(Map(entries)) => Some(entries)
      case _ => None
  }

  /** The values of an install request: evaluated defaults, then the user's values merged on top. */
  function ResolveValues(eval: Evaluator, defaults: Tree, user: Tree): Option<Tree> {
    match EvaluateComputedValues(eval, defaults)
    case Some(base) => Some(MergeTrees(base, user))
    case None => None
  }

  /**
   What the defaults become: each entry its own evaluation, and an error if one has none; a file
   that is one marker becomes the map it evaluates to, and an error if that is anything else.
   */
  lemma DefaultsResolve(eval: Evaluator, defaults: Tree)
    ensures !Marks(defaults) ==>
      && (EvaluateComputedValues(eval, defaults).Some? <==>
            forall k :: k in defaults ==> EvalNode(eval, defaults[k]).Some?)
      && (EvaluateComputedValues(eval, defaults).Some? ==>
            var base := EvaluateComputedValues(eval, defaults).value;
            base.Keys == defaults.Keys && forall k :: k in defaults ==> EvalNode(eval, defaults[k]) == Some(base[k]))
    ensures forall expr :: IsMarker(defaults, expr) ==>
      forall base :: EvaluateComputedValues(eval, defaults) == Some(base) <==> eval(expr) == Some(Map(base))
  {
    CelExprIs(defaults);
    forall expr | IsMarker(defaults, expr)
      ensures forall base :: EvaluateComputedValues(eval, defaults) == Some(base) <==> eval(expr) == Some(Map(base))
    {
      assert "$cel" in defaults;
    }
  }

  /**
   User-supplied markers are never evaluated: whatever the user's tree contains, the result
   depends on the evaluator only through the expressions of the defaults.
   */
  lemma UserMarkersAreNotEvaluated(e1: Evaluator, e2: Evaluator, defaults: Tree, user: Tree)
    requires forall expr :: Reaches(Map(defaults), expr) ==> e1(expr) == e2(expr)
    ensures ResolveValues(e1, defaults, user) == ResolveValues(e2, defaults, user)
  {
    EvalDependsOnMarkersOnly(e1, e2, Map(defaults));
  }

  /** A user value at a path where the defaults have no map arrives exactly as written, marker or not. */
  lemma UserValueArrivesVerbatim(eval: Evaluator, defaults: Tree, user: Tree, path: Path)
    requires ResolveValues(eval, defaults, user).Some? && At(Map(user), path).Some?
    requires var base := EvaluateComputedValues(eval, defaults).value;
      !(At(Map(base), path).Some? && At(Map(base), path).value.Map?)
    ensures At(Map(ResolveValues(eval, defaults, user).value), path) == At(Map(user), path)
  {
    MergePathwise(Map(EvaluateComputedValues(eval, defaults).value), Map(user), path);
  }

  /** Defaults without markers and an empty user tree pass through untouched. */
  lemma PlainDefaultsPassThrough(eval: Evaluator, defaults: Tree)
    requires MarkerFree(Map(defaults))
    ensures ResolveValues(eval, defaults, map[]) == Some(defaults)
  {
    EvalIsIdentityWithoutMarkers(eval, Map(defaults));
    MergeIdentities(defaults);
  }
}
