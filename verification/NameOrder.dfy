/** Name order, sorting by it, and the n name-smallest members of a set of keys. */
module NameOrder {
  import opened ApiStore
  import opened Fleet

  /** Byte-wise order of strings, as Go compares them. */
  predicate Less(a: string, b: string) {
    b != [] && (a == [] || a[0] < b[0] || (a[0] == b[0] && Less(a[1..], b[1..])))
  }

  lemma {:induction false} LessIsTotal(a: string, b: string)
    ensures Less(a, b) || Less(b, a) || a == b
    ensures !(Less(a, b) && Less(b, a)) && !(Less(a, b) && a == b)
  {
    if a != [] && b != [] && a[0] == b[0] {
      LessIsTotal(a[1..], b[1..]);
      assert a == [a[0]] + a[1..] && b == [b[0]] + b[1..];
    }
  }

  lemma {:induction false} LessIsTransitive(a: string, b: string, c: string)
    requires Less(a, b) && Less(b, c)
    ensures Less(a, c)
  {
    if a != [] && a[0] == b[0] && b[0] == c[0] {
      LessIsTransitive(a[1..], b[1..], c[1..]);
    }
  }

  /** The strings agree up to `i`, where the first ends or has the smaller character. */
  predicate FirstDiffersAt(a: string, b: string, i: nat) {
    i < |b| && i <= |a| && a[..i] == b[..i] && (i == |a| || a[i] < b[i])
  }

  /** The order is the lexicographic one. */
  lemma {:induction false} LessIsLexicographic(a: string, b: string)
    ensures Less(a, b) <==> exists i: nat :: FirstDiffersAt(a, b, i)
  {
    if a == [] && b != [] {
      assert FirstDiffersAt(a, b, 0);
    } else if a != [] && b != [] {
      if a[0] < b[0] { assert FirstDiffersAt(a, b, 0); }
      var x, y := a[1..], b[1..];
      LessIsLexicographic(x, y);
      if a[0] == b[0] && Less(x, y) {
        var i: nat :| FirstDiffersAt(x, y, i);
        assert a[..i + 1] == [a[0]] + x[..i] && b[..i + 1] == [b[0]] + y[..i];
        assert FirstDiffersAt(a, b, i + 1);
      }
      if i: nat :| FirstDiffersAt(a, b, i) && i > 0 {
        assert x[..i - 1] == a[..i][1..] && y[..i - 1] == b[..i][1..] && a[0] == a[..i][0] && b[0] == b[..i][0];
        assert FirstDiffersAt(x, y, i - 1);
      }
    }
  }

  // ----- lists of copies

  ghost function KeysOf(s: seq<InstanceCopy>): set<Key> {
    set c | c in s :: c.key
  }

  ghost predicate Distinct(s: seq<InstanceCopy>) {
    forall i, j :: 0 <= i < j < |s| ==> s[i].key != s[j].key
  }

  /** All copies come from one namespace, so names identify them. */
  ghost predicate InNamespace(s: seq<InstanceCopy>, namespace: string) {
    forall c :: c in s ==> c.key.namespace == namespace
  }

  ghost predicate Sorted(s: seq<InstanceCopy>) {
    forall i, j :: 0 <= i < j < |s| ==> Less(s[i].key.name, s[j].key.name)
  }

  lemma {:induction false} KeysOfSize(s: seq<InstanceCopy>)
    requires Distinct(s)
    ensures |KeysOf(s)| == |s|
  {
    if s != [] {
      var init, last := s[..|s| - 1], s[|s| - 1];
      KeysOfSize(init);
      assert s == init + [last];
      assert KeysOf(s) == KeysOf(init) + {last.key};
      assert last.key !in KeysOf(init);
    }
  }

  function Insert(c: InstanceCopy, s: seq<InstanceCopy>): (r: seq<InstanceCopy>)
    ensures multiset(r) == multiset(s) + multiset{c}
  {
    if s == [] then [c]
    else if Less(c.key.name, s[0].key.name) then [c] + s
    else
      assert s == [s[0]] + s[1..];
      [s[0]] + Insert(c, s[1..])
  }

  /** sort.Slice by name. */
  function SortByName(s: seq<InstanceCopy>): (r: seq<InstanceCopy>)
    ensures multiset(r) == multiset(s)
  {
    if s == [] then [] else
      assert s == [s[0]] + s[1..];
      Insert(s[0], SortByName(s[1..]))
  }

  lemma SameMembers(r: seq<InstanceCopy>, s: seq<InstanceCopy>)
    requires multiset(r) == multiset(s)
    ensures |r| == |s| && KeysOf(r) == KeysOf(s) && forall c :: c in r <==> c in s
  {
    assert |multiset(r)| == |r| && |multiset(s)| == |s|;
    forall c ensures c in r <==> c in s {
      assert c in multiset(r) <==> c in r;
      assert c in multiset(s) <==> c in s;
    }
  }

  lemma {:induction false} InsertMembers(c: InstanceCopy, s: seq<InstanceCopy>, x: InstanceCopy)
    ensures x in Insert(c, s) <==> x == c || x in s
  {
    assert x in multiset(Insert(c, s)) <==> x in Insert(c, s);
    assert x in multiset(s) <==> x in s;
  }

  lemma ConsSorted(c: InstanceCopy, s: seq<InstanceCopy>)
    requires Sorted(s) && forall x :: x in s ==> Less(c.key.name, x.key.name)
    ensures Sorted([c] + s)
  {
  }

  lemma {:induction false} InsertSorts(c: InstanceCopy, s: seq<InstanceCopy>, namespace: string)
    requires Sorted(s) && InNamespace(s, namespace) && c.key.namespace == namespace && c.key !in KeysOf(s)
    ensures Sorted(Insert(c, s))
  {
    if s == [] {
    } else if Less(c.key.name, s[0].key.name) {
      forall x | x in s ensures Less(c.key.name, x.key.name) {
        if x != s[0] { LessIsTransitive(c.key.name, s[0].key.name, x.key.name); }
      }
      ConsSorted(c, s);
    } else {
      assert s[0].key in KeysOf(s);
      LessIsTotal(c.key.name, s[0].key.name);
      InsertSorts(c, s[1..], namespace);
      forall x | x in Insert(c, s[1..]) ensures Less(s[0].key.name, x.key.name) {
        InsertMembers(c, s[1..], x);
      }
      ConsSorted(s[0], Insert(c, s[1..]));
    }
  }

  lemma {:induction false} SortSorts(s: seq<InstanceCopy>, namespace: string)
    requires Distinct(s) && InNamespace(s, namespace)
    ensures Sorted(SortByName(s))
    ensures |SortByName(s)| == |s| && KeysOf(SortByName(s)) == KeysOf(s)
    ensures forall c :: c in SortByName(s) <==> c in s
    ensures Distinct(SortByName(s))
  {
    SameMembers(SortByName(s), s);
    if s != [] {
      assert forall x :: x in s[1..] ==> x in s;
      SortSorts(s[1..], namespace);
      InsertSorts(s[0], SortByName(s[1..]), namespace);
    }
    var r := SortByName(s);
    forall i, j | 0 <= i < j < |r| ensures r[i].key != r[j].key {
      LessIsTotal(r[i].key.name, r[j].key.name);
    }
  }

  // ----- the n name-smallest

  ghost function Below(s: set<Key>, k: Key): set<Key> {
    set x | x in s && Less(x.name, k.name)
  }

  /** The members of `s` that fewer than `n` members precede by name. */
  ghost function Lowest(s: set<Key>, n: int): set<Key> {
    set k | k in s && |Below(s, k)| < n
  }

  /** The first n of a sorted list are the n name-smallest of its keys. */
  lemma SortedPrefixIsLowest(s: seq<InstanceCopy>, n: nat)
    requires Sorted(s) && n <= |s|
    ensures KeysOf(s[..n]) == Lowest(KeysOf(s), n)
    ensures |KeysOf(s[..n])| == n && |KeysOf(s)| == |s|
  {
    SortedIsDistinct(s);
    KeysOfSize(s);
    KeysOfSize(s[..n]);
    forall i | 0 <= i < |s| ensures |Below(KeysOf(s), s[i].key)| == i {
      RankIsIndex(s, i);
    }
    forall k ensures k in KeysOf(s[..n]) <==> k in Lowest(KeysOf(s), n) {
      if k in Lowest(KeysOf(s), n) {
        var i :| 0 <= i < |s| && s[i].key == k;
        assert s[..n][i] == s[i];
      }
    }
  }

  lemma SortedIsDistinct(s: seq<InstanceCopy>)
    requires Sorted(s)
    ensures Distinct(s)
  {
    forall i, j | 0 <= i < j < |s| ensures s[i].key != s[j].key {
      LessIsTotal(s[i].key.name, s[j].key.name);
    }
  }

  lemma RankIsIndex(s: seq<InstanceCopy>, i: nat)
    requires Sorted(s) && i < |s|
    ensures |Below(KeysOf(s), s[i].key)| == i
  {
    SortedIsDistinct(s);
    KeysOfSize(s[..i]);
    forall k ensures k in Below(KeysOf(s), s[i].key) <==> k in KeysOf(s[..i]) {
      if k in Below(KeysOf(s), s[i].key) {
        var j :| 0 <= j < |s| && s[j].key == k;
        LessIsTotal(s[j].key.name, s[i].key.name);
        assert j < i;
        assert s[..i][j] == s[j];
      }
    }
    assert Below(KeysOf(s), s[i].key) == KeysOf(s[..i]);
  }
}
