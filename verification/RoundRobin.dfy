/** Round-robin dispatch over a pool of proxies, with a counter that wraps at 64 bits. */
module RoundRobin {

  const Wrap := 0x1_0000_0000_0000_0000

  const ZonePoolSize := 8
  const LocalPoolSize := 4

  /** The proxy a counter value selects. */
  function Index(counter: nat, n: nat): nat
    requires n > 0
  {
    Wrapped(counter) % n
  }

  class Pool {
    const size: nat
    var next: nat

    constructor (size: nat)
      requires size > 0
      ensures Valid() && this.size == size && next == 0
    {
      this.size, this.next := size, 0;
    }

    predicate Valid()
      reads this
    {
      size > 0 && next < Wrap
    }

    /** An atomic add, then the old value selects; concurrent picks take effect one after another. */
    method Pick() returns (i: nat)
      requires Valid()
      modifies this
      ensures Valid() && next == Wrapped(old(next) + 1)
      ensures i == Index(old(next), size) == old(next) % size
      ensures next == if old(next) == 0xFFFF_FFFF_FFFF_FFFF then 0 else old(next) + 1
    {
      Undone(next);
      next := Wrapped(next + 1);
      var n := Wrapped(next + Wrap - 1);
      i := n % size;
    }

    /** N picks, each tallied. */
    method PickMany(count: nat) returns (tally: seq<nat>)
      requires Valid()
      modifies this
      ensures Valid() && |tally| == size
      ensures forall j :: 0 <= j < size ==> tally[j] == Picks(old(next), count, size, j)
    {
      tally := seq(size, _ => 0);
      ghost var start := next;
      for t := 0 to count
        invariant Valid() && next == Wrapped(start + t) && Tallied(tally, start, t, size)
      {
        WrappedStep(start + t, size);
        var i := Pick();
        TallyStep(tally, start, t, size, i);
        tally := tally[i := tally[i] + 1];
      }
    }
  }

  ghost predicate Tallied(tally: seq<nat>, start: nat, count: nat, n: nat)
    requires n > 0
  {
    |tally| == n && forall j :: 0 <= j < n ==> tally[j] == Picks(start, count, n, j)
  }

  lemma TallyStep(tally: seq<nat>, start: nat, count: nat, n: nat, i: nat)
    requires n > 0 && Tallied(tally, start, count, n) && i == Index(start + count, n) && i < n
    ensures Tallied(tally[i := tally[i] + 1], start, count + 1, n)
  {
  }

  function Wrapped(x: nat): nat { x % Wrap }

  /** Subtracting one after an add that may have wrapped gives the old value back. */
  lemma Undone(x: nat)
    requires x < Wrap
    ensures Wrapped(x) == x && Wrapped(Wrapped(x + 1) + Wrap - 1) == x
  {
    if x + 1 == Wrap {
      assert Wrapped(x + 1) == 0;
    } else {
      assert Wrapped(x + 1) == x + 1 && Wrapped(x + Wrap) == x;
    }
  }

  lemma WrappedStep(x: nat, n: nat)
    requires n > 0
    ensures Wrapped(Wrapped(x) + 1) == Wrapped(x + 1) && Index(Wrapped(x), n) == Index(x, n) && Wrapped(x) < Wrap
  {
  }

  /** How often proxy j is chosen by `count` picks from a counter at `start`. */
  function Picks(start: nat, count: nat, n: nat, j: nat): nat
    requires n > 0
  {
    if count == 0 then 0
    else Picks(start, count - 1, n, j) + if Index(start + count - 1, n) == j then 1 else 0
  }

  /** As even as whole numbers allow: the floor or the ceiling of the average. */
  predicate Even(picks: nat, count: nat, n: nat)
    requires n > 0
  {
    count / n <= picks <= count / n + (if count % n == 0 then 0 else 1)
  }

  // ----- counting without the wrap

  function Plain(count: nat, n: nat, j: nat): nat
    requires n > 0
  {
    if count == 0 then 0 else Plain(count - 1, n, j) + if (count - 1) % n == j then 1 else 0
  }

  lemma Distributes(n: nat, a: nat, b: nat)
    ensures n * (a + b) == n * a + n * b
  {
  }

  /** Quotient and remainder are unique. */
  lemma Unique(n: nat, q: nat, r: nat, q': nat, r': nat)
    requires r < n && r' < n && n * q + r == n * q' + r'
    ensures q == q' && r == r'
  {
    if q < q' {
      Distributes(n, q, q' - q);
    } else if q' < q {
      Distributes(n, q', q - q');
    }
  }

  lemma Divided(x: nat, n: nat, q: nat, r: nat)
    requires n > 0 && x == n * q + r && r < n
    ensures x / n == q && x % n == r
  {
    Unique(n, q, r, x / n, x % n);
  }

  /** x is q times n plus r, said without a product. */
  ghost predicate Splits(x: nat, n: nat, q: nat, r: nat)
    decreases q
  {
    r < n && if q == 0 then x == r else x >= n && Splits(x - n, n, q - 1, r)
  }

  lemma {:induction false} SplitIs(x: nat, n: nat, q: nat, r: nat)
    requires Splits(x, n, q, r)
    ensures x == n * q + r && x / n == q && x % n == r
    decreases q
  {
    if q > 0 {
      SplitIs(x - n, n, q - 1, r);
      Distributes(n, q - 1, 1);
    }
    Divided(x, n, q, r);
  }

  lemma {:induction false} SplitOf(x: nat, n: nat)
    requires n > 0
    ensures Splits(x, n, x / n, x % n)
  {
    if x >= n {
      SplitOf(x - n, n);
      SplitIs(x - n, n, (x - n) / n, (x - n) % n);
      Distributes(n, (x - n) / n, 1);
      Divided(x, n, (x - n) / n + 1, (x - n) % n);
    } else {
      Divided(x, n, 0, x);
    }
  }

  lemma {:induction false} SplitAdd(x: nat, n: nat, a: nat, r: nat, y: nat, b: nat, s: nat)
    requires Splits(x, n, a, r) && Splits(y, n, b, s)
    ensures if r + s < n then Splits(x + y, n, a + b, r + s) else Splits(x + y, n, a + b + 1, r + s - n)
    decreases a, b
  {
    if a > 0 {
      SplitAdd(x - n, n, a - 1, r, y, b, s);
    } else if b > 0 {
      SplitAdd(x, n, a, r, y - n, b - 1, s);
    }
  }

  lemma {:induction false} SplitPred(x: nat, n: nat, q: nat, r: nat)
    requires Splits(x, n, q, r) && x > 0
    ensures if r > 0 then Splits(x - 1, n, q, r - 1) else q > 0 && Splits(x - 1, n, q - 1, n - 1)
    decreases q
  {
    if q > 0 && x > n {
      SplitPred(x - n, n, q - 1, r);
    }
  }

  /** Of the first n*q + r counter values, proxy j gets q, and one more if j < r. */
  lemma {:induction false} PlainIs(x: nat, n: nat, q: nat, r: nat, j: nat)
    requires Splits(x, n, q, r) && j < n
    ensures Plain(x, n, j) == q + if j < r then 1 else 0
    decreases x
  {
    if x > 0 {
      SplitPred(x, n, q, r);
      var q', r' := if r > 0 then q else q - 1, if r > 0 then r - 1 else n - 1;
      PlainIs(x - 1, n, q', r', j);
      SplitIs(x - 1, n, q', r');
    }
  }

  /** Before the wrap, or for a size that divides it, the wrap is invisible. */
  lemma IndexIs(x: nat, n: nat)
    requires n > 0 && (x < Wrap || Wrap % n == 0)
    ensures Index(x, n) == x % n
  {
    if Wrap % n == 0 { ModMod(x, n, Wrap); }
  }

  /** m*a + y, with m and y written in terms of n. */
  lemma Regroup(n: nat, k: nat, a: nat, b: nat, r: nat)
    ensures (n * k) * a + (n * b + r) == n * (k * a + b) + r
  {
    assert (n * k) * a == n * (k * a);
    Distributes(n, k * a, b);
  }

  /** Reducing by a multiple of n first does not matter. */
  lemma ModMod(x: nat, n: nat, m: nat)
    requires n > 0 && m > 0 && m % n == 0
    ensures (x % m) % n == x % n
  {
    var k, a, y := m / n, x / m, x % m;
    var b, r := y / n, y % n;
    Regroup(n, k, a, b, r);
    Divided(x, n, k * a + b, r);
  }

  /** From `start` on: the difference of two plain counts. */
  lemma {:induction false} PicksArePlain(start: nat, count: nat, n: nat, j: nat)
    requires n > 0
    requires start + count <= Wrap || Wrap % n == 0
    ensures Picks(start, count, n, j) == Plain(start + count, n, j) - Plain(start, n, j)
  {
    if count > 0 {
      PicksArePlain(start, count - 1, n, j);
      IndexIs(start + count - 1, n);
    }
  }

  lemma EvenSplit(start: nat, count: nat, n: nat, j: nat, a: nat, r: nat, b: nat, s: nat)
    requires Splits(start, n, a, r) && Splits(count, n, b, s) && j < n
    ensures var d := Plain(start + count, n, j) - Plain(start, n, j); b <= d <= b + if s == 0 then 0 else 1
  {
    PlainIs(start, n, a, r, j);
    SplitAdd(start, n, a, r, count, b, s);
    if r + s < n {
      PlainIs(start + count, n, a + b, r + s, j);
    } else {
      PlainIs(start + count, n, a + b + 1, r + s - n, j);
    }
  }

  lemma EvenDifference(start: nat, count: nat, n: nat, j: nat)
    requires n > 0 && j < n
    ensures Plain(start + count, n, j) >= Plain(start, n, j)
    ensures Even(Plain(start + count, n, j) - Plain(start, n, j), count, n)
  {
    SplitOf(start, n);
    SplitOf(count, n);
    EvenSplit(start, count, n, j, start / n, start % n, count / n, count % n);
  }

  // ----- fairness

  /** Up to 2^64 picks of a fresh pool are spread evenly, whatever its size. */
  lemma FairBeforeWrap(count: nat, n: nat, j: nat)
    requires 0 < n && j < n && count <= Wrap
    ensures Even(Picks(0, count, n, j), count, n)
  {
    PicksArePlain(0, count, n, j);
    EvenDifference(0, count, n, j);
  }

  /** If the size divides 2^64, any number of picks from any counter is spread evenly. */
  lemma FairForever(start: nat, count: nat, n: nat, j: nat)
    requires 0 < n && j < n && Wrap % n == 0
    ensures Even(Picks(start, count, n, j), count, n)
  {
    PicksArePlain(start, count, n, j);
    EvenDifference(start, count, n, j);
  }

  lemma PicksAtWrap(n: nat, q: nat, r: nat)
    requires Splits(Wrap, n, q, r) && r > 0
    ensures Picks(0, Wrap + 1, n, 0) == q + 2
  {
    PicksArePlain(0, Wrap, n, 0);
    PlainIs(Wrap, n, q, r, 0);
    assert Plain(0, n, 0) == 0;
    assert Wrapped(Wrap) == 0;
  }

  /** If it does not, the first pick after the wrap is one too many for proxy 0. */
  lemma UnfairAfterWrap(n: nat)
    requires 0 < n <= Wrap && Wrap % n != 0
    ensures !Even(Picks(0, Wrap + 1, n, 0), Wrap + 1, n)
  {
    var q, r := Wrap / n, Wrap % n;
    SplitOf(Wrap, n);
    PicksAtWrap(n, q, r);
    assert Splits(1, n, 0, 1);
    SplitAdd(Wrap, n, q, r, 1, 0, 1);
    if r + 1 < n {
      SplitIs(Wrap + 1, n, q, r + 1);
    } else {
      SplitIs(Wrap + 1, n, q + 1, 0);
    }
  }

  /** Even dispatch for ever, exactly for the sizes that divide 2^64. */
  lemma FairIffDivides(n: nat)
    requires 0 < n <= Wrap
    ensures (forall count: nat, j: nat :: j < n ==> Even(Picks(0, count, n, j), count, n)) <==> Wrap % n == 0
  {
    if Wrap % n == 0 {
      forall count: nat, j: nat | j < n ensures Even(Picks(0, count, n, j), count, n) {
        FairForever(0, count, n, j);
      }
    } else {
      UnfairAfterWrap(n);
    }
  }

  /** Both configured pool sizes do. */
  lemma ConfiguredPoolsAreFair(start: nat, count: nat, j: nat)
    ensures j < ZonePoolSize ==> Even(Picks(start, count, ZonePoolSize, j), count, ZonePoolSize)
    ensures j < LocalPoolSize ==> Even(Picks(start, count, LocalPoolSize, j), count, LocalPoolSize)
  {
    if j < ZonePoolSize { FairForever(start, count, ZonePoolSize, j); }
    if j < LocalPoolSize { FairForever(start, count, LocalPoolSize, j); }
  }
}
