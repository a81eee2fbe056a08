/**
 The zone's signing key, kept current by a watch that is opened before the first Get and
 reopened whenever it closes.
 */
module IdentityWatch {
  import opened ApiStore

  type PrivateKey = nat

  /** What the identity Secret holds: nothing, something that does not parse, or a key. */
  datatype Content = Absent | Garbage | Good(key: PrivateKey)

  /** handleEvent: only a parseable Added or Modified replaces the key. */
  function Handled(key: Option<PrivateKey>, event: Content): Option<PrivateKey> {
    if event.Good? then Some(event.key) else key
  }

  /** The key once the queued events are consumed. */
  function Settle(key: Option<PrivateKey>, queue: seq<Content>): Option<PrivateKey>
    decreases |queue|
  {
    if queue == [] then key else Settle(Handled(key, queue[0]), queue[1..])
  }

  /** The latest parseable key of a history. */
  function Latest(history: seq<Content>): Option<PrivateKey> {
    if history == [] then None
    else if history[|history| - 1].Good? then Some(history[|history| - 1].key)
    else Latest(history[..|history| - 1])
  }

  class KeySource {
    var key: Option<PrivateKey>

    method HandleEvent(event: Content)
      modifies this
      ensures key == Handled(old(key), event)
    {
      if event.Absent? || event.Garbage? {
        return;
      }
      key := Some(event.key);
    }

    /** Refresh: a direct Get, installed whatever happened meanwhile; an error leaves the key. */
    method Refresh(stored: Content) returns (ok: bool)
      modifies this
      ensures ok <==> stored.Good?
      ensures key == if ok then Some(stored.key) else old(key)
    {
      if !stored.Good? {
        return false;
      }
      key := Some(stored.key);
      ok := true;
    }

    /** consume, until the channel closes. */
    method Consume(queue: seq<Content>)
      modifies this
      ensures key == Settle(old(key), queue)
    {
      for i := 0 to |queue|
        invariant Settle(key, queue[i..]) == Settle(old(key), queue)
      {
        assert queue[i..][1..] == queue[i + 1..];
        HandleEvent(queue[i]);
      }
    }
  }

  // ----- the protocol

  datatype Watch = Closed | Open(queue: seq<Content>)

  /**
   `known` is how much of the history the key held accounts for: what was delivered in order, or
   read.  `refreshing` is the position of what a Refresh has read but not yet installed.
   */
  datatype World = World(
    history: seq<Content>,
    watch: Watch,
    running: bool,
    key: Option<PrivateKey>,
    known: nat,
    refreshing: Option<nat>)

  datatype Action =
    | Rotate(content: Content)
    | OpenWatch
    | CloseWatch
    | InitialGet
    | Deliver
    | RefreshGet
    | RefreshSet

  function Current(w: World): Content {
    if w.history == [] then Absent else w.history[|w.history| - 1]
  }

  /** Opening replays the current state as an Added event. */
  function Replay(w: World): seq<Content> {
    if Current(w).Absent? then [] else [Current(w)]
  }

  predicate Enabled(w: World, a: Action) {
    match a
    case Rotate(_) => true
    case OpenWatch => w.watch.Closed?
    case CloseWatch => w.watch.Open?
    case InitialGet => w.watch.Open? && !w.running && Current(w).Good?
    case Deliver => w.running && w.watch.Open? && w.watch.queue != []
    case RefreshGet => w.running && Current(w).Good? && w.refreshing.None?
    case RefreshSet => w.running && w.refreshing.Some? && RefreshRead(w)
  }

  /** What a Refresh in flight has read is a parseable content of the history. */
  predicate RefreshRead(w: World) {
    w.refreshing.Some? ==> w.refreshing.value < |w.history| && w.history[w.refreshing.value].Good?
  }

  /** The position after the event at `i` is handled: a key counts from there, anything else only in order. */
  function Accounted(known: nat, event: Content, i: int): nat {
    if 0 <= i && (event.Good? || known == i) then i + 1 else known
  }

  function Apply(w: World, a: Action): World
    requires Enabled(w, a)
  {
    match a
    case Rotate(content) =>
      w.(history := w.history + [content], watch := if w.watch.Open? then Open(w.watch.queue + [content]) else Closed)
    case OpenWatch => w.(watch := Open(Replay(w)))
    case CloseWatch => w.(watch := Closed)
    case InitialGet => w.(running := true, key := Some(Current(w).key), known := |w.history|)
    case Deliver =>
      var event := w.watch.queue[0];
      w.(key := Handled(w.key, event), watch := Open(w.watch.queue[1..]),
         known := Accounted(w.known, event, |w.history| - |w.watch.queue|))
    case RefreshGet => w.(refreshing := Some(|w.history| - 1))
    case RefreshSet =>
      w.(key := Some(w.history[w.refreshing.value].key), known := w.refreshing.value + 1, refreshing := None)
  }

  predicate Parseable(contents: seq<Content>) {
    exists c :: c in contents && c.Good?
  }

  /** Nothing parseable among the contents, or in the end only the key that is held anyway. */
  predicate Missable(contents: seq<Content>, key: Option<PrivateKey>) {
    !Parseable(contents) || Latest(contents) == key
  }

  /**
   The two steps that can lose a rotation, and when they do not: a reopened watch finds a
   parseable Secret or missed nothing since what is known; a Refresh is installed before anything
   newer came, or with a parseable event still queued behind it, or while the watch is closed.
   */
  predicate Benign(w: World, a: Action)
    requires Enabled(w, a)
  {
    match a
    case OpenWatch => w.running && w.known <= |w.history| ==> Current(w).Good? || Missable(w.history[w.known..], w.key)
    case RefreshSet =>
      w.watch.Open? && !Parseable(w.watch.queue) ==>
        Missable(w.history[w.refreshing.value + 1..], Some(w.history[w.refreshing.value].key))
    case _ => true
  }

  /** Connected: what is held and what is queued add up to the latest parseable key. */
  predicate CaughtUp(w: World) {
    w.running && w.watch.Open? ==> Settle(w.key, w.watch.queue) == Latest(w.history)
  }

  /** Before the first Get, an open watch has already queued whatever is stored now. */
  predicate Listening(w: World) {
    !w.running && w.watch.Open? && Current(w).Good? ==>
      w.watch.queue != [] && w.watch.queue[|w.watch.queue| - 1] == Current(w)
  }

  /** The queue is the end of the history, and the key held is the latest of what is known of it. */
  predicate Tracked(w: World) {
    && (w.watch.Open? ==> |w.watch.queue| <= |w.history| && w.watch.queue == w.history[|w.history| - |w.watch.queue|..])
    && (w.running ==> w.known <= |w.history| && w.key == Latest(w.history[..w.known]))
    && RefreshRead(w)
  }

  lemma {:induction false} SettleAppends(key: Option<PrivateKey>, queue: seq<Content>, c: Content)
    ensures Settle(key, queue + [c]) == Handled(Settle(key, queue), c)
    decreases |queue|
  {
    if queue == [] {
      assert queue + [c] == [c];
    } else {
      SettleAppends(Handled(key, queue[0]), queue[1..], c);
      assert (queue + [c])[1..] == queue[1..] + [c];
    }
  }

  /** A parseable event in the queue makes the outcome independent of what is held now. */
  lemma {:induction false} SettleForgets(key: Option<PrivateKey>, other: Option<PrivateKey>, queue: seq<Content>)
    ensures Parseable(queue) ==> Settle(key, queue) == Settle(other, queue)
    ensures !Parseable(queue) ==> Settle(key, queue) == key
    decreases |queue|
  {
    if queue != [] {
      SettleForgets(Handled(key, queue[0]), Handled(other, queue[0]), queue[1..]);
      assert queue == [queue[0]] + queue[1..];
    }
  }

  lemma LatestOfCurrent(history: seq<Content>, c: Content)
    ensures Latest(history + [c]) == if c.Good? then Some(c.key) else Latest(history)
  {
    assert (history + [c])[..|history|] == history;
  }

  /** The latest key of two stretches is that of the second, if it has any. */
  lemma {:induction false} LatestOfBoth(a: seq<Content>, b: seq<Content>)
    ensures Latest(b).Some? <==> Parseable(b)
    ensures Latest(a + b) == if Parseable(b) then Latest(b) else Latest(a)
    decreases |b|
  {
    if b == [] {
      assert a + b == a;
    } else {
      var init, last := b[..|b| - 1], b[|b| - 1];
      LatestOfBoth(a, init);
      LatestOfCurrent(a + init, last);
      assert a + b == a + init + [last] && b == init + [last];
    }
  }

  lemma LatestSplit(history: seq<Content>, n: nat)
    requires n <= |history|
    ensures Latest(history) == if Parseable(history[n..]) then Latest(history[n..]) else Latest(history[..n])
    ensures Latest(history[n..]).Some? <==> Parseable(history[n..])
  {
    LatestOfBoth(history[..n], history[n..]);
    assert history == history[..n] + history[n..];
  }

  lemma LatestAt(history: seq<Content>, r: nat)
    requires r < |history| && history[r].Good?
    ensures Latest(history[..r + 1]) == Some(history[r].key)
  {
    LatestOfCurrent(history[..r], history[r]);
    assert history[..r + 1] == history[..r] + [history[r]];
  }

  lemma SettleLast(key: Option<PrivateKey>, queue: seq<Content>)
    requires queue != [] && queue[|queue| - 1].Good?
    ensures Settle(key, queue) == Some(queue[|queue| - 1].key)
  {
    SettleAppends(key, queue[..|queue| - 1], queue[|queue| - 1]);
    assert queue == queue[..|queue| - 1] + [queue[|queue| - 1]];
  }

  lemma TrackedDeliver(w: World)
    requires Tracked(w) && Enabled(w, Deliver)
    ensures Tracked(Apply(w, Deliver))
  {
    var i := |w.history| - |w.watch.queue|;
    assert w.watch.queue[0] == w.history[i] && w.watch.queue[1..] == w.history[i + 1..];
    LatestOfCurrent(w.history[..i], w.history[i]);
    assert w.history[..i + 1] == w.history[..i] + [w.history[i]];
  }

  lemma TrackedRotate(w: World, content: Content)
    requires Tracked(w)
    ensures Tracked(Apply(w, Rotate(content)))
  {
    var w' := Apply(w, Rotate(content));
    assert w.running ==> w'.history[..w.known] == w.history[..w.known];
    if w.watch.Open? {
      var i := |w.history| - |w.watch.queue|;
      assert w'.history[i..] == w.history[i..] + [content];
    }
  }

  lemma TrackedStep(w: World, a: Action)
    requires Tracked(w) && Enabled(w, a)
    ensures Tracked(Apply(w, a))
  {
    match a
    case Rotate(content) => TrackedRotate(w, content);
    case InitialGet =>
      LatestAt(w.history, |w.history| - 1);
    case Deliver => TrackedDeliver(w);
    case RefreshSet => LatestAt(w.history, w.refreshing.value);
    case _ =>
  }

  ghost predicate Invariant(w: World) {
    CaughtUp(w) && Listening(w) && Tracked(w)
  }

  /** Exactly when reopening the watch leaves nothing lost. */
  lemma ReopenCatchesUpIff(w: World)
    requires Tracked(w) && w.running && Enabled(w, OpenWatch)
    ensures CaughtUp(Apply(w, OpenWatch)) <==> Current(w).Good? || Missable(w.history[w.known..], w.key)
  {
    SettleForgets(w.key, w.key, Replay(w));
    LatestSplit(w.history, w.known);
    if Current(w).Good? { SettleLast(w.key, Replay(w)); }
  }

  /** The key at `r` and the queue add up to the latest key exactly if the queue has one or none came since. */
  lemma InstallCatchesUpIff(history: seq<Content>, held: Option<PrivateKey>, queue: seq<Content>, r: nat)
    requires r < |history| && history[r].Good? && Settle(held, queue) == Latest(history)
    ensures Settle(Some(history[r].key), queue) == Latest(history) <==>
      Parseable(queue) || Missable(history[r + 1..], Some(history[r].key))
  {
    var key := Some(history[r].key);
    SettleForgets(held, key, queue);
    SettleForgets(key, held, queue);
    LatestSplit(history, r + 1);
    LatestAt(history, r);
  }

  /** Exactly when installing a refreshed key leaves nothing lost. */
  lemma RefreshKeepsUpIff(w: World)
    requires CaughtUp(w) && w.watch.Open? && Enabled(w, RefreshSet)
    ensures var r := w.refreshing.value;
      CaughtUp(Apply(w, RefreshSet)) <==>
        Parseable(w.watch.queue) || Missable(w.history[r + 1..], Some(w.history[r].key))
  {
    InstallCatchesUpIff(w.history, w.key, w.watch.queue, w.refreshing.value);
  }

  lemma InvariantStep(w: World, a: Action)
    requires Invariant(w) && Enabled(w, a) && Benign(w, a)
    ensures Invariant(Apply(w, a))
  {
    TrackedStep(w, a);
    match a
    case Rotate(content) =>
      LatestOfCurrent(w.history, content);
      if w.watch.Open? { SettleAppends(w.key, w.watch.queue, content); }
    case OpenWatch =>
      if w.running { ReopenCatchesUpIff(w); }
    case InitialGet => SettleLast(Some(Current(w).key), w.watch.queue);
    case RefreshSet =>
      if w.watch.Open? { RefreshKeepsUpIff(w); }
    case _ =>
  }

  // ----- every run

  predicate IsRun(w: World, actions: seq<Action>)
    decreases |actions|
  {
    actions == [] || (Enabled(w, actions[0]) && IsRun(Apply(w, actions[0]), actions[1..]))
  }

  predicate AllBenign(w: World, actions: seq<Action>)
    requires IsRun(w, actions)
    decreases |actions|
  {
    actions == [] || (Benign(w, actions[0]) && AllBenign(Apply(w, actions[0]), actions[1..]))
  }

  function After(w: World, actions: seq<Action>): World
    requires IsRun(w, actions)
    decreases |actions|
  {
    if actions == [] then w else After(Apply(w, actions[0]), actions[1..])
  }

  predicate Initial(w: World) {
    w.watch.Closed? && !w.running && w.key.None? && w.refreshing.None?
  }

  lemma {:induction false} InvariantRun(w: World, actions: seq<Action>)
    requires Invariant(w) && IsRun(w, actions) && AllBenign(w, actions)
    ensures Invariant(After(w, actions))
    decreases |actions|
  {
    if actions != [] {
      InvariantStep(w, actions[0]);
      InvariantRun(Apply(w, actions[0]), actions[1..]);
    }
  }

  /**
   However rotations interleave with opening the watch, the first Get, reconnects and Refreshes,
   as long as each reopening and each Refresh is benign: once the watch is connected and drained,
   the key held is the latest parseable one.
   */
  lemma NoRotationLost(w: World, actions: seq<Action>)
    requires Initial(w) && IsRun(w, actions) && AllBenign(w, actions)
    requires After(w, actions).running && After(w, actions).watch == Open([])
    ensures After(w, actions).key == Latest(After(w, actions).history)
  {
    InvariantRun(w, actions);
  }

  // ----- what holds without the reopening condition

  /** Connected: if the stored Secret parses, its key is held or queued last. */
  predicate HasCurrent(w: World) {
    w.running && w.watch.Open? && Current(w).Good? ==> Settle(w.key, w.watch.queue) == Some(Current(w).key)
  }

  /** A Refresh that is benign keeps the stored key in reach. */
  lemma RefreshHasCurrent(w: World)
    requires HasCurrent(w) && w.watch.Open? && Enabled(w, RefreshSet) && Benign(w, RefreshSet)
    ensures HasCurrent(Apply(w, RefreshSet))
  {
    var r := w.refreshing.value;
    var newer := w.history[r + 1..];
    SettleForgets(w.key, Some(w.history[r].key), w.watch.queue);
    SettleForgets(Some(w.history[r].key), w.key, w.watch.queue);
    if Current(w).Good? && newer != [] { assert newer[|newer| - 1] == Current(w) && Parseable(newer); }
  }

  lemma HasCurrentStep(w: World, a: Action)
    requires HasCurrent(w) && Listening(w) && Enabled(w, a) && (a.RefreshSet? ==> Benign(w, a))
    ensures HasCurrent(Apply(w, a)) && Listening(Apply(w, a))
  {
    match a
    case Rotate(content) =>
      if w.watch.Open? { SettleAppends(w.key, w.watch.queue, content); }
    case OpenWatch =>
      if Current(w).Good? { SettleLast(w.key, Replay(w)); }
    case InitialGet => SettleLast(Some(Current(w).key), w.watch.queue);
    case RefreshSet =>
      if w.watch.Open? { RefreshHasCurrent(w); }
    case _ =>
  }

  predicate RefreshesBenign(w: World, actions: seq<Action>)
    requires IsRun(w, actions)
    decreases |actions|
  {
    actions == [] || ((actions[0].RefreshSet? ==> Benign(w, actions[0])) &&
      RefreshesBenign(Apply(w, actions[0]), actions[1..]))
  }

  lemma {:induction false} HasCurrentRun(w: World, actions: seq<Action>)
    requires HasCurrent(w) && Listening(w) && IsRun(w, actions) && RefreshesBenign(w, actions)
    ensures HasCurrent(After(w, actions))
    decreases |actions|
  {
    if actions != [] {
      HasCurrentStep(w, actions[0]);
      HasCurrentRun(Apply(w, actions[0]), actions[1..]);
    }
  }

  /** Whatever reopenings missed: connected and drained, a stored key that parses is the one held. */
  lemma StoredKeyIsHeld(w: World, actions: seq<Action>)
    requires Initial(w) && IsRun(w, actions) && RefreshesBenign(w, actions)
    requires After(w, actions).running && After(w, actions).watch == Open([]) && Current(After(w, actions)).Good?
    ensures After(w, actions).key == Some(Current(After(w, actions)).key)
  {
    HasCurrentRun(w, actions);
  }

  // ----- what goes wrong otherwise

  lemma Prepend(w: World, a: Action, rest: seq<Action>)
    requires Enabled(w, a) && IsRun(Apply(w, a), rest)
    ensures IsRun(w, [a] + rest) && After(w, [a] + rest) == After(Apply(w, a), rest)
  {
    assert ([a] + rest)[1..] == rest;
  }

  /** Connected, drained and holding the stored key, with no Refresh in flight. */
  predicate Steady(w: World) {
    w.running && w.watch == Open([]) && Current(w).Good? && w.key == Some(Current(w).key) && w.refreshing.None?
  }

  /** Such states are reachable, with any key. */
  lemma SteadyIsReachable(w: World, k: PrivateKey) returns (actions: seq<Action>)
    requires Initial(w)
    ensures IsRun(w, actions) && Steady(After(w, actions)) && After(w, actions).key == Some(k)
  {
    var w1 := Apply(w, Rotate(Good(k)));
    var w2 := Apply(w1, OpenWatch);
    var w3 := Apply(w2, InitialGet);
    assert [Deliver] + [] == [Deliver];
    Prepend(w3, Deliver, []);
    Prepend(w2, InitialGet, [Deliver]);
    Prepend(w1, OpenWatch, [InitialGet] + [Deliver]);
    Prepend(w, Rotate(Good(k)), [OpenWatch] + ([InitialGet] + [Deliver]));
    actions := [Rotate(Good(k))] + ([OpenWatch] + ([InitialGet] + [Deliver]));
  }

  /** From every steady state: a key rotated in and overwritten with garbage while disconnected is never seen. */
  lemma UnparseableGapLosesKey(w: World, missed: PrivateKey) returns (actions: seq<Action>)
    requires Steady(w)
    ensures IsRun(w, actions) && RefreshesBenign(w, actions)
    ensures var v := After(w, actions); v.watch == Open([]) && v.key == w.key && Latest(v.history) == Some(missed)
  {
    var w1 := Apply(w, CloseWatch);
    var w2 := Apply(w1, Rotate(Good(missed)));
    var w3 := Apply(w2, Rotate(Garbage));
    var w4 := Apply(w3, OpenWatch);
    LatestOfCurrent(w1.history, Good(missed));
    LatestOfCurrent(w2.history, Garbage);
    assert [Deliver] + [] == [Deliver];
    Prepend(w4, Deliver, []);
    Prepend(w3, OpenWatch, [Deliver]);
    Prepend(w2, Rotate(Garbage), [OpenWatch] + [Deliver]);
    Prepend(w1, Rotate(Good(missed)), [Rotate(Garbage)] + ([OpenWatch] + [Deliver]));
    Prepend(w, CloseWatch, [Rotate(Good(missed))] + ([Rotate(Garbage)] + ([OpenWatch] + [Deliver])));
    actions := [CloseWatch] + ([Rotate(Good(missed))] + ([Rotate(Garbage)] + ([OpenWatch] + [Deliver])));
    NoRefreshIsBenign(w, actions);
  }

  lemma {:induction false} NoRefreshIsBenign(w: World, actions: seq<Action>)
    requires IsRun(w, actions) && forall a :: a in actions ==> !a.RefreshSet?
    ensures RefreshesBenign(w, actions)
    decreases |actions|
  {
    if actions != [] { NoRefreshIsBenign(Apply(w, actions[0]), actions[1..]); }
  }

  /**
   From every steady state: a Refresh overtaken by a rotation puts the older key back, and nothing
   is left to correct it.
   */
  lemma OvertakenRefreshRegresses(w: World, latest: PrivateKey) returns (actions: seq<Action>)
    requires Steady(w)
    ensures IsRun(w, actions)
    ensures var v := After(w, actions); v.watch == Open([]) && v.key == w.key && Latest(v.history) == Some(latest)
  {
    var w1 := Apply(w, RefreshGet);
    var w2 := Apply(w1, Rotate(Good(latest)));
    var w3 := Apply(w2, Deliver);
    LatestOfCurrent(w1.history, Good(latest));
    assert [RefreshSet] + [] == [RefreshSet];
    Prepend(w3, RefreshSet, []);
    Prepend(w2, Deliver, [RefreshSet]);
    Prepend(w1, Rotate(Good(latest)), [Deliver] + [RefreshSet]);
    Prepend(w, RefreshGet, [Rotate(Good(latest))] + ([Deliver] + [RefreshSet]));
    actions := [RefreshGet] + ([Rotate(Good(latest))] + ([Deliver] + [RefreshSet]));
  }
}
