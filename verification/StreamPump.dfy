/**
 The proxy's bidirectional stream relay: two pump goroutines, a channel of capacity two, and the
 collector that waits for both.
 */
module StreamPump {
  import opened ApiStore

  type Message = nat
  type Failure = nat

  /** What Recv yields. */
  datatype Received = Item(m: Message) | Eof | Broken(e: Failure)

  /** Where a pump stands; Closing is the half-close of the request direction at end of input. */
  datatype Pc =
    | Receiving
    | Sending(m: Message)
    | Closing
    | Reporting(outcome: Option<Failure>)
    | Done(outcome: Option<Failure>)

  /** One direction: what came in, what went out, and whether the input ended cleanly. */
  datatype Direction = Direction(received: seq<Message>, sent: seq<Message>, pc: Pc, ended: bool)

  // ----- one pump on its own

  /** The messages of a stretch of input. */
  function Items(inputs: seq<Received>): seq<Message> {
    if inputs == [] then []
    else Items(inputs[..|inputs| - 1]) + if inputs[|inputs| - 1].Item? then [inputs[|inputs| - 1].m] else []
  }

  /** The pump goes on at step i: a message arrives and is passed on. */
  predicate Relays(inputs: seq<Received>, sends: seq<Option<Failure>>, i: nat)
    requires |sends| == |inputs| && i < |inputs|
  {
    inputs[i].Item? && sends[i].None?
  }

  /** n is where the pump stops. */
  predicate StopsAt(inputs: seq<Received>, sends: seq<Option<Failure>>, n: nat)
    requires |sends| == |inputs| && n < |inputs|
  {
    !Relays(inputs, sends, n) && forall i :: 0 <= i < n ==> Relays(inputs, sends, i)
  }

  /** pumpRequests against scripted streams: everything before the stop is passed on, in order. */
  method PumpRequests(inputs: seq<Received>, sends: seq<Option<Failure>>, close: Option<Failure>)
    returns (sent: seq<Message>, halfClosed: bool, verdict: Option<Failure>, n: nat)
    requires |sends| == |inputs| && exists i :: 0 <= i < |inputs| && !inputs[i].Item?
    ensures n < |inputs| && StopsAt(inputs, sends, n)
    ensures |sent| == n && forall i :: 0 <= i < n ==> inputs[i] == Item(sent[i])
    ensures sent == Items(inputs[..n])
    ensures halfClosed <==> inputs[n].Eof?
    ensures verdict == match inputs[n] case Eof => close case Broken(e) => Some(e) case Item(_) => sends[n]
  {
    ghost var end :| 0 <= end < |inputs| && !inputs[end].Item?;
    sent, halfClosed, n := [], false, 0;
    while true
      invariant n <= end && (forall i :: 0 <= i < n ==> Relays(inputs, sends, i))
      invariant |sent| == n && forall i :: 0 <= i < n ==> inputs[i] == Item(sent[i])
      invariant sent == Items(inputs[..n]) && !halfClosed
      decreases |inputs| - n
    {
      var input := inputs[n];
      if input.Eof? {
        return sent, true, close, n;
      }
      if input.Broken? {
        return sent, false, Some(input.e), n;
      }
      if sends[n].Some? {
        return sent, false, sends[n], n;
      }
      assert inputs[..n + 1][..n] == inputs[..n];
      sent, n := sent + [input.m], n + 1;
    }
  }

  /** pumpResponses, the mirror: no half-close, and end of input is a clean outcome. */
  method PumpResponses(inputs: seq<Received>, sends: seq<Option<Failure>>)
    returns (sent: seq<Message>, verdict: Option<Failure>, n: nat)
    requires |sends| == |inputs| && exists i :: 0 <= i < |inputs| && !inputs[i].Item?
    ensures n < |inputs| && StopsAt(inputs, sends, n)
    ensures |sent| == n && forall i :: 0 <= i < n ==> inputs[i] == Item(sent[i])
    ensures sent == Items(inputs[..n])
    ensures verdict == match inputs[n] case Eof => None case Broken(e) => Some(e) case Item(_) => sends[n]
  {
    ghost var end :| 0 <= end < |inputs| && !inputs[end].Item?;
    sent, n := [], 0;
    while true
      invariant n <= end && (forall i :: 0 <= i < n ==> Relays(inputs, sends, i))
      invariant |sent| == n && forall i :: 0 <= i < n ==> inputs[i] == Item(sent[i])
      invariant sent == Items(inputs[..n])
      decreases |inputs| - n
    {
      var input := inputs[n];
      if input.Eof? {
        return sent, None, n;
      }
      if input.Broken? {
        return sent, Some(input.e), n;
      }
      if sends[n].Some? {
        return sent, sends[n], n;
      }
      assert inputs[..n + 1][..n] == inputs[..n];
      sent, n := sent + [input.m], n + 1;
    }
  }

  // ----- both pumps and the collector

  datatype Side = Requests | Responses

  /** What a pump puts on the error channel. */
  datatype Verdict = Verdict(side: Side, error: Option<Failure>)

  const ChannelCapacity := 2
  const PumpDirections := 2

  /** `reports` is everything ever put on the channel; the first `taken` have been collected. */
  datatype World = World(
    requests: Direction,
    responses: Direction,
    closeSends: nat,
    reports: seq<Verdict>,
    taken: nat,
    firstErr: Option<Failure>,
    returned: bool)

  datatype Action =
    | Recv(side: Side, input: Received)
    | Send(side: Side, result: Option<Failure>)
    | CloseSend(result: Option<Failure>)
    | Report(side: Side)
    | Collect
    | Return

  function Dir(w: World, side: Side): Direction {
    if side.Requests? then w.requests else w.responses
  }

  function WithDir(w: World, side: Side, d: Direction): World {
    if side.Requests? then w.(requests := d) else w.(responses := d)
  }

  function Channel(w: World): seq<Verdict>
    requires w.taken <= |w.reports|
  {
    w.reports[w.taken..]
  }

  predicate Enabled(w: World, a: Action) {
    match a
    case Recv(side, input) => Dir(w, side).pc.Receiving?
    case Send(side, result) => Dir(w, side).pc.Sending?
    case CloseSend(result) => w.requests.pc.Closing?
    case Report(side) => Dir(w, side).pc.Reporting? && w.taken <= |w.reports| && |Channel(w)| < ChannelCapacity
    case Collect => w.taken < |w.reports| && w.taken < PumpDirections
    case Return => w.taken == PumpDirections && !w.returned
  }

  /** What one step does to the direction that takes it. */
  function Fed(d: Direction, side: Side, input: Received): Direction {
    match input
    case Item(m) => d.(received := d.received + [m], pc := Sending(m))
    case Eof => d.(pc := if side.Requests? then Closing else Reporting(None), ended := true)
    case Broken(e) => d.(pc := Reporting(Some(e)))
  }

  function Passed(d: Direction, result: Option<Failure>): Direction
    requires d.pc.Sending?
  {
    if result.Some? then d.(pc := Reporting(result)) else d.(sent := d.sent + [d.pc.m], pc := Receiving)
  }

  function Apply(w: World, a: Action): World
    requires Enabled(w, a)
  {
    match a
    case Recv(side, input) => WithDir(w, side, Fed(Dir(w, side), side, input))
    case Send(side, result) => WithDir(w, side, Passed(Dir(w, side), result))
    case CloseSend(result) => w.(closeSends := w.closeSends + 1, requests := w.requests.(pc := Reporting(result)))
    case Report(side) =>
      var d := Dir(w, side);
      WithDir(w, side, d.(pc := Done(d.pc.outcome))).(reports := w.reports + [Verdict(side, d.pc.outcome)])
    case Collect =>
      w.(taken := w.taken + 1, firstErr := if w.firstErr.None? then w.reports[w.taken].error else w.firstErr)
    case Return => w.(returned := true)
  }

  // ----- invariant

  /** What was sent is a prefix of what was received, at most one message behind. */
  predicate InOrder(d: Direction) {
    && d.sent <= d.received && |d.received| <= |d.sent| + 1
    && (d.pc.Receiving? || d.ended ==> d.sent == d.received)
    && (d.pc.Sending? ==> d.received == d.sent + [d.pc.m] && !d.ended)
    && (d.pc.Receiving? ==> !d.ended)
  }

  /** The half-close happens once, at the end of the requests, and a clean end needs it. */
  predicate HalfClosed(d: Direction, closeSends: nat) {
    && closeSends == (if d.ended && !d.pc.Closing? then 1 else 0)
    && (d.pc.Closing? ==> d.ended)
    && ((d.pc.Reporting? || d.pc.Done?) && d.pc.outcome.None? ==> d.ended)
  }

  /** The responses have no half-close; their end is clean exactly if it is reported so. */
  predicate Open(d: Direction) {
    !d.pc.Closing? && (d.pc.Reporting? || d.pc.Done? ==> (d.pc.outcome.None? <==> d.ended))
  }

  predicate StreamsSound(w: World) {
    InOrder(w.requests) && InOrder(w.responses) && HalfClosed(w.requests, w.closeSends) && Open(w.responses)
  }

  predicate Finished(d: Direction) { d.pc.Done? }

  function Count(w: World): nat {
    (if Finished(w.requests) then 1 else 0) + (if Finished(w.responses) then 1 else 0)
  }

  /** Each finished pump has reported its outcome exactly once. */
  predicate ReportsMatch(w: World) {
    && w.taken <= |w.reports| == Count(w)
    && (forall i :: 0 <= i < |w.reports| ==> Dir(w, w.reports[i].side).pc == Done(w.reports[i].error))
    && (|w.reports| == 2 ==> w.reports[0].side != w.reports[1].side)
  }

  /** The first error among the verdicts. */
  function FirstError(verdicts: seq<Verdict>): Option<Failure> {
    if verdicts == [] then None
    else
      var earlier := FirstError(verdicts[..|verdicts| - 1]);
      if earlier.Some? then earlier else verdicts[|verdicts| - 1].error
  }

  /** The collecting loop of pumpBidi: all verdicts are awaited, the first error is kept. */
  method CollectVerdicts(verdicts: seq<Verdict>) returns (firstErr: Option<Failure>)
    ensures firstErr == FirstError(verdicts)
    ensures firstErr.None? <==> forall v :: v in verdicts ==> v.error.None?
    ensures firstErr.Some? ==>
      exists i :: 0 <= i < |verdicts| && verdicts[i].error == firstErr &&
        forall j :: 0 <= j < i ==> verdicts[j].error.None?
  {
    firstErr := None;
    for i := 0 to |verdicts|
      invariant firstErr == FirstError(verdicts[..i])
      invariant firstErr.None? <==> forall v :: v in verdicts[..i] ==> v.error.None?
      invariant firstErr.Some? ==>
        exists k :: 0 <= k < i && verdicts[k].error == firstErr && forall j :: 0 <= j < k ==> verdicts[j].error.None?
    {
      assert verdicts[..i + 1] == verdicts[..i] + [verdicts[i]];
      Collected(verdicts, i);
      if verdicts[i].error.Some? && firstErr.None? {
        forall j | 0 <= j < i ensures verdicts[j].error.None? { assert verdicts[..i][j] in verdicts[..i]; }
        firstErr := verdicts[i].error;
      }
    }
    assert verdicts[..|verdicts|] == verdicts;
  }

  predicate Invariant(w: World) {
    && StreamsSound(w) && ReportsMatch(w)
    && w.firstErr == FirstError(w.reports[..w.taken])
    && (w.returned ==> w.taken == PumpDirections)
  }

  lemma FedStep(d: Direction, side: Side, input: Received, closeSends: nat)
    requires InOrder(d) && d.pc.Receiving?
    ensures InOrder(Fed(d, side, input))
    ensures side.Requests? && HalfClosed(d, closeSends) ==> HalfClosed(Fed(d, side, input), closeSends)
    ensures side.Responses? && Open(d) ==> Open(Fed(d, side, input))
  {
  }

  lemma PassedStep(d: Direction, result: Option<Failure>, closeSends: nat)
    requires InOrder(d) && d.pc.Sending?
    ensures InOrder(Passed(d, result))
    ensures HalfClosed(d, closeSends) ==> HalfClosed(Passed(d, result), closeSends)
    ensures Open(d) ==> Open(Passed(d, result))
  {
  }

  lemma StreamsStep(w: World, a: Action)
    requires StreamsSound(w) && Enabled(w, a)
    ensures StreamsSound(Apply(w, a))
  {
    match a
    case Recv(side, input) => FedStep(Dir(w, side), side, input, w.closeSends);
    case Send(side, result) => PassedStep(Dir(w, side), result, w.closeSends);
    case _ =>
  }

  /** A pump that is done stays as it is, and only a report makes one done. */
  lemma DoneStays(w: World, a: Action, side: Side)
    requires Enabled(w, a)
    ensures Finished(Dir(w, side)) ==> Dir(Apply(w, a), side).pc == Dir(w, side).pc
    ensures Finished(Dir(Apply(w, a), side)) && !Finished(Dir(w, side)) ==> a == Report(side)
    ensures !a.Report? ==> Apply(w, a).reports == w.reports
  {
  }

  function Other(side: Side): Side { if side.Requests? then Responses else Requests }

  lemma ReportMoves(w: World, side: Side)
    requires Enabled(w, Report(side))
    ensures var w', outcome := Apply(w, Report(side)), Dir(w, side).pc.outcome;
      && w'.taken == w.taken && w'.reports == w.reports + [Verdict(side, outcome)]
      && Dir(w', side).pc == Done(outcome) && Dir(w', Other(side)) == Dir(w, Other(side))
  {
  }

  /** A report adds the verdict of a pump that had not reported. */
  lemma ReportAdds(w: World, w': World, side: Side, outcome: Option<Failure>)
    requires ReportsMatch(w) && !Finished(Dir(w, side))
    requires w'.taken == w.taken && w'.reports == w.reports + [Verdict(side, outcome)]
    requires Dir(w', side).pc == Done(outcome) && Dir(w', Other(side)) == Dir(w, Other(side))
    ensures ReportsMatch(w')
  {
    assert Count(w') == Count(w) + 1 && |w.reports| <= 1;
    if w.reports != [] {
      assert w'.reports[0] == w.reports[0] && w'.reports[0].side == Other(side);
    }
  }

  lemma ReportsStep(w: World, a: Action)
    requires ReportsMatch(w) && Enabled(w, a)
    ensures ReportsMatch(Apply(w, a)) && w.reports <= Apply(w, a).reports
  {
    if a.Report? {
      ReportMoves(w, a.side);
      ReportAdds(w, Apply(w, a), a.side, Dir(w, a.side).pc.outcome);
    } else {
      DoneStays(w, a, Requests);
      DoneStays(w, a, Responses);
    }
  }

  lemma Collected(reports: seq<Verdict>, taken: nat)
    requires taken < |reports|
    ensures FirstError(reports[..taken + 1]) ==
      if FirstError(reports[..taken]).Some? then FirstError(reports[..taken]) else reports[taken].error
  {
    assert reports[..taken + 1][..taken] == reports[..taken];
  }

  lemma InvariantStep(w: World, a: Action)
    requires Invariant(w) && Enabled(w, a)
    ensures Invariant(Apply(w, a))
  {
    StreamsStep(w, a);
    ReportsStep(w, a);
    FirstErrorStep(w, a);
  }

  lemma FirstErrorStep(w: World, a: Action)
    requires Enabled(w, a) && w.taken <= |w.reports| && w.firstErr == FirstError(w.reports[..w.taken])
    requires w.returned ==> w.taken == PumpDirections
    ensures var w' := Apply(w, a);
      w'.taken <= |w'.reports| && w'.firstErr == FirstError(w'.reports[..w'.taken]) &&
        (w'.returned ==> w'.taken == PumpDirections)
  {
    match a
    case Collect => Collected(w.reports, w.taken);
    case Report(side) =>
      assert (w.reports + [Verdict(side, Dir(w, side).pc.outcome)])[..w.taken] == w.reports[..w.taken];
    case _ =>
  }

  /** A pump that has its outcome can put it on the channel at once: there is always room. */
  lemma NeverBlocksOnChannel(w: World, side: Side)
    requires Invariant(w) && Dir(w, side).pc.Reporting?
    ensures Enabled(w, Report(side))
  {
  }

  /** The pump is inside a call on one of its streams. */
  predicate AtStream(d: Direction) { d.pc.Receiving? || d.pc.Sending? || d.pc.Closing? }

  /** A step that needs no stream: putting on the channel, taking off it, returning. */
  predicate Internal(a: Action) { a.Report? || a.Collect? || a.Return? }

  /** How many such steps are left. */
  function Left(w: World): int {
    (PumpDirections - |w.reports|) + (PumpDirections - w.taken) + (if w.returned then 0 else 1)
  }

  /**
   pumpBidi waits for nothing but its streams: unless a pump is inside a stream call, some step that
   needs no stream is possible, and each such step brings the return closer.
   */
  lemma WaitsOnStreamsOnly(w: World) returns (a: Action)
    requires Invariant(w) && !w.returned && !AtStream(w.requests) && !AtStream(w.responses)
    ensures Enabled(w, a) && Internal(a) && 0 <= Left(Apply(w, a)) < Left(w)
    ensures !AtStream(Apply(w, a).requests) && !AtStream(Apply(w, a).responses)
  {
    if w.taken == PumpDirections {
      a := Return;
    } else if w.taken < |w.reports| {
      a := Collect;
    } else {
      a := Report(if Finished(w.requests) then Responses else Requests);
    }
  }

  /** Once both streams are done with, five such steps at most lead to the return. */
  lemma {:induction false} ReturnsAfterStreams(w: World) returns (actions: seq<Action>)
    requires Invariant(w) && !AtStream(w.requests) && !AtStream(w.responses)
    ensures IsRun(w, actions) && After(w, actions).returned && |actions| <= Left(w) <= 5
    ensures forall a :: a in actions ==> Internal(a)
    decreases Left(w)
  {
    if w.returned {
      actions := [];
    } else {
      var a := WaitsOnStreamsOnly(w);
      InvariantStep(w, a);
      var rest := ReturnsAfterStreams(Apply(w, a));
      actions := [a] + rest;
      assert actions[1..] == rest;
    }
  }

  // ----- every run

  predicate IsRun(w: World, actions: seq<Action>)
    decreases |actions|
  {
    actions == [] || (Enabled(w, actions[0]) && IsRun(Apply(w, actions[0]), actions[1..]))
  }

  function After(w: World, actions: seq<Action>): World
    requires IsRun(w, actions)
    decreases |actions|
  {
    if actions == [] then w else After(Apply(w, actions[0]), actions[1..])
  }

  const Start := World(Direction([], [], Receiving, false), Direction([], [], Receiving, false), 0, [], 0, None, false)

  lemma {:induction false} InvariantRun(w: World, actions: seq<Action>)
    requires Invariant(w) && IsRun(w, actions)
    ensures Invariant(After(w, actions))
    decreases |actions|
  {
    if actions != [] {
      InvariantStep(w, actions[0]);
      InvariantRun(Apply(w, actions[0]), actions[1..]);
    }
  }

  /** Both streams ended at end of input and the half-close went through. */
  predicate Clean(w: World) {
    w.requests.pc == Done(None) && w.responses.pc == Done(None)
  }

  /**
   Under every interleaving: each side has sent a prefix of what the other received, at most one
   message behind and all of it once its input ended; the half-close happens at most once, only
   after every request, and always when the requests ended and their pump is done.
   */
  lemma RelayKeepsOrder(actions: seq<Action>)
    requires IsRun(Start, actions)
    ensures var w := After(Start, actions);
      && w.requests.sent <= w.requests.received && |w.requests.received| <= |w.requests.sent| + 1
      && w.responses.sent <= w.responses.received && |w.responses.received| <= |w.responses.sent| + 1
      && (w.requests.ended ==> w.requests.sent == w.requests.received)
      && (w.responses.ended ==> w.responses.sent == w.responses.received)
      && w.closeSends <= 1
      && (w.closeSends == 1 ==> w.requests.ended && w.requests.sent == w.requests.received)
      && (w.requests.ended && w.requests.pc.Done? ==> w.closeSends == 1)
  {
    InvariantRun(Start, actions);
  }

  /** pumpBidi returns only when both pumps are done, and returns nil exactly when both ended cleanly. */
  lemma NilIffBothClean(actions: seq<Action>)
    requires IsRun(Start, actions) && After(Start, actions).returned
    ensures var w := After(Start, actions);
      && w.requests.pc.Done? && w.responses.pc.Done?
      && (w.firstErr.None? <==> Clean(w))
      && (w.firstErr.None? <==> w.requests.ended && w.responses.ended && w.requests.pc.outcome.None?)
      && (w.firstErr.None? ==>
            w.closeSends == 1 && w.requests.sent == w.requests.received && w.responses.sent == w.responses.received)
      && (w.firstErr.Some? ==> w.firstErr == w.requests.pc.outcome || w.firstErr == w.responses.pc.outcome)
  {
    InvariantRun(Start, actions);
    var w := After(Start, actions);
    var r := w.reports;
    assert r[0].side != r[1].side;
    assert r[..2] == [r[0], r[1]] && [r[0], r[1]][..1] == [r[0]] && [r[0]][..0] == [];
    assert FirstError([r[0]]) == r[0].error;
  }
}
