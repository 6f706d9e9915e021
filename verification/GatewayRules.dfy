/** The gateway's event stream: a byte-bounded replay buffer, cursor resume, and what each subscriber has been sent. */
module GatewayRules {
  import opened Wrappers
  import opened Sequences

  const MAX_EVENT_BYTES := 80 * 1024
  const MAX_REPLAY_BYTES := 2 * 1024 * 1024
  const MAX_SUBSCRIBERS := 4

  type EventId = n: int | 1 <= n witness 1

  datatype ReplayEvent = ReplayEvent(bytes: nat, event: string, id: EventId)

  /** What is written to a response. A reset carries the current snapshot under the newest identifier. */
  datatype Frame = EventFrame(event: ReplayEvent) | ResetFrame(id: nat)

  /** `accepted` is the history of everything that was given an identifier; `sent` what each response was sent, and
      `since` the identifier after which the stream of a regular subscription starts. */
  datatype Gateway = Gateway(
    replay: seq<ReplayEvent>,
    replayBytes: nat,
    nextEventId: EventId,
    subscribers: set<nat>,
    sent: map<nat, seq<Frame>>,
    accepted: seq<ReplayEvent>,
    since: map<nat, nat>)

  const INITIAL_GATEWAY := Gateway([], 0, 1, {}, map[], [], map[])

  function Total(events: seq<ReplayEvent>): nat {
    if events == [] then 0 else events[0].bytes + Total(events[1..])
  }

  /** Drops the oldest events until the rest fits. */
  function Evict(events: seq<ReplayEvent>): seq<ReplayEvent> {
    if Total(events) > MAX_REPLAY_BYTES && |events| > 0 then Evict(events[1..]) else events
  }

  function SentTo(sent: map<nat, seq<Frame>>, r: nat): seq<Frame> {
    if r in sent then sent[r] else []
  }

  /** One more frame to each of some responses. */
  function Written(sent: map<nat, seq<Frame>>, to: set<nat>, frame: Frame): map<nat, seq<Frame>> {
    map r | r in sent.Keys + to :: if r in to then SentTo(sent, r) + [frame] else sent[r]
  }

  /** `slow` are the responses whose write reports back pressure; they are destroyed. */
  function Publish(g: Gateway, event: string, bytes: nat, slow: set<nat>): Gateway {
    if bytes > MAX_EVENT_BYTES then g.(subscribers := {})
    else
      var numbered := ReplayEvent(bytes, event, g.nextEventId);
      var replay := Evict(g.replay + [numbered]);
      g.(replay := replay, replayBytes := Total(replay), nextEventId := g.nextEventId + 1,
         sent := Written(g.sent, g.subscribers, EventFrame(numbered)),
         subscribers := g.subscribers - slow, accepted := g.accepted + [numbered])
  }

  function FirstAvailable(g: Gateway): nat {
    if g.replay == [] then g.nextEventId else g.replay[0].id
  }

  predicate NeedsReset(g: Gateway, cursor: Option<nat>) {
    cursor.None? || (cursor.value > 0 && cursor.value < FirstAvailable(g) - 1)
  }

  function After(events: seq<ReplayEvent>, cursor: nat): seq<Frame> {
    if events == [] then []
    else (if events[0].id > cursor then [EventFrame(events[0])] else []) + After(events[1..], cursor)
  }

  lemma AfterNext(events: seq<ReplayEvent>, i: nat, cursor: nat)
    requires i < |events|
    ensures After(events[i..], cursor)
         == (if events[i].id > cursor then [EventFrame(events[i])] else []) + After(events[i + 1..], cursor)
  {
    DropDrop(events, i, 1);
  }

  /** What a new subscription is sent at once. */
  function Opening(g: Gateway, cursor: Option<nat>): seq<Frame>
  {
    if NeedsReset(g, cursor) then [ResetFrame(g.nextEventId - 1)] else After(g.replay, cursor.value)
  }

  /** No cursor, the identifier of an event, or the 0 of a reset before any event as long as nothing has been
      evicted. */
  predicate RegularCursor(g: Gateway, cursor: Option<nat>) {
    cursor.None? || 1 <= cursor.value < g.nextEventId || (cursor.value == 0 && g.replay == g.accepted)
  }

  /** Refuses the fifth subscriber; `r` is a response not seen before. */
  function Subscribe(g: Gateway, r: nat, cursor: Option<nat>): Option<Gateway>
  {
    if |g.subscribers| >= MAX_SUBSCRIBERS then None
    else
      Some(g.(sent := g.sent[r := Opening(g, cursor)], subscribers := g.subscribers + {r},
              since := if !RegularCursor(g, cursor) then g.since - {r}
                       else g.since[r := if NeedsReset(g, cursor) then g.nextEventId - 1 else cursor.value]))
  }

  function Drop(g: Gateway, r: nat): Gateway {
    g.(subscribers := g.subscribers - {r})
  }

  // ---------------------------------------------------------------- the buffer is the longest suffix that fits

  ghost predicate TooBig(events: seq<ReplayEvent>, k: nat)
    requires k <= |events|
  {
    Total(events[k..]) > MAX_REPLAY_BYTES
  }

  /** `replay` is the longest suffix of `accepted` that fits the byte limit. */
  ghost predicate LongestFittingSuffix(replay: seq<ReplayEvent>, accepted: seq<ReplayEvent>) {
    && |replay| <= |accepted|
    && replay == accepted[|accepted| - |replay|..]
    && Total(replay) <= MAX_REPLAY_BYTES
    && forall k | 0 <= k < |accepted| - |replay| :: TooBig(accepted, k)
  }

  ghost predicate Numbered(accepted: seq<ReplayEvent>) {
    forall i | 0 <= i < |accepted| :: accepted[i].id == i + 1 && accepted[i].bytes <= MAX_EVENT_BYTES
  }

  ghost predicate BufferInv(g: Gateway) {
    && LongestFittingSuffix(g.replay, g.accepted)
    && g.replayBytes == Total(g.replay)
    && g.nextEventId == |g.accepted| + 1
    && Numbered(g.accepted)
  }

  lemma {:induction false} TotalAppend(events: seq<ReplayEvent>, e: ReplayEvent)
    ensures Total(events + [e]) == Total(events) + e.bytes
    decreases |events|
  {
    if events != [] {
      assert (events + [e])[1..] == events[1..] + [e];
      TotalAppend(events[1..], e);
    } else {
      assert [e][1..] == [];
    }
  }

  lemma {:induction false} EvictKeepsLongestSuffix(events: seq<ReplayEvent>)
    ensures LongestFittingSuffix(Evict(events), events)
    decreases |events|
  {
    assert events[0..] == events;
    if Total(events) > MAX_REPLAY_BYTES && |events| > 0 {
      var kept := Evict(events);
      EvictKeepsLongestSuffix(events[1..]);
      assert events[1..][|events| - 1 - |kept|..] == events[|events| - |kept|..];
      forall k | 0 <= k < |events| - |kept| ensures TooBig(events, k) {
        if k > 0 {
          assert events[k..] == events[1..][k - 1..];
          assert TooBig(events[1..], k - 1);
        }
      }
    }
  }

  lemma OldSuffix(accepted: seq<ReplayEvent>, e: ReplayEvent, k: nat)
    requires k <= |accepted| && TooBig(accepted, k)
    ensures TooBig(accepted + [e], k)
  {
    DropAppend(accepted, e, k);
    TotalAppend(accepted[k..], e);
  }

  lemma NewSuffix(replay: seq<ReplayEvent>, accepted: seq<ReplayEvent>, e: ReplayEvent, evicted: nat, k: nat)
    requires evicted <= |accepted| && replay == accepted[evicted..] && k <= |replay| + 1
    ensures (accepted + [e])[evicted + k..] == (replay + [e])[k..]
  {
    DropAppend(accepted, e, evicted);
    DropDrop(accepted + [e], evicted, k);
  }

  lemma SuffixSurvivesAppend(replay: seq<ReplayEvent>, accepted: seq<ReplayEvent>, e: ReplayEvent)
    requires LongestFittingSuffix(replay, accepted)
    ensures LongestFittingSuffix(Evict(replay + [e]), accepted + [e])
  {
    var kept, evicted := Evict(replay + [e]), |accepted| - |replay|;
    EvictKeepsLongestSuffix(replay + [e]);
    NewSuffix(replay, accepted, e, evicted, |replay| + 1 - |kept|);
    forall k | 0 <= k < |accepted| + 1 - |kept| ensures TooBig(accepted + [e], k) {
      if k < evicted {
        OldSuffix(accepted, e, k);
      } else {
        NewSuffix(replay, accepted, e, evicted, k - evicted);
        assert TooBig(replay + [e], k - evicted);
      }
    }
  }

  lemma PublishKeepsBuffer(g: Gateway, event: string, bytes: nat, slow: set<nat>)
    requires BufferInv(g)
    ensures BufferInv(Publish(g, event, bytes, slow))
  {
    SuffixSurvivesAppend(g.replay, g.accepted, ReplayEvent(bytes, event, g.nextEventId));
  }

  // ---------------------------------------------------------------- resuming from a cursor

  function Frames(events: seq<ReplayEvent>): seq<Frame> {
    seq(|events|, i requires 0 <= i < |events| => EventFrame(events[i]))
  }

  lemma {:induction false} AfterIsSuffix(events: seq<ReplayEvent>, first: nat, cursor: nat)
    requires forall i | 0 <= i < |events| :: events[i].id == first + i
    ensures After(events, cursor) == Frames(
              if cursor < first then events else if cursor < first + |events| then events[cursor + 1 - first..] else [])
    decreases |events|
  {
    if events != [] {
      AfterIsSuffix(events[1..], first + 1, cursor);
      if cursor < first {
        assert Frames(events) == [EventFrame(events[0])] + Frames(events[1..]);
      } else if cursor < first + |events| {
        assert cursor > first ==> events[1..][cursor - first..] == events[cursor + 1 - first..];
        assert cursor == first ==> events[cursor + 1 - first..] == events[1..];
      }
    }
  }

  /** The accepted events after a cursor. */
  function AcceptedAfter(g: Gateway, cursor: nat): seq<ReplayEvent> {
    if cursor <= |g.accepted| then g.accepted[cursor..] else []
  }

  /** A subscription is sent either a reset or exactly the accepted events after its cursor, with no gap and no repeat,
      unless it resumes from 0 after something was evicted. */
  lemma ResumeIsExact(g: Gateway, cursor: nat)
    requires BufferInv(g)
    ensures (NeedsReset(g, Some(cursor)) || Opening(g, Some(cursor)) == Frames(AcceptedAfter(g, cursor)))
            <==> cursor > 0 || g.replay == g.accepted
    ensures NeedsReset(g, Some(cursor)) <==> 0 < cursor < |g.accepted| - |g.replay|
  {
    var evicted := |g.accepted| - |g.replay|;
    AfterIsSuffix(g.replay, evicted + 1, cursor);
    if !NeedsReset(g, Some(cursor)) {
      if cursor <= evicted {
        assert Opening(g, Some(cursor)) == Frames(g.replay);
        if cursor == evicted { assert g.accepted[cursor..] == g.replay; }
      } else if cursor <= |g.accepted| {
        assert g.replay[cursor - evicted..] == g.accepted[cursor..];
      }
    }
    if cursor == 0 && g.replay != g.accepted {
      assert evicted > 0;
      assert |Frames(g.accepted)| != |Frames(g.replay)|;
      assert AcceptedAfter(g, 0) == g.accepted;
    }
    assert g.replay == g.accepted ==> evicted == 0;
    assert evicted == 0 ==> g.accepted[0..] == g.accepted;
  }

  // ---------------------------------------------------------------- whole runs

  datatype Step =
    | DoPublish(event: string, bytes: nat, slow: set<nat>)
    | DoSubscribe(r: nat, cursor: Option<nat>)
    | DoDrop(gone: nat)

  function Next(g: Gateway, step: Step): Gateway
  {
    match step
    case DoPublish(event, bytes, slow) => Publish(g, event, bytes, slow)
    case DoSubscribe(r, cursor) =>
      if r in g.sent || Subscribe(g, r, cursor).None? then g else Subscribe(g, r, cursor).value
    case DoDrop(r) => Drop(g, r)
  }

  function Run(g: Gateway, steps: seq<Step>): Gateway
    decreases |steps|
  {
    if steps == [] then g else Run(Next(g, steps[0]), steps[1..])
  }

  lemma NextKeepsBuffer(g: Gateway, step: Step)
    requires BufferInv(g)
    ensures BufferInv(Next(g, step))
  {
    if step.DoPublish? { PublishKeepsBuffer(g, step.event, step.bytes, step.slow); }
  }

  /** A regular subscription was sent, after an optional reset, exactly the events accepted since it began. */
  ghost predicate GapFree(frames: seq<Frame>, accepted: seq<ReplayEvent>, since: nat) {
    && since <= |accepted|
    && (frames == Frames(accepted[since..]) || frames == [ResetFrame(since)] + Frames(accepted[since..]))
  }

  ghost predicate StreamInv(g: Gateway) {
    && g.subscribers <= g.sent.Keys
    && forall r | r in g.subscribers && r in g.since :: GapFree(SentTo(g.sent, r), g.accepted, g.since[r])
  }

  lemma GapFreeGrows(frames: seq<Frame>, accepted: seq<ReplayEvent>, since: nat, e: ReplayEvent)
    requires GapFree(frames, accepted, since)
    ensures GapFree(frames + [EventFrame(e)], accepted + [e], since)
  {
    assert (accepted + [e])[since..] == accepted[since..] + [e];
    assert Frames(accepted[since..] + [e]) == Frames(accepted[since..]) + [EventFrame(e)];
    assert [ResetFrame(since)] + (Frames(accepted[since..]) + [EventFrame(e)])
        == [ResetFrame(since)] + Frames(accepted[since..]) + [EventFrame(e)];
  }

  lemma PublishKeepsStream(g: Gateway, event: string, bytes: nat, slow: set<nat>)
    requires StreamInv(g)
    ensures StreamInv(Publish(g, event, bytes, slow))
  {
    if bytes <= MAX_EVENT_BYTES {
      var after := Publish(g, event, bytes, slow);
      var numbered := ReplayEvent(bytes, event, g.nextEventId);
      forall r | r in after.subscribers && r in after.since
        ensures GapFree(SentTo(after.sent, r), after.accepted, after.since[r])
      {
        GapFreeGrows(SentTo(g.sent, r), g.accepted, g.since[r], numbered);
      }
    }
  }

  lemma OpeningIsGapFree(g: Gateway, cursor: Option<nat>)
    requires BufferInv(g) && RegularCursor(g, cursor)
    ensures GapFree(Opening(g, cursor), g.accepted, if NeedsReset(g, cursor) then g.nextEventId - 1 else cursor.value)
  {
    if NeedsReset(g, cursor) {
      assert g.accepted[|g.accepted|..] == [] && Frames([]) == [];
      AppendEmpty([ResetFrame(|g.accepted|)]);
    } else {
      ResumeIsExact(g, cursor.value);
    }
  }

  lemma SubscribeKeepsStream(g: Gateway, r: nat, cursor: Option<nat>)
    requires BufferInv(g) && StreamInv(g) && Subscribe(g, r, cursor).Some?
    ensures StreamInv(Subscribe(g, r, cursor).value)
  {
    var after := Subscribe(g, r, cursor).value;
    if RegularCursor(g, cursor) {
      OpeningIsGapFree(g, cursor);
    }
    forall s | s in after.subscribers && s in after.since
      ensures GapFree(SentTo(after.sent, s), after.accepted, after.since[s])
    {
      assert s != r ==> s in g.subscribers && SentTo(after.sent, s) == SentTo(g.sent, s);
    }
  }

  lemma NextKeepsStream(g: Gateway, step: Step)
    requires BufferInv(g) && StreamInv(g)
    ensures StreamInv(Next(g, step))
  {
    match step
    case DoPublish(event, bytes, slow) => PublishKeepsStream(g, event, bytes, slow);
    case DoSubscribe(r, cursor) =>
      if Subscribe(g, r, cursor).Some? { SubscribeKeepsStream(g, r, cursor); }
    case DoDrop(r) =>
  }

  lemma {:induction false} RunKeepsStream(g: Gateway, steps: seq<Step>)
    requires BufferInv(g) && StreamInv(g)
    ensures BufferInv(Run(g, steps)) && StreamInv(Run(g, steps))
    decreases |steps|
  {
    if steps != [] {
      NextKeepsBuffer(g, steps[0]);
      NextKeepsStream(g, steps[0]);
      RunKeepsStream(Next(g, steps[0]), steps[1..]);
    }
  }

  lemma InitialGatewayInv()
    ensures BufferInv(INITIAL_GATEWAY) && StreamInv(INITIAL_GATEWAY)
  {
    assert INITIAL_GATEWAY.replay == [] && INITIAL_GATEWAY.accepted == [] && INITIAL_GATEWAY.subscribers == {};
    assert Total([]) == 0;
  }

  /** Over every run, an open subscription that began without a cursor, with the identifier of an event, or from 0
      while nothing had been evicted, has been sent every event accepted since then exactly once and in order. */
  lemma StreamsHaveNoGaps(steps: seq<Step>, r: nat)
    requires var g := Run(INITIAL_GATEWAY, steps); r in g.subscribers && r in g.since
    ensures var g := Run(INITIAL_GATEWAY, steps);
            GapFree(SentTo(g.sent, r), g.accepted, g.since[r]) && Numbered(g.accepted)
  {
    InitialGatewayInv();
    RunKeepsStream(INITIAL_GATEWAY, steps);
  }

  // ---------------------------------------------------------------- the cursor 0

  function BigEvents(n: nat): seq<Step> {
    seq(n, i => DoPublish("", MAX_EVENT_BYTES, {}))
  }

  lemma {:induction false} BigEventsAreAccepted(g: Gateway, n: nat)
    ensures var end := Run(g, BigEvents(n));
            |end.accepted| == |g.accepted| + n && Total(end.accepted) == Total(g.accepted) + n * MAX_EVENT_BYTES
    decreases n
  {
    if n > 0 {
      var steps := BigEvents(n);
      var next := Publish(g, "", MAX_EVENT_BYTES, {});
      assert steps[1..] == BigEvents(n - 1);
      TotalAppend(g.accepted, ReplayEvent(MAX_EVENT_BYTES, "", g.nextEventId));
      BigEventsAreAccepted(next, n - 1);
      assert Run(g, steps) == Run(next, BigEvents(n - 1));
    }
  }

  /** A client that subscribes before the first event is reset under identifier 0. After 27 large events that cursor
      is neither reset nor replayed in full: the first events are lost without notice. */
  lemma CursorZeroLosesEvents()
    ensures var g := Run(INITIAL_GATEWAY, BigEvents(27));
            && Opening(INITIAL_GATEWAY, None) == [ResetFrame(0)]
            && BufferInv(g) && !NeedsReset(g, Some(0)) && Opening(g, Some(0)) != Frames(AcceptedAfter(g, 0))
  {
    InitialGatewayInv();
    RunKeepsStream(INITIAL_GATEWAY, BigEvents(27));
    BigEventsAreAccepted(INITIAL_GATEWAY, 27);
    var g := Run(INITIAL_GATEWAY, BigEvents(27));
    ResumeIsExact(g, 0);
  }
}
