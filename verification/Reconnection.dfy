/** One browser's event source against the gateway: it reads what it is sent, may stop reading or lose its response at
    any moment, and resumes at the last identifier it read. */
module Reconnection {
  import opened Wrappers
  import opened Bytes
  import opened StreamWire
  import opened ClientRules
  import G = GatewayRules
  import P = ProjectorRules
  import R = ProjectorRuns
  import EndToEnd

  /** What an event of the gateway carries: the host's state, the event at some place of one projector's log, or an
      event of another turn. */
  datatype Carried = Status(snapshot: Snapshot) | OfLog(i: nat) | OfOtherTurn(event: StreamEvent)

  /** `carried` is what each accepted event carries and `emitted` how much of the log has been published. The source has
      read `read` frames of its current response; `last` is the last identifier it read on any response, and `opening`
      the snapshot of the current response's reset. */
  datatype Link = Link(
    gateway: G.Gateway,
    carried: seq<Carried>,
    emitted: nat,
    response: Option<nat>,
    opening: Snapshot,
    read: nat,
    last: Option<nat>,
    deliveries: seq<Delivery>)

  function InitialLink(snapshot: Snapshot): Link {
    Link(G.INITIAL_GATEWAY, [], 0, None, snapshot, 0, None, [])
  }

  datatype Step =
    | Emits(text: string, bytes: nat, slow: set<nat>)
    | Announces(what: Carried, text: string, bytes: nat, slow: set<nat>)
    | OtherSubscribes(r: nat, cursor: Option<nat>)
    | Drops(gone: nat)
    | Connects(r: nat, snapshot: Snapshot)
    | Reads
    | Fetches(snapshot: Snapshot)

  function FrameId(frame: G.Frame): nat {
    if frame.EventFrame? then frame.event.id else frame.id
  }

  /** The last identifier that was read, or 0. */
  function Position(l: Link): nat {
    if l.last.Some? then l.last.value else 0
  }

  function Unread(l: Link): seq<G.Frame> {
    if l.response.Some? && l.read <= |G.SentTo(l.gateway.sent, l.response.value)|
    then G.SentTo(l.gateway.sent, l.response.value)[l.read..]
    else []
  }

  function Publish(l: Link, what: Carried, text: string, bytes: nat, slow: set<nat>): Link {
    l.(gateway := G.Publish(l.gateway, text, bytes, slow),
       carried := if bytes > G.MAX_EVENT_BYTES then l.carried else l.carried + [what])
  }

  function Content(what: Carried): Delivery {
    match what
    case Status(snapshot) => NewSnapshot(snapshot)
    case OfLog(i) => EventAt(i)
    case OfOtherTurn(event) => OtherTurn(event)
  }

  function Deliver(l: Link, frame: G.Frame): Delivery {
    if frame.ResetFrame? || frame.event.id > |l.carried| then NewSnapshot(l.opening)
    else Content(l.carried[frame.event.id - 1])
  }

  function Next(l: Link, step: Step): Link {
    match step
    case Emits(text, bytes, slow) => Publish(l, OfLog(l.emitted), text, bytes, slow).(emitted := l.emitted + 1)
    case Announces(what, text, bytes, slow) => if what.OfLog? then l else Publish(l, what, text, bytes, slow)
    case OtherSubscribes(r, cursor) => l.(gateway := G.Next(l.gateway, G.DoSubscribe(r, cursor)))
    case Drops(gone) => l.(gateway := G.Drop(l.gateway, gone))
    case Connects(r, snapshot) =>
      if r in l.gateway.sent || G.Subscribe(l.gateway, r, l.last).None? then l.(response := None)
      else
        l.(gateway := G.Subscribe(l.gateway, r, l.last).value, response := Some(r), opening := snapshot, read := 0)
    case Reads =>
      if Unread(l) == [] then l
      else
        l.(read := l.read + 1, last := Some(FrameId(Unread(l)[0])),
           deliveries := l.deliveries + [Deliver(l, Unread(l)[0])])
    case Fetches(snapshot) => l.(deliveries := l.deliveries + [NewSnapshot(snapshot)])
  }

  function Run(l: Link, steps: seq<Step>): Link
    decreases |steps|
  {
    if steps == [] then l else Run(Next(l, steps[0]), steps[1..])
  }

  // ---------------------------------------------------------------- identifiers only go up

  /** Frames still to be read: identifiers rise from one to the next, and only a reset may repeat the one before. */
  predicate Rising(frames: seq<G.Frame>, from: nat, newest: nat) {
    frames != [] ==>
      && from <= FrameId(frames[0]) <= newest && (frames[0].EventFrame? ==> from < FrameId(frames[0]))
      && Rising(frames[1..], FrameId(frames[0]), newest)
  }

  lemma {:induction false} RisingAppend(frames: seq<G.Frame>, from: nat, newest: nat, frame: G.Frame)
    requires Rising(frames, from, newest) && from <= newest && frame.EventFrame? && FrameId(frame) == newest + 1
    ensures Rising(frames + [frame], from, newest + 1)
  {
    if frames == [] {
      assert frames + [frame] == [frame] && [frame][1..] == [];
    } else {
      RisingAppend(frames[1..], FrameId(frames[0]), newest, frame);
      assert (frames + [frame])[1..] == frames[1..] + [frame];
    }
  }

  lemma {:induction false} AfterRises(events: seq<G.ReplayEvent>, first: nat, cursor: nat, from: nat, newest: nat)
    requires forall i | 0 <= i < |events| :: events[i].id == first + i
    requires (from < first || from <= cursor) && first + |events| <= newest + 1
    ensures Rising(G.After(events, cursor), from, newest)
    decreases |events|
  {
    if events != [] {
      AfterRises(events[1..], first + 1, cursor, if first > cursor then first else from, newest);
      var rest := G.After(events[1..], cursor);
      assert ([G.EventFrame(events[0])] + rest)[1..] == rest && [] + rest == rest;
    }
  }

  /** Whatever the cursor, the explicit 0 included, a new subscription is sent identifiers that rise from it. */
  lemma OpeningRises(g: G.Gateway, cursor: Option<nat>)
    requires G.BufferInv(g) && (cursor.Some? ==> cursor.value <= |g.accepted|)
    ensures Rising(G.Opening(g, cursor), if cursor.Some? then cursor.value else 0, |g.accepted|)
  {
    if G.NeedsReset(g, cursor) {
      assert G.Opening(g, cursor)[1..] == [];
    } else {
      var evicted := |g.accepted| - |g.replay|;
      AfterRises(g.replay, evicted + 1, cursor.value, cursor.value, |g.accepted|);
    }
  }

  // ---------------------------------------------------------------- places in the log only go up

  /** Places of the log appear in rising order, all of them below `next`. */
  predicate Places(carried: seq<Carried>, next: nat) {
    && (forall i, j | 0 <= i < j < |carried| && carried[i].OfLog? && carried[j].OfLog? :: carried[i].i < carried[j].i)
    && (forall i | 0 <= i < |carried| && carried[i].OfLog? :: carried[i].i < next)
  }

  predicate Ascending(ds: seq<Delivery>) {
    forall i, j | 0 <= i < j < |ds| && ds[i].EventAt? && ds[j].EventAt? :: ds[i].i < ds[j].i
  }

  /** What has been delivered was carried by the events up to `position`. */
  predicate Behind(ds: seq<Delivery>, carried: seq<Carried>, position: nat)
    requires position <= |carried|
  {
    && (forall i | 0 <= i < |ds| && ds[i].EventAt? :: OfLog(ds[i].i) in carried[..position])
    && (forall i | 0 <= i < |ds| && ds[i].OtherTurn? :: OfOtherTurn(ds[i].event) in carried[..position])
  }

  predicate Delivered(carried: seq<Carried>, emitted: nat, position: nat, ds: seq<Delivery>) {
    position <= |carried| && Places(carried, emitted) && Ascending(ds) && Behind(ds, carried, position)
  }

  predicate Inv(l: Link) {
    && |l.carried| == |l.gateway.accepted|
    && (l.response.Some? ==> l.response.value in l.gateway.sent)
    && Delivered(l.carried, l.emitted, Position(l), l.deliveries)
    && Rising(Unread(l), Position(l), |l.carried|)
  }

  lemma DeliveredLater(carried: seq<Carried>, emitted: nat, position: nat, ds: seq<Delivery>, what: Carried, later: nat)
    requires Delivered(carried, emitted, position, ds) && emitted <= later
    requires what.OfLog? ==> emitted <= what.i < later
    ensures Delivered(carried, later, position, ds) && Delivered(carried + [what], later, position, ds)
  {
    assert (carried + [what])[..position] == carried[..position];
  }

  lemma PublishKeepsInv(l: Link, what: Carried, text: string, bytes: nat, slow: set<nat>, emitted: nat)
    requires G.BufferInv(l.gateway) && G.StreamInv(l.gateway) && Inv(l) && l.emitted <= emitted
    requires what.OfLog? ==> l.emitted <= what.i < emitted
    ensures Inv(Publish(l, what, text, bytes, slow).(emitted := emitted))
  {
    var after := Publish(l, what, text, bytes, slow);
    DeliveredLater(l.carried, l.emitted, Position(l), l.deliveries, what, emitted);
    if bytes <= G.MAX_EVENT_BYTES {
      var frame := G.EventFrame(G.ReplayEvent(bytes, text, l.gateway.nextEventId));
      RisingLater(Unread(l), Position(l), |l.carried|);
      RisingAppend(Unread(l), Position(l), |l.carried|, frame);
      UnreadAfterPublish(l, what, text, bytes, slow);
    } else {
      assert Unread(after) == Unread(l);
    }
  }

  lemma {:induction false} RisingLater(frames: seq<G.Frame>, from: nat, newest: nat)
    requires Rising(frames, from, newest)
    ensures Rising(frames, from, newest + 1)
  {
    if frames != [] {
      RisingLater(frames[1..], FrameId(frames[0]), newest);
    }
  }

  lemma UnreadAfterPublish(l: Link, what: Carried, text: string, bytes: nat, slow: set<nat>)
    requires bytes <= G.MAX_EVENT_BYTES
    ensures var frame := G.EventFrame(G.ReplayEvent(bytes, text, l.gateway.nextEventId));
            Unread(Publish(l, what, text, bytes, slow)) in {Unread(l), Unread(l) + [frame], []}
  {
    var frame := G.EventFrame(G.ReplayEvent(bytes, text, l.gateway.nextEventId));
    if l.response.Some? {
      var before := G.SentTo(l.gateway.sent, l.response.value);
      if l.read <= |before| {
        assert (before + [frame])[l.read..] == before[l.read..] + [frame];
      }
    }
  }

  /** A change of the gateway that this source does not notice. */
  lemma SameUnread(l: Link, g: G.Gateway)
    requires Inv(l) && g.accepted == l.gateway.accepted
    requires l.response.Some? ==>
               && l.response.value in g.sent
               && G.SentTo(g.sent, l.response.value) == G.SentTo(l.gateway.sent, l.response.value)
    ensures Inv(l.(gateway := g))
  {
    assert Unread(l.(gateway := g)) == Unread(l);
  }

  lemma OtherSubscriberKeepsInv(l: Link, r: nat, cursor: Option<nat>)
    requires Inv(l)
    ensures Inv(Next(l, OtherSubscribes(r, cursor)))
  {
    var g := G.Next(l.gateway, G.DoSubscribe(r, cursor));
    assert l.response.Some? ==> G.SentTo(g.sent, l.response.value) == G.SentTo(l.gateway.sent, l.response.value);
    SameUnread(l, g);
  }

  lemma UnreadAfterConnect(l: Link, r: nat, snapshot: Snapshot)
    requires r !in l.gateway.sent && G.Subscribe(l.gateway, r, l.last).Some?
    ensures Unread(Next(l, Connects(r, snapshot))) == G.Opening(l.gateway, l.last)
  {
    var opening := G.Opening(l.gateway, l.last);
    assert opening[0..] == opening;
  }

  lemma ConnectKeepsInv(l: Link, r: nat, snapshot: Snapshot)
    requires G.BufferInv(l.gateway) && Inv(l)
    ensures Inv(Next(l, Connects(r, snapshot)))
  {
    if r !in l.gateway.sent && G.Subscribe(l.gateway, r, l.last).Some? {
      OpeningRises(l.gateway, l.last);
      UnreadAfterConnect(l, r, snapshot);
    }
  }

  /** What is read next was carried by an event after all that was read before. */
  lemma NextPlace(carried: seq<Carried>, next: nat, ds: seq<Delivery>, position: nat, id: nat)
    requires Places(carried, next) && position < id <= |carried| && Ascending(ds) && Behind(ds, carried, position)
    ensures var d := Content(carried[id - 1]); Ascending(ds + [d]) && Behind(ds + [d], carried, id)
  {
    BehindLater(ds, carried, position, id);
    assert carried[..id][id - 1] == carried[id - 1];
    forall j | 0 <= j < |ds| && ds[j].EventAt? && carried[id - 1].OfLog? ensures ds[j].i < carried[id - 1].i {
      var k :| 0 <= k < position && carried[..position][k] == OfLog(ds[j].i);
      assert carried[k] == OfLog(ds[j].i);
    }
  }

  lemma BehindLater(ds: seq<Delivery>, carried: seq<Carried>, position: nat, later: nat)
    requires position <= later <= |carried| && Behind(ds, carried, position)
    ensures Behind(ds, carried, later)
  {
    forall x | x in carried[..position] ensures x in carried[..later] {
      var k :| 0 <= k < position && carried[..position][k] == x;
      assert carried[..later][k] == x;
    }
  }

  lemma ReadKeepsInv(l: Link)
    requires Inv(l)
    ensures Inv(Next(l, Reads))
  {
    if Unread(l) != [] {
      var frame, after := Unread(l)[0], Next(l, Reads);
      assert Unread(after) == Unread(l)[1..];
      if frame.EventFrame? {
        NextPlace(l.carried, l.emitted, l.deliveries, Position(l), FrameId(frame));
      } else {
        BehindLater(l.deliveries, l.carried, Position(l), FrameId(frame));
      }
    }
  }

  lemma NextKeepsInv(l: Link, step: Step)
    requires G.BufferInv(l.gateway) && G.StreamInv(l.gateway) && Inv(l)
    ensures Inv(Next(l, step))
  {
    match step
    case Emits(text, bytes, slow) => PublishKeepsInv(l, OfLog(l.emitted), text, bytes, slow, l.emitted + 1);
    case Announces(what, text, bytes, slow) =>
      if !what.OfLog? {
        PublishKeepsInv(l, what, text, bytes, slow, l.emitted);
        assert Publish(l, what, text, bytes, slow).(emitted := l.emitted) == Publish(l, what, text, bytes, slow);
      }
    case OtherSubscribes(r, cursor) => OtherSubscriberKeepsInv(l, r, cursor);
    case Drops(gone) => SameUnread(l, G.Drop(l.gateway, gone));
    case Connects(r, snapshot) => ConnectKeepsInv(l, r, snapshot);
    case Reads => ReadKeepsInv(l);
    case Fetches(snapshot) => assert Unread(Next(l, step)) == Unread(l);
  }

  lemma NextKeepsGateway(l: Link, step: Step)
    requires G.BufferInv(l.gateway) && G.StreamInv(l.gateway)
    ensures G.BufferInv(Next(l, step).gateway) && G.StreamInv(Next(l, step).gateway)
  {
    match step
    case Emits(text, bytes, slow) =>
      G.NextKeepsBuffer(l.gateway, G.DoPublish(text, bytes, slow));
      G.NextKeepsStream(l.gateway, G.DoPublish(text, bytes, slow));
    case Announces(what, text, bytes, slow) =>
      G.NextKeepsBuffer(l.gateway, G.DoPublish(text, bytes, slow));
      G.NextKeepsStream(l.gateway, G.DoPublish(text, bytes, slow));
    case OtherSubscribes(r, cursor) =>
      G.NextKeepsBuffer(l.gateway, G.DoSubscribe(r, cursor));
      G.NextKeepsStream(l.gateway, G.DoSubscribe(r, cursor));
    case Drops(gone) =>
    case Connects(r, snapshot) =>
      G.NextKeepsBuffer(l.gateway, G.DoSubscribe(r, l.last));
      G.NextKeepsStream(l.gateway, G.DoSubscribe(r, l.last));
    case Reads =>
    case Fetches(snapshot) =>
  }

  lemma {:induction false} RunKeepsInv(l: Link, steps: seq<Step>)
    requires G.BufferInv(l.gateway) && G.StreamInv(l.gateway) && Inv(l)
    ensures Inv(Run(l, steps))
    decreases |steps|
  {
    if steps != [] {
      NextKeepsGateway(l, steps[0]);
      NextKeepsInv(l, steps[0]);
      RunKeepsInv(Next(l, steps[0]), steps[1..]);
    }
  }

  lemma InitialInv(snapshot: Snapshot)
    ensures G.BufferInv(InitialLink(snapshot).gateway) && G.StreamInv(InitialLink(snapshot).gateway)
    ensures Inv(InitialLink(snapshot))
  {
    G.InitialGatewayInv();
  }

  // ---------------------------------------------------------------- what a browser receives

  lemma {:induction false} AscendingIsInOrder(log: seq<StreamEvent>, ds: seq<Delivery>, from: nat)
    requires Ascending(ds) && forall i | 0 <= i < |ds| && ds[i].EventAt? :: from <= ds[i].i < |log|
    ensures InOrder(log, ds, from)
    decreases |ds|
  {
    if ds != [] {
      var rest := ds[1..];
      forall i | 0 <= i < |rest| ensures rest[i] == ds[i + 1] {
      }
      AscendingIsInOrder(log, rest, if ds[0].EventAt? then ds[0].i + 1 else from);
    }
  }

  /** The events that are published for other turns carry other identifiers. */
  predicate OthersAreOthers(steps: seq<Step>, turnId: string) {
    forall i | 0 <= i < |steps| ::
        steps[i].Announces? && steps[i].what.OfOtherTurn? ==> steps[i].what.event.turnId != turnId
  }

  predicate CarriesOthers(l: Link, turnId: string) {
    forall i | 0 <= i < |l.carried| :: l.carried[i].OfOtherTurn? ==> l.carried[i].event.turnId != turnId
  }

  lemma NextCarriesOthers(l: Link, step: Step, turnId: string)
    requires CarriesOthers(l, turnId)
    requires step.Announces? && step.what.OfOtherTurn? ==> step.what.event.turnId != turnId
    ensures CarriesOthers(Next(l, step), turnId)
  {
    if step.Emits? || step.Announces? {
      var after := Next(l, step).carried;
      forall i | 0 <= i < |after| && after[i].OfOtherTurn? ensures after[i].event.turnId != turnId {
        assert i < |l.carried| ==> after[i] == l.carried[i];
      }
    }
  }

  lemma {:induction false} RunCarriesOthers(l: Link, steps: seq<Step>, turnId: string)
    requires CarriesOthers(l, turnId) && OthersAreOthers(steps, turnId)
    ensures CarriesOthers(Run(l, steps), turnId)
    decreases |steps|
  {
    if steps != [] {
      NextCarriesOthers(l, steps[0], turnId);
      forall i | 0 <= i < |steps[1..]| ensures steps[1..][i] == steps[i + 1] {
      }
      RunCarriesOthers(Next(l, steps[0]), steps[1..], turnId);
    }
  }

  /** Over every run of the gateway, the other subscribers and this one, however often it loses its response and
      whatever it was sent and did not read, the log's events reach it in order and none twice. */
  lemma ReconnectionKeepsOrder(snapshot: Snapshot, steps: seq<Step>, log: seq<StreamEvent>, turnId: string)
    requires Run(InitialLink(snapshot), steps).emitted <= |log| && OthersAreOthers(steps, turnId)
    ensures InOrder(log, Run(InitialLink(snapshot), steps).deliveries, 0)
    ensures OtherTurns(Run(InitialLink(snapshot), steps).deliveries, turnId)
  {
    var l := Run(InitialLink(snapshot), steps);
    InitialInv(snapshot);
    RunKeepsInv(InitialLink(snapshot), steps);
    RunCarriesOthers(InitialLink(snapshot), steps, turnId);
    var seen := l.carried[..Position(l)];
    forall i | 0 <= i < |l.deliveries| && l.deliveries[i].EventAt? ensures l.deliveries[i].i < |log| {
      var k :| 0 <= k < |seen| && seen[k] == OfLog(l.deliveries[i].i);
      assert l.carried[k] == seen[k];
    }
    forall i | 0 <= i < |l.deliveries| && l.deliveries[i].OtherTurn? ensures l.deliveries[i].event.turnId != turnId {
      var k :| 0 <= k < |seen| && seen[k] == OfOtherTurn(l.deliveries[i].event);
      assert l.carried[k] == seen[k];
    }
    AscendingIsInOrder(log, l.deliveries, 0);
  }

  /** Content safety through the gateway: what a projector emits is published in order among other events, and a browser
      that had not seen the turn reads it over any number of connections. It never holds or shows bytes that are not the
      message's own, and calls a message complete only with all of them. */
  lemma ContentSafetyOverGateway(sha: seq<byte> -> string, checks: Checks, b: P.Binding, ops: seq<P.Op>, c: Client,
          snapshot: Snapshot, steps: seq<Step>)
    requires R.HexDigests(sha) && P.ValidBinding(b) && EndToEnd.Unseen(c, b.turnId) && OthersAreOthers(steps, b.turnId)
    requires Run(InitialLink(snapshot), steps).emitted <= |P.Run(sha, P.Initial(b), ops).events|
    ensures var log, ds := P.Run(sha, P.Initial(b), ops).events, Run(InitialLink(snapshot), steps).deliveries;
            InOrder(log, ds, 0) && EndToEnd.Safe(log, ReceiveAll(checks, log, c, ds, 0), b.turnId)
  {
    var log, ds := P.Run(sha, P.Initial(b), ops).events, Run(InitialLink(snapshot), steps).deliveries;
    ReconnectionKeepsOrder(snapshot, steps, log, b.turnId);
    EndToEnd.ContentSafety(sha, checks, b, ops, c, ds);
  }
}
