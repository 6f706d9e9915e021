/** A browser that loses its connection loses nothing, as long as the gateway still holds what it has not read: then
    every message of a finished turn is shown complete over any number of connections. */
module GaplessDelivery {
  import opened Wrappers
  import opened Bytes
  import opened Sequences
  import opened StreamWire
  import opened ClientRules
  import opened LosslessDelivery
  import opened Reconnection
  import G = GatewayRules
  import EndToEnd
  import P = ProjectorRules
  import R = ProjectorRuns

  /** The session and the turn that the browser is looking at. */
  datatype View = View(sessionId: string, turnId: string)

  predicate Watches(s: Snapshot, v: View) {
    s.sessionId == Some(v.sessionId) && s.turn == Some(TurnView(v.turnId, true))
  }

  predicate NoLogIn(carried: seq<Carried>, from: nat, end: nat) {
    forall k | from <= k < end && k < |carried| :: !carried[k].OfLog?
  }

  /** The place after which a new connection is sent everything: the end, if it is sent a reset, and otherwise the last
      identifier read, or the last that was evicted if that is later. */
  function ResumePlace(l: Link): nat
    requires |l.gateway.replay| <= |l.gateway.accepted|
  {
    var evicted := |l.gateway.accepted| - |l.gateway.replay|;
    if G.NeedsReset(l.gateway, l.last) then |l.gateway.accepted|
    else if Position(l) < evicted then evicted
    else Position(l)
  }

  /** A step that loses nothing of the log: events of the log are not too large, a new connection resumes before any of
      them that was not read, and snapshots stay with the turn. */
  predicate LosesNothing(l: Link, step: Step, v: View)
    requires |l.gateway.replay| <= |l.gateway.accepted|
  {
    match step
    case Emits(_, bytes, _) => bytes <= 81920
    case Announces(what, _, _, _) => CarriesTurn(what, v)
    case Connects(_, snapshot) => Watches(snapshot, v) && NoLogIn(l.carried, Position(l), ResumePlace(l))
    case Fetches(snapshot) => Watches(snapshot, v)
    case _ => true
  }

  predicate CarriesTurn(what: Carried, v: View) {
    (what.Status? ==> Watches(what.snapshot, v)) && (what.OfOtherTurn? ==> what.event.turnId != v.turnId)
  }

  predicate NeverLoses(l: Link, steps: seq<Step>, v: View)
    decreases |steps|
  {
    steps != [] ==>
      && |l.gateway.replay| <= |l.gateway.accepted| && LosesNothing(l, steps[0], v)
      && NeverLoses(Next(l, steps[0]), steps[1..], v)
  }

  // ---------------------------------------------------------------- what has been read and what is still unread

  /** How many events of the log were carried. */
  function LogCount(carried: seq<Carried>): nat {
    if carried == [] then 0
    else LogCount(carried[..|carried| - 1]) + if carried[|carried| - 1].OfLog? then 1 else 0
  }

  /** The events of the log were carried in its order, none left out. */
  predicate Dense(carried: seq<Carried>) {
    forall k | 0 <= k < |carried| && carried[k].OfLog? :: carried[k].i == LogCount(carried[..k])
  }

  /** Reading these frames from place `from` on passes over no event of the log. */
  predicate SkipsNone(frames: seq<G.Frame>, from: nat, carried: seq<Carried>) {
    frames != [] ==>
      var id := FrameId(frames[0]);
      && from <= id <= |carried| && (frames[0].EventFrame? ==> from < id)
      && NoLogIn(carried, from, if frames[0].EventFrame? then id - 1 else id)
      && SkipsNone(frames[1..], id, carried)
  }

  /** The place that reading these frames leads to. */
  function End(frames: seq<G.Frame>, from: nat): nat {
    if frames == [] then from else FrameId(frames[|frames| - 1])
  }

  predicate Open(l: Link) {
    l.response.Some? && l.response.value in l.gateway.subscribers
  }

  /** The log's first `count` events were delivered, each once and in order, and nothing that ends the turn. */
  predicate Delivers(ds: seq<Delivery>, count: nat, v: View)
    decreases |ds|
  {
    if ds == [] then count == 0
    else
      var before := ds[..|ds| - 1];
      match ds[|ds| - 1]
      case NewSnapshot(s) => Watches(s, v) && Delivers(before, count, v)
      case EventAt(i) => count == i + 1 && Delivers(before, i, v)
      case OtherTurn(event) => event.turnId != v.turnId && Delivers(before, count, v)
  }

  predicate Unbroken(l: Link, v: View) {
    && |l.carried| == |l.gateway.accepted| && Position(l) <= |l.carried|
    && Dense(l.carried) && LogCount(l.carried) == l.emitted
    && (l.response.Some? ==>
          l.response.value in l.gateway.sent && l.read <= |G.SentTo(l.gateway.sent, l.response.value)|)
    && SkipsNone(Unread(l), Position(l), l.carried)
    && (Open(l) ==> NoLogIn(l.carried, End(Unread(l), Position(l)), |l.carried|))
    && Watches(l.opening, v) && (forall k | 0 <= k < |l.carried| :: CarriesTurn(l.carried[k], v))
    && Delivers(l.deliveries, LogCount(l.carried[..Position(l)]), v)
  }

  lemma LogCountAppend(carried: seq<Carried>, what: Carried)
    ensures LogCount(carried + [what]) == LogCount(carried) + if what.OfLog? then 1 else 0
  {
    ButLast(carried, what);
  }

  lemma {:induction false} LogCountSame(carried: seq<Carried>, from: nat, end: nat)
    requires from <= end <= |carried| && NoLogIn(carried, from, end)
    ensures LogCount(carried[..end]) == LogCount(carried[..from])
    decreases end
  {
    if from < end {
      LogCountSame(carried, from, end - 1);
      TakeNext(carried, end - 1);
      LogCountAppend(carried[..end - 1], carried[end - 1]);
    }
  }

  lemma DenseAppend(carried: seq<Carried>, what: Carried)
    requires Dense(carried) && (what.OfLog? ==> what.i == LogCount(carried))
    ensures Dense(carried + [what])
  {
    var more := carried + [what];
    forall k | 0 <= k < |more| && more[k].OfLog? ensures more[k].i == LogCount(more[..k]) {
      assert more[..k] == if k < |carried| then carried[..k] else carried;
    }
  }

  lemma {:induction false} SkipsNoneLater(frames: seq<G.Frame>, from: nat, carried: seq<Carried>, what: Carried)
    requires SkipsNone(frames, from, carried)
    ensures SkipsNone(frames, from, carried + [what])
    decreases |frames|
  {
    if frames != [] {
      SkipsNoneLater(frames[1..], FrameId(frames[0]), carried, what);
    }
  }

  lemma {:induction false} SkipsNoneAppend(frames: seq<G.Frame>, from: nat, carried: seq<Carried>, what: Carried,
          frame: G.Frame)
    requires SkipsNone(frames, from, carried) && from <= |carried| && NoLogIn(carried, End(frames, from), |carried|)
    requires frame.EventFrame? && FrameId(frame) == |carried| + 1
    ensures SkipsNone(frames + [frame], from, carried + [what])
    ensures End(frames + [frame], from) == |carried| + 1
    decreases |frames|
  {
    if frames == [] {
      assert [] + [frame] == [frame] && [frame][1..] == [];
    } else {
      assert End(frames[1..], FrameId(frames[0])) == End(frames, from);
      SkipsNoneAppend(frames[1..], FrameId(frames[0]), carried, what, frame);
      assert (frames + [frame])[1..] == frames[1..] + [frame];
    }
  }

  /** The events accepted from a place on. */
  lemma {:induction false} FramesSkipNone(accepted: seq<G.ReplayEvent>, k: nat, from: nat, carried: seq<Carried>)
    requires |carried| == |accepted| && from <= k <= |accepted| && NoLogIn(carried, from, k)
    requires forall i | 0 <= i < |accepted| :: accepted[i].id == i + 1
    ensures SkipsNone(G.Frames(accepted[k..]), from, carried)
    ensures NoLogIn(carried, End(G.Frames(accepted[k..]), from), |carried|)
    decreases |accepted| - k
  {
    var frames := G.Frames(accepted[k..]);
    if k < |accepted| {
      assert frames[1..] == G.Frames(accepted[k + 1..]);
      FramesSkipNone(accepted, k + 1, k + 1, carried);
      assert frames[0] == G.EventFrame(accepted[k]);
      assert End(frames, from) == End(frames[1..], k + 1);
    }
  }

  lemma OpeningIsTheRest(g: G.Gateway, cursor: nat)
    requires G.BufferInv(g) && !G.NeedsReset(g, Some(cursor)) && cursor <= |g.accepted|
    ensures var evicted := |g.accepted| - |g.replay|;
            G.Opening(g, Some(cursor)) == G.Frames(g.accepted[if cursor < evicted then evicted else cursor..])
  {
    var evicted := |g.accepted| - |g.replay|;
    G.AfterIsSuffix(g.replay, evicted + 1, cursor);
    if cursor >= evicted {
      DropDrop(g.accepted, evicted, cursor - evicted);
      assert g.replay == g.accepted[evicted..];
      DropEnds(g.replay);
    }
  }

  lemma OpeningSkipsNone(l: Link)
    requires G.BufferInv(l.gateway) && |l.carried| == |l.gateway.accepted| && Position(l) <= |l.carried|
    requires NoLogIn(l.carried, Position(l), ResumePlace(l))
    ensures SkipsNone(G.Opening(l.gateway, l.last), Position(l), l.carried)
    ensures NoLogIn(l.carried, End(G.Opening(l.gateway, l.last), Position(l)), |l.carried|)
  {
    if G.NeedsReset(l.gateway, l.last) {
      assert G.Opening(l.gateway, l.last)[1..] == [];
    } else {
      OpeningIsTheRest(l.gateway, Position(l));
      FramesSkipNone(l.gateway.accepted, ResumePlace(l), Position(l), l.carried);
    }
  }

  // ---------------------------------------------------------------- every step

  lemma PublishIsUnbroken(l: Link, what: Carried, text: string, bytes: nat, slow: set<nat>, v: View)
    requires G.BufferInv(l.gateway) && Unbroken(l, v) && CarriesTurn(what, v)
    requires what.OfLog? ==> bytes <= 81920 && what.i == l.emitted
    ensures var emitted := if what.OfLog? then l.emitted + 1 else l.emitted;
            Unbroken(Publish(l, what, text, bytes, slow).(emitted := emitted), v)
  {
    if bytes <= 81920 {
      CarryingKeeps(l, what, v);
      UnreadIfOpen(l, what, text, bytes, slow);
      if Open(l) {
        var frame := G.EventFrame(G.ReplayEvent(bytes, text, l.gateway.nextEventId));
        SkipsNoneAppend(Unread(l), Position(l), l.carried, what, frame);
      }
    } else {
      assert Unread(Publish(l, what, text, bytes, slow)) == Unread(l);
    }
  }

  lemma CarryingKeeps(l: Link, what: Carried, v: View)
    requires Unbroken(l, v) && CarriesTurn(what, v) && (what.OfLog? ==> what.i == l.emitted)
    ensures var more := l.carried + [what];
            && Dense(more) && LogCount(more) == (if what.OfLog? then l.emitted + 1 else l.emitted)
            && SkipsNone(Unread(l), Position(l), more) && more[..Position(l)] == l.carried[..Position(l)]
            && forall k | 0 <= k < |more| :: CarriesTurn(more[k], v)
  {
    LogCountAppend(l.carried, what);
    DenseAppend(l.carried, what);
    SkipsNoneLater(Unread(l), Position(l), l.carried, what);
  }

  lemma UnreadIfOpen(l: Link, what: Carried, text: string, bytes: nat, slow: set<nat>)
    requires bytes <= 81920
    requires l.response.Some? ==>
               l.response.value in l.gateway.sent && l.read <= |G.SentTo(l.gateway.sent, l.response.value)|
    ensures var frame := G.EventFrame(G.ReplayEvent(bytes, text, l.gateway.nextEventId));
            Unread(Publish(l, what, text, bytes, slow)) == if Open(l) then Unread(l) + [frame] else Unread(l)
  {
    if l.response.Some? {
      var frame := G.EventFrame(G.ReplayEvent(bytes, text, l.gateway.nextEventId));
      DropAppend(G.SentTo(l.gateway.sent, l.response.value), frame, l.read);
    }
  }

  /** `after` is `l` with its next frame read. */
  predicate HasRead(l: Link, after: Link)
    requires Unread(l) != []
  {
    && Unread(after) == Unread(l)[1..] && Position(after) == FrameId(Unread(l)[0])
    && after.gateway == l.gateway && after.response == l.response && after.carried == l.carried
    && after.opening == l.opening && after.emitted == l.emitted && after.read == l.read + 1
    && after.deliveries == l.deliveries + [Deliver(l, Unread(l)[0])]
  }

  /** A read takes the next frame there is: it is delivered and not read again. */
  lemma ReadIsExact(l: Link)
    ensures if Unread(l) == [] then Next(l, Reads) == l else HasRead(l, Next(l, Reads))
  {
  }

  /** Reading on from place `from` to what the event with identifier `id` carried. */
  lemma EventDelivers(ds: seq<Delivery>, carried: seq<Carried>, from: nat, id: nat, v: View)
    requires Dense(carried) && from < id <= |carried| && NoLogIn(carried, from, id - 1)
    requires Delivers(ds, LogCount(carried[..from]), v) && CarriesTurn(carried[id - 1], v)
    ensures Delivers(ds + [Reconnection.Content(carried[id - 1])], LogCount(carried[..id]), v)
  {
    ButLast(ds, Reconnection.Content(carried[id - 1]));
    LogCountSame(carried, from, id - 1);
    TakeNext(carried, id - 1);
    LogCountAppend(carried[..id - 1], carried[id - 1]);
  }

  lemma ResetDelivers(ds: seq<Delivery>, carried: seq<Carried>, from: nat, id: nat, opening: Snapshot, v: View)
    requires from <= id <= |carried| && NoLogIn(carried, from, id)
    requires Delivers(ds, LogCount(carried[..from]), v) && Watches(opening, v)
    ensures Delivers(ds + [NewSnapshot(opening)], LogCount(carried[..id]), v)
  {
    ButLast(ds, NewSnapshot(opening));
    LogCountSame(carried, from, id);
  }

  lemma HavingReadIsUnbroken(l: Link, after: Link, v: View)
    requires Unbroken(l, v) && Unread(l) != [] && HasRead(l, after)
    ensures Unbroken(after, v)
  {
    var id := FrameId(Unread(l)[0]);
    if Unread(l)[0].EventFrame? {
      EventDelivers(l.deliveries, l.carried, Position(l), id, v);
    } else {
      ResetDelivers(l.deliveries, l.carried, Position(l), id, l.opening, v);
    }
    assert End(Unread(l)[1..], id) == End(Unread(l), Position(l));
  }

  lemma ReadIsUnbroken(l: Link, v: View)
    requires Unbroken(l, v)
    ensures Unbroken(Next(l, Reads), v)
  {
    ReadIsExact(l);
    if Unread(l) != [] {
      HavingReadIsUnbroken(l, Next(l, Reads), v);
    }
  }

  lemma ConnectIsUnbroken(l: Link, r: nat, snapshot: Snapshot, v: View)
    requires G.BufferInv(l.gateway) && Unbroken(l, v) && LosesNothing(l, Connects(r, snapshot), v)
    ensures Unbroken(Next(l, Connects(r, snapshot)), v)
  {
    if r !in l.gateway.sent && G.Subscribe(l.gateway, r, l.last).Some? {
      OpeningSkipsNone(l);
      UnreadAfterConnect(l, r, snapshot);
    }
  }

  /** A change of the gateway that closes this response or leaves it as it is. */
  lemma OtherChangeIsUnbroken(l: Link, g: G.Gateway, v: View)
    requires Unbroken(l, v) && g.accepted == l.gateway.accepted
    requires l.response.Some? ==>
               && l.response.value in g.sent
               && G.SentTo(g.sent, l.response.value) == G.SentTo(l.gateway.sent, l.response.value)
               && (l.response.value in g.subscribers ==> l.response.value in l.gateway.subscribers)
    ensures Unbroken(l.(gateway := g), v)
  {
    assert Unread(l.(gateway := g)) == Unread(l);
  }

  lemma NextIsUnbroken(l: Link, step: Step, v: View)
    requires G.BufferInv(l.gateway) && Unbroken(l, v) && LosesNothing(l, step, v)
    ensures Unbroken(Next(l, step), v)
  {
    match step
    case Emits(text, bytes, slow) => PublishIsUnbroken(l, OfLog(l.emitted), text, bytes, slow, v);
    case Announces(what, text, bytes, slow) =>
      if !what.OfLog? {
        PublishIsUnbroken(l, what, text, bytes, slow, v);
        assert Publish(l, what, text, bytes, slow).(emitted := l.emitted) == Publish(l, what, text, bytes, slow);
      }
    case OtherSubscribes(r, cursor) =>
      OtherChangeIsUnbroken(l, G.Next(l.gateway, G.DoSubscribe(r, cursor)), v);
    case Drops(gone) => OtherChangeIsUnbroken(l, G.Drop(l.gateway, gone), v);
    case Connects(r, snapshot) => ConnectIsUnbroken(l, r, snapshot, v);
    case Reads => ReadIsUnbroken(l, v);
    case Fetches(snapshot) => FetchIsUnbroken(l, snapshot, v);
  }

  lemma FetchIsUnbroken(l: Link, snapshot: Snapshot, v: View)
    requires Unbroken(l, v) && Watches(snapshot, v)
    ensures Unbroken(Next(l, Fetches(snapshot)), v)
  {
    var after := Next(l, Fetches(snapshot));
    assert Unread(after) == Unread(l) && after.deliveries[..|l.deliveries|] == l.deliveries;
  }

  lemma {:induction false} RunIsUnbroken(l: Link, steps: seq<Step>, v: View)
    requires G.BufferInv(l.gateway) && G.StreamInv(l.gateway) && Unbroken(l, v) && NeverLoses(l, steps, v)
    ensures Unbroken(Run(l, steps), v)
    decreases |steps|
  {
    if steps != [] {
      NextIsUnbroken(l, steps[0], v);
      NextKeepsGateway(l, steps[0]);
      RunIsUnbroken(Next(l, steps[0]), steps[1..], v);
    }
  }

  // ---------------------------------------------------------------- nothing is lost

  /** So a browser that keeps reading has soon read all that it was sent. */
  lemma {:induction false} ReadingCatchesUp(l: Link)
    ensures var after := Run(l, seq(|Unread(l)|, _ => Reads));
            && Unread(after) == [] && after.gateway == l.gateway && after.response == l.response
            && |after.deliveries| == |l.deliveries| + |Unread(l)|
    decreases |Unread(l)|
  {
    if Unread(l) != [] {
      ReadIsExact(l);
      ReadingCatchesUp(Next(l, Reads));
      assert seq(|Unread(l)|, _ => Reads)[1..] == seq(|Unread(l)| - 1, _ => Reads);
    }
  }

  lemma {:induction false} LosslessGrows(log: seq<StreamEvent>, longer: seq<StreamEvent>, ds: seq<Delivery>,
          d: Delivery, from: nat, v: View)
    requires Lossless(log, ds, from, v.sessionId, v.turnId)
    requires match d
             case NewSnapshot(s) => Watches(s, v) && |longer| == |log|
             case EventAt(i) => i == |log| && |longer| == |log| + 1
             case OtherTurn(event) => event.turnId != v.turnId && |longer| == |log|
    ensures Lossless(longer, ds + [d], from, v.sessionId, v.turnId)
    decreases |ds|
  {
    if ds == [] {
      assert [] + [d] == [d] && [d][1..] == [];
    } else {
      assert (ds + [d])[0] == ds[0] && (ds + [d])[1..] == ds[1..] + [d];
      LosslessGrows(log, longer, ds[1..], d, if ds[0].EventAt? then from + 1 else from, v);
    }
  }

  lemma {:induction false} DeliversIsLossless(log: seq<StreamEvent>, ds: seq<Delivery>, v: View)
    requires Delivers(ds, |log|, v)
    ensures Lossless(log, ds, 0, v.sessionId, v.turnId)
    decreases |ds|
  {
    if ds != [] {
      var before, d := ds[..|ds| - 1], ds[|ds| - 1];
      var shorter := if d.EventAt? then log[..|log| - 1] else log;
      DeliversIsLossless(shorter, before, v);
      LosslessGrows(shorter, log, before, d, 0, v);
      assert ds == before + [d];
    }
  }

  /** A browser that is connected and has read what it was sent has then received the whole log so far, once and in
      order, however often it was disconnected on the way. */
  lemma EverythingArrives(snapshot: Snapshot, steps: seq<Step>, log: seq<StreamEvent>, v: View)
    requires Watches(snapshot, v) && NeverLoses(InitialLink(snapshot), steps, v)
    requires var l := Run(InitialLink(snapshot), steps); Open(l) && Unread(l) == [] && l.emitted == |log|
    ensures Lossless(log, Run(InitialLink(snapshot), steps).deliveries, 0, v.sessionId, v.turnId)
  {
    var l := Run(InitialLink(snapshot), steps);
    InitialInv(snapshot);
    RunIsUnbroken(InitialLink(snapshot), steps, v);
    LogCountSame(l.carried, Position(l), |l.carried|);
    TakeAll(l.carried);
    DeliversIsLossless(log, l.deliveries, v);
  }

  /** No loss through the gateway. A turn finishes, its log is published among other events, and a browser that watches
      it reads it over any number of connections, none of which resumes after an event it has not read. Then every
      message is shown as complete, with exactly its canonical bytes. */
  lemma NothingLostOverGateway(checks: Checks, b: P.Binding, ops: seq<P.Op>, c: Client, i: nat, snapshot: Snapshot,
          steps: seq<Step>)
    requires R.HexDigests(checks.sha) && P.ValidBinding(b) && EndToEnd.Unseen(c, b.turnId)
             && Attentive(c, b.sessionId, b.turnId)
    requires var v, l := View(b.sessionId, b.turnId), Run(InitialLink(snapshot), steps);
             Watches(snapshot, v) && NeverLoses(InitialLink(snapshot), steps, v) && Open(l) && Unread(l) == []
    requires var p := P.Run(checks.sha, P.Initial(b), ops);
             && !p.terminal && P.FinishTurn(p).1.Ok? && i < |p.messages| && checks.utf8(Concat(p.messages[i].parts))
             && Run(InitialLink(snapshot), steps).emitted == |P.PublishCompletions(P.FinishTurn(p).0).0.events|
    ensures var p := P.Run(checks.sha, P.Initial(b), ops);
            var log := P.PublishCompletions(P.FinishTurn(p).0).0.events;
            var ds := Run(InitialLink(snapshot), steps).deliveries;
            var key := Key(b.turnId, p.messages[i].messageId);
            && InOrder(log, ds, 0) && key !in ReceiveAll(checks, log, c, ds, 0).streams
            && Displays(ReceiveAll(checks, log, c, ds, 0), key, Complete, Concat(p.messages[i].parts))
  {
    var p := P.Run(checks.sha, P.Initial(b), ops);
    var log := P.PublishCompletions(P.FinishTurn(p).0).0.events;
    var ds := Run(InitialLink(snapshot), steps).deliveries;
    EverythingArrives(snapshot, steps, log, View(b.sessionId, b.turnId));
    NothingLost(checks, b, ops, c, ds, i);
  }

  // ---------------------------------------------------------------- what is passed over is lost

  function Evicted(g: G.Gateway): int {
    |g.accepted| - |g.replay|
  }

  lemma {:induction false} EvictShortens(events: seq<G.ReplayEvent>)
    ensures |G.Evict(events)| <= |events|
    decreases |events|
  {
    if G.Total(events) > G.MAX_REPLAY_BYTES && |events| > 0 {
      EvictShortens(events[1..]);
    }
  }

  lemma EvictedRises(g: G.Gateway, step: G.Step)
    ensures Evicted(G.Next(g, step)) >= Evicted(g) && |G.Next(g, step).accepted| >= |g.accepted|
  {
    if step.DoPublish? && step.bytes <= G.MAX_EVENT_BYTES {
      EvictShortens(g.replay + [G.ReplayEvent(step.bytes, step.event, g.nextEventId)]);
    }
  }

  /** The frame leads past place `k` without delivering what is there. */
  predicate PassesOver(frame: G.Frame, k: nat) {
    if frame.EventFrame? then FrameId(frame) > k + 1 else FrameId(frame) > k
  }

  /** The event at place `k` was not delivered, and everything that can still be read is after it. */
  predicate Lost(l: Link, k: nat) {
    && k < |l.carried| && l.carried[k].OfLog? && EventAt(l.carried[k].i) !in l.deliveries
    && (Position(l) > k || (|l.gateway.replay| <= |l.gateway.accepted| && ResumePlace(l) > k
                            && (Unread(l) != [] ==> PassesOver(Unread(l)[0], k))))
  }

  lemma OpeningPassesOver(l: Link, k: nat)
    requires G.BufferInv(l.gateway) && Inv(l) && k < ResumePlace(l)
    ensures var opening := G.Opening(l.gateway, l.last); opening != [] ==> PassesOver(opening[0], k)
  {
    if !G.NeedsReset(l.gateway, l.last) {
      OpeningIsTheRest(l.gateway, Position(l));
    }
  }

  lemma PublishKeepsLost(l: Link, what: Carried, text: string, bytes: nat, slow: set<nat>, k: nat)
    requires G.BufferInv(l.gateway) && Inv(l) && Lost(l, k)
    ensures Lost(Publish(l, what, text, bytes, slow), k)
  {
    var after := Publish(l, what, text, bytes, slow);
    EvictedRises(l.gateway, G.DoPublish(text, bytes, slow));
    G.PublishKeepsBuffer(l.gateway, text, bytes, slow);
    if bytes <= G.MAX_EVENT_BYTES {
      UnreadAfterPublish(l, what, text, bytes, slow);
    } else {
      assert Unread(after) == Unread(l);
    }
  }

  lemma ReadKeepsLost(l: Link, k: nat)
    requires Inv(l) && Lost(l, k)
    ensures Lost(Next(l, Reads), k)
  {
    if Unread(l) != [] {
      var id := FrameId(Unread(l)[0]);
      assert Position(Next(l, Reads)) == id > k;
      if Unread(l)[0].EventFrame? {
        assert id - 1 != k;
      }
    }
  }

  lemma NextKeepsLost(l: Link, step: Step, k: nat)
    requires G.BufferInv(l.gateway) && Inv(l) && Lost(l, k)
    ensures Lost(Next(l, step), k)
  {
    match step
    case Emits(text, bytes, slow) => PublishKeepsLost(l, OfLog(l.emitted), text, bytes, slow, k);
    case Announces(what, text, bytes, slow) => PublishKeepsLost(l, what, text, bytes, slow, k);
    case OtherSubscribes(r, cursor) => assert Unread(Next(l, step)) == Unread(l);
    case Drops(gone) => assert Unread(Next(l, step)) == Unread(l);
    case Connects(r, snapshot) =>
      if r !in l.gateway.sent && G.Subscribe(l.gateway, r, l.last).Some? {
        UnreadAfterConnect(l, r, snapshot);
        if Position(l) <= k { OpeningPassesOver(l, k); }
      }
    case Reads => ReadKeepsLost(l, k);
    case Fetches(snapshot) => assert Unread(Next(l, step)) == Unread(l);
  }

  lemma {:induction false} RunKeepsLost(l: Link, steps: seq<Step>, k: nat)
    requires G.BufferInv(l.gateway) && G.StreamInv(l.gateway) && Inv(l) && Lost(l, k)
    ensures k < |Run(l, steps).carried| && Run(l, steps).carried[k] == l.carried[k]
    ensures EventAt(l.carried[k].i) !in Run(l, steps).deliveries
    decreases |steps|
  {
    if steps != [] {
      NextKeepsLost(l, steps[0], k);
      NextKeepsGateway(l, steps[0]);
      Reconnection.NextKeepsInv(l, steps[0]);
      RunKeepsLost(Next(l, steps[0]), steps[1..], k);
    }
  }

  /** The condition on a new connection is exact: an event of the log after the last identifier read that is no longer
      sent is never delivered, whatever happens afterwards. */
  lemma PassedOverIsLost(snapshot: Snapshot, before: seq<Step>, r: nat, opening: Snapshot, later: seq<Step>, k: nat)
    requires var l := Run(InitialLink(snapshot), before);
             && r !in l.gateway.sent && G.Subscribe(l.gateway, r, l.last).Some?
             && |l.gateway.replay| <= |l.gateway.accepted|
             && Position(l) <= k < ResumePlace(l) && k < |l.carried| && l.carried[k].OfLog?
    ensures var l := Run(InitialLink(snapshot), before);
            EventAt(l.carried[k].i) !in Run(Next(l, Connects(r, opening)), later).deliveries
  {
    var l := Run(InitialLink(snapshot), before);
    InitialInv(snapshot);
    Reconnection.RunKeepsInv(InitialLink(snapshot), before);
    RunKeepsBoth(InitialLink(snapshot), before);
    NotYetRead(l, k);
    var after := Next(l, Connects(r, opening));
    UnreadAfterConnect(l, r, opening);
    OpeningPassesOver(l, k);
    NextKeepsGateway(l, Connects(r, opening));
    Reconnection.NextKeepsInv(l, Connects(r, opening));
    assert Lost(after, k);
    RunKeepsLost(after, later, k);
  }

  lemma {:induction false} RunKeepsBoth(l: Link, steps: seq<Step>)
    requires G.BufferInv(l.gateway) && G.StreamInv(l.gateway)
    ensures G.BufferInv(Run(l, steps).gateway) && G.StreamInv(Run(l, steps).gateway)
    decreases |steps|
  {
    if steps != [] {
      NextKeepsGateway(l, steps[0]);
      RunKeepsBoth(Next(l, steps[0]), steps[1..]);
    }
  }

  /** What was carried from the last identifier read on was not delivered. */
  lemma NotYetRead(l: Link, k: nat)
    requires Inv(l) && Position(l) <= k < |l.carried| && l.carried[k].OfLog?
    ensures EventAt(l.carried[k].i) !in l.deliveries
  {
    forall d | 0 <= d < |l.deliveries| && l.deliveries[d].EventAt? ensures l.deliveries[d].i < l.carried[k].i {
      var j :| 0 <= j < Position(l) && l.carried[..Position(l)][j] == OfLog(l.deliveries[d].i);
      assert l.carried[j] == OfLog(l.deliveries[d].i);
    }
  }
}
