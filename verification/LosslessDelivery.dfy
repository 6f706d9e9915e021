/** The other half of the stream's promise: when nothing is lost, every message of a finished turn is shown complete,
    with exactly its text. */
module LosslessDelivery {
  import opened Wrappers
  import opened Bytes
  import opened Sequences
  import opened StreamWire
  import opened ProjectorRules
  import opened ProjectorRuns
  import opened ClientRules
  import opened EndToEnd

  predicate CompletedFor(log: seq<StreamEvent>, id: string) {
    exists i | 0 <= i < |log| :: log[i].Completed? && log[i].messageId == id
  }

  predicate CompletesOnce(log: seq<StreamEvent>, id: string) {
    forall i, j | 0 <= i < j < |log| ::
      !(log[i].Completed? && log[i].messageId == id && log[j].Completed? && log[j].messageId == id)
  }

  /** Every displayed message of this key says exactly this, and there is one. */
  predicate Displays(c: Client, key: Key, status: Status, text: seq<byte>) {
    && (exists j | 0 <= j < |c.shown| :: c.shown[j].key == key)
    && (forall j | 0 <= j < |c.shown| && c.shown[j].key == key :: c.shown[j] == Shown(key, status, text))
  }

  predicate NotDisplayed(c: Client, key: Key) {
    forall j | 0 <= j < |c.shown| :: c.shown[j].key != key
  }

  /** The client shows of one message all that `log` says about it. */
  predicate Mirrors(log: seq<StreamEvent>, c: Client, key: Key) {
    var id := key.messageId;
    if !HasStarted(log, id) then key !in c.streams && NotDisplayed(c, key)
    else if !CompletedFor(log, id) then
      && key in c.streams && c.streams[key] == Stream(Content(log, id), |Chunks(log, id)|)
      && Displays(c, key, Streaming, Content(log, id))
    else key !in c.streams && Displays(c, key, Complete, Content(log, id))
  }

  predicate Attentive(c: Client, sessionId: string, turnId: string) {
    c.snapshot.Some? && c.snapshot.value.sessionId == Some(sessionId)
      && c.snapshot.value.turn == Some(TurnView(turnId, true))
  }

  /** The whole log arrives in order; snapshots in between keep the turn active, other turns' events may come too. */
  predicate Lossless(log: seq<StreamEvent>, ds: seq<Delivery>, from: nat, sessionId: string, turnId: string)
    decreases |ds|
  {
    if ds == [] then from == |log|
    else
      match ds[0]
      case NewSnapshot(s) =>
        && s.sessionId == Some(sessionId) && s.turn == Some(TurnView(turnId, true))
        && Lossless(log, ds[1..], from, sessionId, turnId)
      case EventAt(i) => i == from < |log| && Lossless(log, ds[1..], from + 1, sessionId, turnId)
      case OtherTurn(event) => event.turnId != turnId && Lossless(log, ds[1..], from, sessionId, turnId)
  }

  lemma {:induction false} LosslessIsInOrder(log: seq<StreamEvent>, ds: seq<Delivery>, from: nat, sessionId: string,
          turnId: string)
    requires Lossless(log, ds, from, sessionId, turnId)
    ensures InOrder(log, ds, from) && from <= |log|
    decreases |ds|
  {
    if ds != [] {
      LosslessIsInOrder(log, ds[1..], if ds[0].EventAt? then from + 1 else from, sessionId, turnId);
    }
  }

  lemma CompletedForAppend(log: seq<StreamEvent>, e: StreamEvent, id: string)
    ensures CompletedFor(log + [e], id) <==> CompletedFor(log, id) || (e.Completed? && e.messageId == id)
    ensures CompletedFor(log, id) ==> HasCompletions(log)
  {
    var longer := log + [e];
    assert longer[|log|] == e;
    if CompletedFor(log, id) {
      var i :| 0 <= i < |log| && log[i].Completed? && log[i].messageId == id;
      assert longer[i] == log[i];
    }
  }

  lemma ContentGrows(log: seq<StreamEvent>, i: nat, id: string)
    requires i <= |log|
    ensures Content(log[..i], id) <= Content(log, id)
  {
    var part, whole := Chunks(log[..i], id), Chunks(log, id);
    PrefixOfLog(log, i, id);
    assert part == whole[..|part|];
    ConcatPrefix(whole, |part|);
  }

  lemma OtherKeyMirrors(checks: Checks, log: seq<StreamEvent>, e: StreamEvent, c: Client, key: Key)
    requires KeyOf(e) != key && e.turnId == key.turnId && Mirrors(log, c, key)
    ensures Mirrors(log + [e], ApplyEvent(checks, c, e), key)
  {
    OtherUntouched(log, e, key.messageId);
    CompletedForAppend(log, e, key.messageId);
    OtherKeyUntouched(checks, c, e, key);
  }

  lemma OtherKeyUntouched(checks: Checks, c: Client, e: StreamEvent, key: Key)
    requires KeyOf(e) != key
    ensures var d := ApplyEvent(checks, c, e);
            && (key in d.streams <==> key in c.streams) && (key in c.streams ==> d.streams[key] == c.streams[key])
            && (NotDisplayed(c, key) ==> NotDisplayed(d, key))
            && forall status, text :: Displays(c, key, status, text) ==> Displays(d, key, status, text)
  {
    var d := ApplyEvent(checks, c, e);
    assert |d.shown| >= |c.shown| && forall j | 0 <= j < |c.shown| && c.shown[j].key == key :: d.shown[j] == c.shown[j];
    assert forall j | 0 <= j < |d.shown| && d.shown[j].key == key :: j < |c.shown| && d.shown[j] == c.shown[j];
  }

  lemma StartMirrors(sha: seq<byte> -> string, checks: Checks, log: seq<StreamEvent>, e: StreamEvent, c: Client)
    requires Ordered(sha, log) && Follows(sha, log, e) && e.Started? && Expected(c, e) && PassesGuard(e)
             && Mirrors(log, c, KeyOf(e))
    ensures Mirrors(log + [e], ApplyEvent(checks, c, e), KeyOf(e))
  {
    var key, d := KeyOf(e), ApplyEvent(checks, c, e);
    StartedMessageIsEmpty(sha, log, e);
    CompletedForAppend(log, e, e.messageId);
    assert d.shown[|c.shown|].key == key;
  }

  lemma ShowTextDisplays(c: Client, key: Key, text: seq<byte>, streams: map<Key, Stream>, before: seq<byte>)
    requires Displays(c, key, Streaming, before)
    ensures Displays(c.(streams := streams, shown := ShowText(c.shown, key, text)), key, Streaming, text)
  {
    var j :| 0 <= j < |c.shown| && c.shown[j].key == key;
    assert ShowText(c.shown, key, text)[j].key == key;
  }

  lemma ShowStatusDisplays(c: Client, key: Key, status: Status, streams: map<Key, Stream>, text: seq<byte>)
    requires Displays(c, key, Streaming, text)
    ensures Displays(c.(streams := streams, shown := ShowStatus(c.shown, key, status)), key, status, text)
  {
    var j :| 0 <= j < |c.shown| && c.shown[j].key == key;
    assert ShowStatus(c.shown, key, status)[j].key == key;
  }

  lemma ChunkMirrors(sha: seq<byte> -> string, checks: Checks, log: seq<StreamEvent>, e: StreamEvent, c: Client)
    requires Follows(sha, log, e) && e.Chunk? && Expected(c, e) && PassesGuard(e) && Mirrors(log, c, KeyOf(e))
    requires |Content(log + [e], e.messageId)| <= MAX_MESSAGE_BYTES
    ensures Mirrors(log + [e], ApplyEvent(checks, c, e), KeyOf(e))
  {
    var key := KeyOf(e);
    var before, chunk := Content(log, e.messageId), DecodeBase64(e.dataBase64).value;
    ChunksAppend(log, e, e.messageId);
    ContentAppend(log, e, e.messageId);
    CompletedForAppend(log, e, e.messageId);
    assert Payload(e, e.messageId) == [chunk];
    ShowTextDisplays(c, key, before + chunk, c.streams[key := Stream(before + chunk, |Chunks(log, e.messageId)| + 1)],
                     before);
  }

  lemma CompletionMirrors(checks: Checks, log: seq<StreamEvent>, e: StreamEvent, c: Client)
    requires Follows(checks.sha, log, e) && e.Completed? && Expected(c, e) && PassesGuard(e)
             && Mirrors(log, c, KeyOf(e))
    requires !CompletedFor(log, e.messageId) && checks.utf8(Content(log, e.messageId))
    ensures Mirrors(log + [e], ApplyEvent(checks, c, e), KeyOf(e))
  {
    var key := KeyOf(e);
    ChunksAppend(log, e, e.messageId);
    ContentAppend(log, e, e.messageId);
    CompletedForAppend(log, e, e.messageId);
    AppendEmpty(Content(log, e.messageId));
    ShowStatusDisplays(c, key, Complete, c.streams - {key}, Content(log, e.messageId));
  }

  /** What the log must promise of one message for its display to end complete. */
  predicate Deliverable(checks: Checks, log: seq<StreamEvent>, id: string) {
    |Content(log, id)| <= MAX_MESSAGE_BYTES && checks.utf8(Content(log, id)) && CompletesOnce(log, id)
  }

  lemma NotYetCompleted(log: seq<StreamEvent>, i: nat)
    requires i < |log| && log[i].Completed? && CompletesOnce(log, log[i].messageId)
    ensures !CompletedFor(log[..i], log[i].messageId)
  {
  }

  lemma CompletionContent(checks: Checks, log: seq<StreamEvent>, i: nat)
    requires Ordered(checks.sha, log) && i < |log| && log[i].Completed?
    ensures Content(log[..i], log[i].messageId) == Content(log, log[i].messageId)
  {
    forall j | i <= j < |log| ensures !log[j].Chunk? {
      CompletionsAreLast(checks.sha, log, i, j);
    }
    CompletionIsFinal(log, i, log[i].messageId);
  }

  lemma OrderedTake(sha: seq<byte> -> string, log: seq<StreamEvent>, i: nat)
    requires Ordered(sha, log) && i <= |log|
    ensures Ordered(sha, log[..i])
    decreases |log|
  {
    if i == |log| {
      TakeAll(log);
    } else {
      OrderedTake(sha, log[..|log| - 1], i);
      TakeTake(log, |log| - 1, i);
    }
  }

  lemma EventMirrors(checks: Checks, log: seq<StreamEvent>, i: nat, c: Client, key: Key)
    requires Ordered(checks.sha, log) && i < |log| && Deliverable(checks, log, key.messageId)
    requires Expected(c, log[i]) && PassesGuard(log[i]) && log[i].turnId == key.turnId && Mirrors(log[..i], c, key)
    ensures Mirrors(log[..i + 1], ApplyEvent(checks, c, log[i]), key)
  {
    var before, e := log[..i], log[i];
    OrderedAt(checks.sha, log, i);
    TakeNext(log, i);
    if KeyOf(e) != key {
      OtherKeyMirrors(checks, before, e, c, key);
    } else {
      match e
      case Started(_, _, _) =>
        OrderedTake(checks.sha, log, i);
        StartMirrors(checks.sha, checks, before, e, c);
      case Chunk(_, _, _, _, _, _) =>
        ContentGrows(log, i + 1, key.messageId);
        ChunkMirrors(checks.sha, checks, before, e, c);
      case Completed(_, _, _, _, _) =>
        NotYetCompleted(log, i);
        CompletionContent(checks, log, i);
        CompletionMirrors(checks, before, e, c);
    }
  }

  /** A snapshot that keeps the turn active, or an event of another turn, leaves what the client shows of this one. */
  lemma AsideMirrors(checks: Checks, b: Binding, log: seq<StreamEvent>, from: nat, c: Client, d: Delivery, key: Key)
    requires from <= |log| && key.turnId == b.turnId
    requires Attentive(c, b.sessionId, b.turnId) && Mirrors(log[..from], c, key)
    requires match d
             case NewSnapshot(s) => s.sessionId == Some(b.sessionId) && s.turn == Some(TurnView(b.turnId, true))
             case EventAt(_) => false
             case OtherTurn(event) => event.turnId != b.turnId
    ensures var after := Receive(checks, log, c, d);
            Attentive(after, b.sessionId, b.turnId) && Mirrors(log[..from], after, key)
  {
    if d.OtherTurn? {
      OtherKeyUntouched(checks, c, d.event, key);
    }
  }

  lemma {:induction false} DeliveryMirrors(checks: Checks, b: Binding, log: seq<StreamEvent>, ds: seq<Delivery>,
          from: nat, c: Client, key: Key)
    requires Ordered(checks.sha, log) && AllGuarded(b, log) && Deliverable(checks, log, key.messageId)
             && key.turnId == b.turnId
    requires from <= |log| && Lossless(log, ds, from, b.sessionId, b.turnId) && InOrder(log, ds, from)
    requires Attentive(c, b.sessionId, b.turnId) && Mirrors(log[..from], c, key)
    ensures Mirrors(log, ReceiveAll(checks, log, c, ds, from), key)
    decreases |ds|
  {
    if ds == [] {
      TakeAll(log);
    } else {
      var d := Receive(checks, log, c, ds[0]);
      if ds[0].EventAt? {
        EventMirrors(checks, log, from, c, key);
        DeliveryMirrors(checks, b, log, ds[1..], from + 1, d, key);
      } else {
        AsideMirrors(checks, b, log, from, c, ds[0], key);
        DeliveryMirrors(checks, b, log, ds[1..], from, d, key);
      }
    }
  }

  // ---------------------------------------------------------------- a finished turn

  lemma {:induction false} AllCompletionsEmitted(sha: seq<byte> -> string, b: Binding, messages: seq<ActiveMessage>)
    requires HexDigests(sha) && forall i | 0 <= i < |messages| :: messages[i].completed && Digested(sha, messages[i])
    ensures |CompletionEvents(b, messages)| == |messages|
    decreases |messages|
  {
    if messages != [] {
      assert Digested(sha, messages[0]) && IsHexDigest(sha(Concat(messages[0].parts)));
      AllCompletionsEmitted(sha, b, messages[1..]);
    }
  }

  /** The log of a finished turn completes each of its messages once. */
  lemma FinishedOnce(b: Binding, log: seq<StreamEvent>, messages: seq<ActiveMessage>, completions: seq<StreamEvent>,
          i: nat)
    requires !HasCompletions(log) && GuardedCompletions(b, messages, completions) && |completions| == |messages|
             && i < |messages|
    requires forall k | 0 <= k < |messages| && k != i :: messages[k].messageId != messages[i].messageId
    ensures CompletesOnce(log + completions, messages[i].messageId)
            && CompletedFor(log + completions, messages[i].messageId)
  {
    var all, id := log + completions, messages[i].messageId;
    assert all[|log| + i] == completions[i];
    forall k | 0 <= k < |all| && all[k].Completed? && all[k].messageId == id ensures k == |log| + i {
      assert k >= |log| && all[k] == completions[k - |log|];
    }
  }

  lemma FinishedTurnDelivers(sha: seq<byte> -> string, checks: Checks, p: Projector, i: nat)
    requires Inv(sha, p) && !p.terminal && FinishTurn(p).1.Ok? && i < |p.messages|
    requires checks.sha == sha && checks.utf8(Concat(p.messages[i].parts))
    ensures var log := PublishCompletions(FinishTurn(p).0).0.events;
            var id := p.messages[i].messageId;
            && Content(log, id) == Concat(p.messages[i].parts) && HasStarted(log, id) && CompletedFor(log, id)
            && Deliverable(checks, log, id)
  {
    var completions, id := CompletionEvents(p.binding, p.messages), p.messages[i].messageId;
    AllPublishable(sha, p);
    forall k | 0 <= k < |p.messages| ensures p.messages[k].completed && Digested(sha, p.messages[k]) {
      assert Publishable(sha, p.events, p.messages[k]);
    }
    AllCompletionsEmitted(sha, p.binding, p.messages);
    CompletionsPassGuard(sha, p.binding, p.events, p.messages);
    forall k | 0 <= k < |p.messages| && k != i ensures p.messages[k].messageId != id {
      MessagesApart(sha, p, k, i);
    }
    FinishedOnce(p.binding, p.events, p.messages, completions, i);
    assert Publishable(sha, p.events, p.messages[i]);
    CompletionsLeaveContent(p.events, completions, id);
  }

  lemma NothingShownYet(c: Client, b: Binding, log: seq<StreamEvent>, key: Key)
    requires Unseen(c, b.turnId) && key.turnId == b.turnId
    ensures Mirrors(log[..0], c, key)
  {
  }

  /** No loss. A turn that finishes, and whose events all arrive, ends with every one of its messages shown as complete,
      with exactly its canonical bytes, and with no stream of it left open. */
  lemma NothingLost(checks: Checks, b: Binding, ops: seq<Op>, c: Client, ds: seq<Delivery>, i: nat)
    requires HexDigests(checks.sha) && ValidBinding(b) && Unseen(c, b.turnId) && Attentive(c, b.sessionId, b.turnId)
    requires var p := Run(checks.sha, Initial(b), ops);
             && !p.terminal && FinishTurn(p).1.Ok? && i < |p.messages| && checks.utf8(Concat(p.messages[i].parts))
             && var log := PublishCompletions(FinishTurn(p).0).0.events;
                Lossless(log, ds, 0, b.sessionId, b.turnId)
    ensures var p := Run(checks.sha, Initial(b), ops);
            var log := PublishCompletions(FinishTurn(p).0).0.events;
            var key := Key(b.turnId, p.messages[i].messageId);
            && InOrder(log, ds, 0)
            && key !in ReceiveAll(checks, log, c, ds, 0).streams
            && Displays(ReceiveAll(checks, log, c, ds, 0), key, Complete, Concat(p.messages[i].parts))
  {
    var p := Run(checks.sha, Initial(b), ops);
    var q := PublishCompletions(FinishTurn(p).0).0;
    var key := Key(b.turnId, p.messages[i].messageId);
    InitialInv(checks.sha, b);
    RunKeepsInv(checks.sha, Initial(b), ops);
    EndingKeepsInv(checks.sha, p);
    CompletionsKeepInv(checks.sha, FinishTurn(p).0);
    FinishedTurnDelivers(checks.sha, checks, p, i);
    BindingStays(checks.sha, Initial(b), ops);
    NothingShownYet(c, b, q.events, key);
    LosslessIsInOrder(q.events, ds, 0, b.sessionId, b.turnId);
    DeliveryMirrors(checks, b, q.events, ds, 0, c, key);
  }

  lemma {:induction false} BindingStays(sha: seq<byte> -> string, p: Projector, ops: seq<Op>)
    ensures Run(sha, p, ops).binding == p.binding
    decreases |ops|
  {
    if ops != [] { BindingStays(sha, Next(sha, p, ops[0]), ops[1..]); }
  }
}
