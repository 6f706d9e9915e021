/** The answer stream from the projector to the web client: whatever is lost on the way, the client never shows bytes
    that are not the message's own, and a message it calls complete is the whole message. */
module EndToEnd {
  import opened Wrappers
  import opened Identifiers
  import opened Bytes
  import opened Sequences
  import opened StreamWire
  import opened ProjectorRules
  import opened ProjectorRuns
  import opened ClientRules

  // ---------------------------------------------------------------- what a delivered part of a log leaves behind

  /** An open stream holds the first chunks of its message. */
  predicate HoldsChunks(log: seq<StreamEvent>, key: Key, stream: Stream) {
    var chunks := Chunks(log, key.messageId);
    stream.nextSequence <= |chunks| && stream.bytes == Concat(chunks[..stream.nextSequence])
  }

  /** What a displayed message may say when the events before `from` have been on the wire. */
  predicate Truthful(log: seq<StreamEvent>, from: nat, streams: map<Key, Stream>, s: Shown)
    requires from <= |log|
  {
    var content := Content(log, s.key.messageId);
    && s.text <= content
    && (s.status == Complete ==> s.text == content && s.key !in streams)
    && (s.key in streams && s.status == Streaming ==> s.text == streams[s.key].bytes)
    && (s.key in streams && s.status == Failed ==> HasCompletions(log[..from]) && |streams[s.key].bytes| != |content|)
  }

  /** What the client knows of one message agrees with the log. */
  predicate Faithful(log: seq<StreamEvent>, from: nat, c: Client, key: Key)
    requires from <= |log|
  {
    && (key in c.streams ==> HasStarted(log[..from], key.messageId) && HoldsChunks(log, key, c.streams[key]))
    && forall j | 0 <= j < |c.shown| && c.shown[j].key == key ::
         HasStarted(log[..from], key.messageId) && Truthful(log, from, c.streams, c.shown[j])
  }

  predicate Unseen(c: Client, turnId: string) {
    (forall key | key in c.streams :: key.turnId != turnId)
      && (forall j | 0 <= j < |c.shown| :: c.shown[j].key.turnId != turnId)
  }

  lemma {:induction false} ConcatPrefix(parts: seq<seq<byte>>, k: nat)
    requires k <= |parts|
    ensures Concat(parts[..k]) <= Concat(parts)
    decreases |parts|
  {
    if k == |parts| {
      TakeAll(parts);
    } else {
      TakeTake(parts, |parts| - 1, k);
      ConcatPrefix(parts[..|parts| - 1], k);
    }
  }

  lemma ConcatNext(parts: seq<seq<byte>>, k: nat)
    requires k < |parts|
    ensures Concat(parts[..k + 1]) == Concat(parts[..k]) + parts[k] && Concat(parts[..k + 1]) <= Concat(parts)
  {
    TakeNext(parts, k);
    ConcatAppend(parts[..k], parts[k]);
    ConcatPrefix(parts, k + 1);
  }

  /** What has been on the wire stays there. */
  lemma Later(log: seq<StreamEvent>, from: nat, to: nat, id: string)
    requires from <= to <= |log|
    ensures HasStarted(log[..from], id) ==> HasStarted(log[..to], id)
    ensures HasCompletions(log[..from]) ==> HasCompletions(log[..to])
  {
    TakeTake(log, to, from);
    PrefixOfLog(log[..to], from, id);
  }

  lemma FaithfulLater(log: seq<StreamEvent>, from: nat, to: nat, c: Client, key: Key)
    requires from <= to <= |log| && Faithful(log, from, c, key)
    ensures Faithful(log, to, c, key)
  {
    Later(log, from, to, key.messageId);
  }

  lemma SnapshotKeepsFaith(log: seq<StreamEvent>, from: nat, c: Client, key: Key, next: Snapshot)
    requires from <= |log| && Faithful(log, from, c, key)
    ensures Faithful(log, from, SetSnapshot(c, next), key)
  {
    var d := SetSnapshot(c, next);
    forall j | 0 <= j < |d.shown| && d.shown[j].key == key
      ensures HasStarted(log[..from], key.messageId) && Truthful(log, from, d.streams, d.shown[j])
    {
      assert c.shown[j].key == key;
    }
  }

  lemma OtherKeysKeepFaith(checks: Checks, log: seq<StreamEvent>, from: nat, c: Client, key: Key, e: StreamEvent)
    requires from <= |log| && Faithful(log, from, c, key) && KeyOf(e) != key
    ensures Faithful(log, from, ApplyEvent(checks, c, e), key)
  {
    var d := ApplyEvent(checks, c, e);
    assert key in d.streams <==> key in c.streams;
    forall j | 0 <= j < |d.shown| && d.shown[j].key == key
      ensures HasStarted(log[..from], key.messageId) && Truthful(log, from, d.streams, d.shown[j])
    {
      assert j < |c.shown| && c.shown[j] == d.shown[j];
    }
  }

  /** A message the client meets for the first time starts out empty. */
  lemma FirstSight(log: seq<StreamEvent>, i: nat, c: Client, key: Key)
    requires i < |log| && Faithful(log, i, c, key)
    requires !HasStarted(log[..i], key.messageId) && HasStarted(log[..i + 1], key.messageId)
    ensures key !in c.streams
    ensures Faithful(log, i + 1, c.(streams := c.streams[key := Stream([], 0)],
                                    shown := c.shown + [Shown(key, Streaming, [])]), key)
  {
    var d := c.(streams := c.streams[key := Stream([], 0)], shown := c.shown + [Shown(key, Streaming, [])]);
    var chunks := Chunks(log, key.messageId);
    assert chunks[..0] == [];
    assert HoldsChunks(log, key, d.streams[key]);
    forall j | 0 <= j < |d.shown| && d.shown[j].key == key ensures Truthful(log, i + 1, d.streams, d.shown[j]) {
      assert j == |c.shown|;
    }
  }

  lemma StartedAt(sha: seq<byte> -> string, log: seq<StreamEvent>, i: nat)
    requires Ordered(sha, log) && i < |log| && log[i].Started?
    ensures !HasStarted(log[..i], log[i].messageId) && HasStarted(log[..i + 1], log[i].messageId)
  {
    OrderedAt(sha, log, i);
    assert log[..i + 1][i] == log[i];
  }

  lemma StartKeepsFaith(sha: seq<byte> -> string, checks: Checks, log: seq<StreamEvent>, i: nat, c: Client)
    requires Ordered(sha, log) && i < |log| && log[i].Started? && Faithful(log, i, c, KeyOf(log[i]))
    ensures Faithful(log, i + 1, ApplyEvent(checks, c, log[i]), KeyOf(log[i]))
  {
    StartedAt(sha, log, i);
    FirstSight(log, i, c, KeyOf(log[i]));
    FaithfulLater(log, i, i + 1, c, KeyOf(log[i]));
  }

  /** Taking the next chunk of an open stream. */
  function WithChunk(c: Client, key: Key, chunk: seq<byte>): Client
    requires key in c.streams
  {
    var bytes := c.streams[key].bytes + chunk;
    c.(streams := c.streams[key := Stream(bytes, c.streams[key].nextSequence + 1)],
       shown := ShowText(c.shown, key, bytes))
  }

  predicate IsNextChunk(log: seq<StreamEvent>, c: Client, key: Key, chunk: seq<byte>) {
    key in c.streams && c.streams[key].nextSequence < |Chunks(log, key.messageId)|
    && Chunks(log, key.messageId)[c.streams[key].nextSequence] == chunk
  }

  lemma NextChunkHeld(log: seq<StreamEvent>, c: Client, key: Key, chunk: seq<byte>)
    requires IsNextChunk(log, c, key, chunk) && HoldsChunks(log, key, c.streams[key])
    ensures HoldsChunks(log, key, WithChunk(c, key, chunk).streams[key])
    ensures WithChunk(c, key, chunk).streams[key].bytes <= Content(log, key.messageId)
  {
    ConcatNext(Chunks(log, key.messageId), c.streams[key].nextSequence);
  }

  lemma NextChunk(log: seq<StreamEvent>, i: nat, c: Client, key: Key, chunk: seq<byte>)
    requires i <= |log| && Faithful(log, i, c, key) && IsNextChunk(log, c, key, chunk) && !HasCompletions(log[..i])
    ensures Faithful(log, i, WithChunk(c, key, chunk), key)
  {
    var d := WithChunk(c, key, chunk);
    NextChunkHeld(log, c, key, chunk);
    forall j | 0 <= j < |d.shown| && d.shown[j].key == key
      ensures HasStarted(log[..i], key.messageId) && Truthful(log, i, d.streams, d.shown[j])
    {
      assert c.shown[j].key == key;
      assert Truthful(log, i, c.streams, c.shown[j]);
    }
  }

  /** Giving up an open stream. */
  lemma GivingUp(log: seq<StreamEvent>, i: nat, c: Client, key: Key)
    requires i <= |log| && Faithful(log, i, c, key)
    ensures Faithful(log, i, c.(shown := FailMessage(c.shown, key), streams := c.streams - {key}), key)
  {
    var d := c.(shown := FailMessage(c.shown, key), streams := c.streams - {key});
    forall j | 0 <= j < |d.shown| && d.shown[j].key == key
      ensures HasStarted(log[..i], key.messageId) && Truthful(log, i, d.streams, d.shown[j])
    {
      assert c.shown[j].key == key;
    }
  }

  /** The chunk at place `i` is one of its message's chunks, and no completion has been on the wire before it. */
  predicate Fits(log: seq<StreamEvent>, i: nat, e: StreamEvent)
    requires i <= |log| && e.Chunk?
  {
    && !HasCompletions(log[..i])
    && DecodeBase64(e.dataBase64).Some? && |DecodeBase64(e.dataBase64).value| == e.rawBytes
    && e.sequence < |Chunks(log, e.messageId)|
       && Chunks(log, e.messageId)[e.sequence] == DecodeBase64(e.dataBase64).value
  }

  lemma ChunkFits(sha: seq<byte> -> string, log: seq<StreamEvent>, i: nat)
    requires Ordered(sha, log) && i < |log| && log[i].Chunk?
    ensures Fits(log, i, log[i])
  {
    OrderedAt(sha, log, i);
    ChunkAt(sha, log, i);
  }

  lemma ChunkKeepsFaith(checks: Checks, log: seq<StreamEvent>, i: nat, c: Client, e: StreamEvent)
    requires i <= |log| && e.Chunk? && Fits(log, i, e) && Faithful(log, i, c, KeyOf(e))
    ensures Faithful(log, i, ApplyEvent(checks, c, e), KeyOf(e))
  {
    var key := KeyOf(e);
    GivingUp(log, i, c, key);
    if key in c.streams && c.streams[key].nextSequence == e.sequence {
      NextChunk(log, i, c, key, DecodeBase64(e.dataBase64).value);
    }
  }

  /** A completion that does not fit what has arrived. */
  lemma Refusing(log: seq<StreamEvent>, i: nat, c: Client, key: Key)
    requires i <= |log| && Faithful(log, i, c, key) && HasCompletions(log[..i])
    requires key in c.streams ==> |c.streams[key].bytes| != |Content(log, key.messageId)|
    ensures Faithful(log, i, c.(shown := FailMessage(c.shown, key)), key)
  {
    var d := c.(shown := FailMessage(c.shown, key));
    forall j | 0 <= j < |d.shown| && d.shown[j].key == key
      ensures HasStarted(log[..i], key.messageId) && Truthful(log, i, d.streams, d.shown[j])
    {
      assert c.shown[j].key == key;
    }
  }

  /** A completion that names the length of what has arrived: that is then all of the message. */
  lemma Settling(log: seq<StreamEvent>, i: nat, c: Client, key: Key, status: Status)
    requires i <= |log| && Faithful(log, i, c, key) && key in c.streams
    requires |c.streams[key].bytes| == |Content(log, key.messageId)|
    ensures c.streams[key].bytes == Content(log, key.messageId)
    ensures Faithful(log, i, c.(streams := c.streams - {key}, shown := ShowStatus(c.shown, key, status)), key)
  {
    var d := c.(streams := c.streams - {key}, shown := ShowStatus(c.shown, key, status));
    ConcatPrefix(Chunks(log, key.messageId), c.streams[key].nextSequence);
    forall j | 0 <= j < |d.shown| && d.shown[j].key == key
      ensures HasStarted(log[..i], key.messageId) && Truthful(log, i, d.streams, d.shown[j])
    {
      assert c.shown[j].key == key;
      assert Truthful(log, i, c.streams, c.shown[j]);
    }
  }

  lemma CompletionKeepsFaith(checks: Checks, log: seq<StreamEvent>, i: nat, c: Client, e: StreamEvent)
    requires i <= |log| && e.Completed? && Faithful(log, i, c, KeyOf(e))
    requires HasCompletions(log[..i]) && e.totalBytes == |Content(log, e.messageId)|
    ensures Faithful(log, i, ApplyEvent(checks, c, e), KeyOf(e))
  {
    var key := KeyOf(e);
    if key !in c.streams || |c.streams[key].bytes| != e.totalBytes {
      Refusing(log, i, c, key);
    } else {
      Settling(log, i, c, key, if VerifyDigest(checks, c.streams[key].bytes, e.sha256) then Complete else Failed);
    }
  }

  lemma CompletionSeen(sha: seq<byte> -> string, log: seq<StreamEvent>, i: nat)
    requires Ordered(sha, log) && i < |log| && log[i].Completed?
    ensures HasCompletions(log[..i + 1]) && log[i].totalBytes == |Content(log, log[i].messageId)|
  {
    CompletedAt(sha, log, i);
    assert log[..i + 1][i] == log[i];
  }

  lemma OwnEventKeepsFaith(sha: seq<byte> -> string, checks: Checks, log: seq<StreamEvent>, i: nat, c: Client)
    requires Ordered(sha, log) && i < |log| && Faithful(log, i, c, KeyOf(log[i]))
    ensures Faithful(log, i + 1, ApplyEvent(checks, c, log[i]), KeyOf(log[i]))
  {
    match log[i]
    case Started(_, _, _) => StartKeepsFaith(sha, checks, log, i, c);
    case Chunk(_, _, _, _, _, _) =>
      ChunkFits(sha, log, i);
      ChunkKeepsFaith(checks, log, i, c, log[i]);
      FaithfulLater(log, i, i + 1, ApplyEvent(checks, c, log[i]), KeyOf(log[i]));
    case Completed(_, _, _, _, _) =>
      CompletionSeen(sha, log, i);
      FaithfulLater(log, i, i + 1, c, KeyOf(log[i]));
      CompletionKeepsFaith(checks, log, i + 1, c, log[i]);
  }

  lemma EventKeepsFaith(sha: seq<byte> -> string, checks: Checks, log: seq<StreamEvent>, from: nat, i: nat, c: Client,
          key: Key)
    requires Ordered(sha, log) && from <= i < |log| && Faithful(log, from, c, key)
    ensures Faithful(log, i + 1, ApplyEvent(checks, c, log[i]), key)
  {
    FaithfulLater(log, from, i, c, key);
    if KeyOf(log[i]) == key {
      OwnEventKeepsFaith(sha, checks, log, i, c);
    } else {
      OtherKeysKeepFaith(checks, log, i, c, key, log[i]);
      FaithfulLater(log, i, i + 1, ApplyEvent(checks, c, log[i]), key);
    }
  }

  lemma {:induction false} DeliveryKeepsFaith(sha: seq<byte> -> string, checks: Checks, log: seq<StreamEvent>,
          ds: seq<Delivery>, from: nat, c: Client, key: Key)
    requires Ordered(sha, log) && from <= |log| && Faithful(log, from, c, key)
    requires InOrder(log, ds, from) && OtherTurns(ds, key.turnId)
    ensures Faithful(log, |log|, ReceiveAll(checks, log, c, ds, from), key)
    decreases |ds|
  {
    if ds == [] {
      FaithfulLater(log, from, |log|, c, key);
    } else if ds[0].EventAt? {
      EventKeepsFaith(sha, checks, log, from, ds[0].i, c, key);
      DeliveryKeepsFaith(sha, checks, log, ds[1..], ds[0].i + 1, Receive(checks, log, c, ds[0]), key);
    } else {
      if ds[0].NewSnapshot? {
        SnapshotKeepsFaith(log, from, c, key, ds[0].snapshot);
      } else {
        OtherKeysKeepFaith(checks, log, from, c, key, ds[0].event);
      }
      DeliveryKeepsFaith(sha, checks, log, ds[1..], from, Receive(checks, log, c, ds[0]), key);
    }
  }

  /** What the client holds and shows of one turn: every buffer and every displayed text is a prefix of its message's
      bytes in the log, and a message shown as complete is all of them. */
  predicate Safe(log: seq<StreamEvent>, c: Client, turnId: string) {
    && (forall key | key in c.streams && key.turnId == turnId :: c.streams[key].bytes <= Content(log, key.messageId))
    && (forall j | 0 <= j < |c.shown| && c.shown[j].key.turnId == turnId ::
          && c.shown[j].text <= Content(log, c.shown[j].key.messageId)
          && (c.shown[j].status == Complete ==> c.shown[j].text == Content(log, c.shown[j].key.messageId)))
  }

  /** Content safety. After any run of the projector and any in-order delivery of any part of what it emitted, with any
      snapshots and events of other turns in between, the client is safe. Nothing is asked of the digest function. */
  lemma ContentSafety(sha: seq<byte> -> string, checks: Checks, b: Binding, ops: seq<Op>, c: Client, ds: seq<Delivery>)
    requires HexDigests(sha) && ValidBinding(b) && Unseen(c, b.turnId)
    requires InOrder(Run(sha, Initial(b), ops).events, ds, 0) && OtherTurns(ds, b.turnId)
    ensures var log := Run(sha, Initial(b), ops).events; Safe(log, ReceiveAll(checks, log, c, ds, 0), b.turnId)
  {
    var p := Run(sha, Initial(b), ops);
    var after := ReceiveAll(checks, p.events, c, ds, 0);
    InitialInv(sha, b);
    RunKeepsInv(sha, Initial(b), ops);
    forall key: Key | key.turnId == b.turnId ensures Faithful(p.events, |p.events|, after, key) {
      DeliveryKeepsFaith(sha, checks, p.events, ds, 0, c, key);
    }
    forall key | key in after.streams && key.turnId == b.turnId
      ensures after.streams[key].bytes <= Content(p.events, key.messageId)
    {
      assert Faithful(p.events, |p.events|, after, key);
      ConcatPrefix(Chunks(p.events, key.messageId), after.streams[key].nextSequence);
    }
    forall j | 0 <= j < |after.shown| && after.shown[j].key.turnId == b.turnId
      ensures Truthful(p.events, |p.events|, after.streams, after.shown[j])
    {
      assert Faithful(p.events, |p.events|, after, after.shown[j].key);
    }
  }

  // ---------------------------------------------------------------- the text given to completeItem

  predicate CompletedIn(messages: seq<ActiveMessage>, id: string) {
    exists i | 0 <= i < |messages| :: messages[i].messageId == id && messages[i].completed
  }

  /** The content of a message is settled: nothing more can be published for it. */
  predicate Sealed(p: Projector, id: string, text: seq<byte>) {
    Content(p.events, id) == text && (p.terminal || CompletedIn(p.messages, id))
  }

  lemma StaysCompleted(before: seq<ActiveMessage>, after: seq<ActiveMessage>, id: string)
    requires CompletedIn(before, id) && |before| <= |after|
    requires forall k | 0 <= k < |before| && before[k].completed ::
               after[k].completed && after[k].messageId == before[k].messageId
    ensures CompletedIn(after, id)
  {
    var k :| 0 <= k < |before| && before[k].messageId == id && before[k].completed;
    assert after[k].messageId == id && after[k].completed;
  }

  lemma StartLeavesContent(sha: seq<byte> -> string, p: Projector, k: nat)
    requires Inv(sha, p) && k < |p.messages| < MAX_MESSAGES_PER_TURN
    ensures var id := p.messages[k].messageId;
            Content(p.events + [Started(MessageId(|p.messages| + 1), p.binding.sessionId, p.binding.turnId)], id)
              == Content(p.events, id)
  {
    assert MessageInv(sha, p.events, p.messages[k], k);
    StartLeavesOthers(p, |p.messages| + 1, k + 1);
  }

  lemma StartLeavesCompleted(sha: seq<byte> -> string, p: Projector, id: string)
    requires Inv(sha, p) && |p.messages| < MAX_MESSAGES_PER_TURN && CompletedIn(p.messages, id)
    ensures var e := Started(MessageId(|p.messages| + 1), p.binding.sessionId, p.binding.turnId);
            Content(p.events + [e], id) == Content(p.events, id)
  {
    var k :| 0 <= k < |p.messages| && p.messages[k].messageId == id && p.messages[k].completed;
    StartLeavesContent(sha, p, k);
  }

  lemma StartKeepsSeal(sha: seq<byte> -> string, p: Projector, item: string, id: string, text: seq<byte>)
    requires Inv(sha, p) && !p.terminal && Sealed(p, id, text)
    ensures Sealed(StartMessage(p, item).0, id, text)
  {
    if |p.messages| < MAX_MESSAGES_PER_TURN {
      StartLeavesCompleted(sha, p, id);
      StaysCompleted(p.messages, StartMessage(p, item).0.messages, id);
    }
  }

  lemma MessagesApart(sha: seq<byte> -> string, p: Projector, i: nat, k: nat)
    requires Inv(sha, p) && i < |p.messages| && k < |p.messages| && i != k
    ensures p.messages[i].messageId != p.messages[k].messageId && ValidResourceId(p.messages[i].messageId)
  {
    assert MessageInv(sha, p.events, p.messages[i], i) && MessageInv(sha, p.events, p.messages[k], k);
    MessageIdsDiffer(i + 1, k + 1);
    MessageIdsAreValid(i + 1);
  }

  lemma PartsAreContent(sha: seq<byte> -> string, p: Projector, i: nat)
    requires Inv(sha, p) && i < |p.messages|
    ensures Concat(p.messages[i].parts) == Content(p.events, p.messages[i].messageId)
  {
    assert MessageInv(sha, p.events, p.messages[i], i);
  }

  lemma AddKeepsSeal(sha: seq<byte> -> string, p: Projector, i: nat, bytes: seq<byte>, id: string, text: seq<byte>)
    requires Inv(sha, p) && !p.terminal && i < |p.messages| && !p.messages[i].completed && Sealed(p, id, text)
    ensures Sealed(AddPart(p, i, bytes), id, text)
  {
    var k :| 0 <= k < |p.messages| && p.messages[k].messageId == id && p.messages[k].completed;
    var m := p.messages[i];
    MessagesApart(sha, p, i, k);
    var chunks := ChunkEvents(p.binding, m.messageId, bytes, m.nextSequence);
    ChunksPassGuard(p.binding, m.messageId, bytes, m.nextSequence);
    OthersUntouched(p.events, chunks, m.messageId, id);
    StaysCompleted(p.messages, AddPart(p, i, bytes).messages, id);
  }

  lemma PublishOutcomes(p: Projector, item: string, bytes: seq<byte>)
    ensures var at := Find(p.messages, item);
            var q := if at.Some? then p else StartMessage(p, item).0;
            var i := if at.Some? then at.value else |p.messages|;
            || Publish(p, item, bytes).0 == q
            || (i < |q.messages| && PublishTo(q, i, bytes).1.None? && !q.messages[i].completed
                && Publish(p, item, bytes).0 == AddPart(q, i, bytes))
  {
  }

  lemma PublishKeepsSeal(sha: seq<byte> -> string, p: Projector, item: string, bytes: seq<byte>, id: string,
          text: seq<byte>)
    requires Inv(sha, p) && !p.terminal && Sealed(p, id, text)
    ensures Sealed(Publish(p, item, bytes).0, id, text)
  {
    var at := Find(p.messages, item);
    if at.None? {
      StartKeepsInv(sha, p, item);
      StartKeepsSeal(sha, p, item, id, text);
    }
    var q := if at.Some? then p else StartMessage(p, item).0;
    var i := if at.Some? then at.value else |p.messages|;
    PublishOutcomes(p, item, bytes);
    if i < |q.messages| && PublishTo(q, i, bytes).1.None? {
      AddKeepsSeal(sha, q, i, bytes, id, text);
    }
  }

  lemma EnsureKeepsSeal(sha: seq<byte> -> string, p: Projector, item: string, text: seq<byte>, id: string,
          other: seq<byte>)
    requires Inv(sha, p) && !p.terminal && Sealed(p, id, other)
    ensures Sealed(EnsureMessage(p, item, text).0, id, other)
  {
    if Find(p.messages, item).None? {
      if text == [] {
        StartKeepsSeal(sha, p, item, id, other);
      } else {
        PublishKeepsSeal(sha, p, item, text, id, other);
      }
    }
  }

  lemma MarkKeepsSeal(sha: seq<byte> -> string, p: Projector, i: nat, id: string, text: seq<byte>)
    requires i < |p.messages| && Sealed(p, id, text)
    ensures Sealed(MarkCompleted(sha, p, i), id, text)
  {
    if !p.terminal { StaysCompleted(p.messages, MarkCompleted(sha, p, i).messages, id); }
  }

  lemma CompleteKeepsSeal(sha: seq<byte> -> string, p: Projector, threadId: string, turnId: string,
          isAgentMessage: bool, item: string, text: seq<byte>, id: string, other: seq<byte>)
    requires Inv(sha, p) && !p.terminal && Sealed(p, id, other)
    ensures Sealed(CompleteItem(sha, p, threadId, turnId, isAgentMessage, item, text).0, id, other)
  {
    var ready := EnsureMessage(p, item, text).0;
    EnsureKeepsSeal(sha, p, item, text, id, other);
    var at := Find(ready.messages, item);
    if at.Some? { MarkKeepsSeal(sha, ready, at.value, id, other); }
  }

  lemma NextKeepsSeal(sha: seq<byte> -> string, p: Projector, op: Op, id: string, text: seq<byte>)
    requires Inv(sha, p) && Sealed(p, id, text)
    ensures Sealed(Next(sha, p, op), id, text)
  {
    match op
    case Delta(threadId, turnId, item, delta) =>
      if !p.terminal { PublishKeepsSeal(sha, p, item, delta, id, text); }
    case ItemCompleted(threadId, turnId, isAgentMessage, item, other) =>
      if !p.terminal { CompleteKeepsSeal(sha, p, threadId, turnId, isAgentMessage, item, other, id, text); }
    case TurnFinished =>
    case CompletionsPublished =>
      if p.terminal { CompletionsKeepSeal(sha, p, id); }
    case Aborted =>
  }

  lemma CompletionsKeepSeal(sha: seq<byte> -> string, p: Projector, id: string)
    requires Inv(sha, p) && p.terminal
    ensures Content(PublishCompletions(p).0.events, id) == Content(p.events, id)
  {
    AllPublishable(sha, p);
    CompletionsPassGuard(sha, p.binding, p.events, p.messages);
    CompletionsLeaveContent(p.events, CompletionEvents(p.binding, p.messages), id);
  }

  lemma {:induction false} RunKeepsSeal(sha: seq<byte> -> string, p: Projector, ops: seq<Op>, id: string,
          text: seq<byte>)
    requires Inv(sha, p) && Sealed(p, id, text)
    ensures Sealed(Run(sha, p, ops), id, text)
    decreases |ops|
  {
    if ops != [] {
      NextKeepsInv(sha, p, ops[0]);
      NextKeepsSeal(sha, p, ops[0], id, text);
      RunKeepsSeal(sha, Next(sha, p, ops[0]), ops[1..], id, text);
    }
  }

  /** An accepted completeItem fixes the message's content to the text it was given. */
  lemma CompletionSeals(sha: seq<byte> -> string, p: Projector, threadId: string, turnId: string, item: string,
          text: seq<byte>)
    requires Inv(sha, p) && CompleteItem(sha, p, threadId, turnId, true, item, text).1 == Ok(true)
    ensures var q := CompleteItem(sha, p, threadId, turnId, true, item, text).0;
            Find(q.messages, item).Some? && Sealed(q, q.messages[Find(q.messages, item).value].messageId, text)
  {
    var q := CompleteItem(sha, p, threadId, turnId, true, item, text).0;
    CompleteKeepsInv(sha, p, threadId, turnId, true, item, text);
    CompletedText(sha, p, threadId, turnId, item, text);
    PartsAreContent(sha, q, Find(q.messages, item).value);
  }

  lemma CompletedText(sha: seq<byte> -> string, p: Projector, threadId: string, turnId: string, item: string,
          text: seq<byte>)
    requires Inv(sha, p) && CompleteItem(sha, p, threadId, turnId, true, item, text).1 == Ok(true)
    ensures var q := CompleteItem(sha, p, threadId, turnId, true, item, text).0;
            var at := Find(q.messages, item);
            at.Some? && q.messages[at.value].completed && Concat(q.messages[at.value].parts) == text
  {
    var ready := EnsureMessage(p, item, text).0;
    EnsureKeepsInv(sha, p, item, text);
    MarkedIsFound(sha, ready, item);
  }

  lemma MarkedIsFound(sha: seq<byte> -> string, p: Projector, item: string)
    requires DistinctItems(p.messages) && Find(p.messages, item).Some?
    ensures var at := Find(p.messages, item); Find(MarkCompleted(sha, p, at.value).messages, item) == at
  {
    FoundAgain(p.messages, MarkCompleted(sha, p, Find(p.messages, item).value).messages, item);
  }

  lemma FoundAgain(before: seq<ActiveMessage>, after: seq<ActiveMessage>, item: string)
    requires |before| == |after| && DistinctItems(before)
    requires forall i | 0 <= i < |before| :: before[i].providerMessageId == after[i].providerMessageId
    ensures Find(before, item) == Find(after, item)
  {
  }

  /** End to end: once the projector has accepted `text` as the whole of an item, whatever happens to the projector
      afterwards and whatever part of its events arrives in order, each display of that message is a prefix of `text`,
      and is `text` itself if it says complete. */
  lemma CompleteMeansTheTextGiven(sha: seq<byte> -> string, checks: Checks, b: Binding, before: seq<Op>,
          threadId: string, turnId: string, item: string, text: seq<byte>, later: seq<Op>, c: Client, ds: seq<Delivery>,
          j: nat)
    requires HexDigests(sha) && ValidBinding(b) && Unseen(c, b.turnId) && OtherTurns(ds, b.turnId)
    requires CompleteItem(sha, Run(sha, Initial(b), before), threadId, turnId, true, item, text).1 == Ok(true)
    requires var q := CompleteItem(sha, Run(sha, Initial(b), before), threadId, turnId, true, item, text).0;
             InOrder(Run(sha, q, later).events, ds, 0)
               && j < |ReceiveAll(checks, Run(sha, q, later).events, c, ds, 0).shown|
    ensures var q := CompleteItem(sha, Run(sha, Initial(b), before), threadId, turnId, true, item, text).0;
            var s := ReceiveAll(checks, Run(sha, q, later).events, c, ds, 0).shown[j];
            && Find(q.messages, item).Some?
            && (s.key == Key(b.turnId, q.messages[Find(q.messages, item).value].messageId) ==>
                  s.text <= text && (s.status == Complete ==> s.text == text))
  {
    var p := Run(sha, Initial(b), before);
    var q := CompleteItem(sha, p, threadId, turnId, true, item, text).0;
    InitialInv(sha, b);
    RunKeepsInv(sha, Initial(b), before);
    CompletionSeals(sha, p, threadId, turnId, item, text);
    CompleteKeepsInv(sha, p, threadId, turnId, true, item, text);
    var id := q.messages[Find(q.messages, item).value].messageId;
    RunKeepsSeal(sha, q, later, id, text);
    RunKeepsInv(sha, q, later);
    DeliveryKeepsFaith(sha, checks, Run(sha, q, later).events, ds, 0, c, Key(b.turnId, id));
  }
}
