/** What every run of the projector emits: a well-formed log that carries each message's canonical bytes exactly. */
module ProjectorRuns {
  import opened Wrappers
  import opened Identifiers
  import opened Bytes
  import opened Sequences
  import opened StreamWire
  import opened ProjectorRules
  import Base64

  /** The digests that the stream carries are lower-case hexadecimal. */
  ghost predicate HexDigests(sha: seq<byte> -> string) {
    forall s: seq<byte> :: IsHexDigest(sha(s))
  }

  /** A message's record is what the log says about it. */
  predicate Recorded(log: seq<StreamEvent>, m: ActiveMessage) {
    && HasStarted(log, m.messageId)
    && Concat(m.parts) == Content(log, m.messageId)
    && m.totalBytes == |Content(log, m.messageId)| <= MAX_MESSAGE_BYTES
    && m.nextSequence == |Chunks(log, m.messageId)|
  }

  /** A message is completed exactly when it has the digest of its bytes. */
  predicate Digested(sha: seq<byte> -> string, m: ActiveMessage) {
    m.digest == if m.completed then Some(sha(Concat(m.parts))) else None
  }

  function SumBytes(messages: seq<ActiveMessage>): nat {
    if messages == [] then 0 else SumBytes(messages[..|messages| - 1]) + messages[|messages| - 1].totalBytes
  }

  predicate AllGuarded(b: Binding, log: seq<StreamEvent>) {
    forall i | 0 <= i < |log| :: log[i].sessionId == b.sessionId && log[i].turnId == b.turnId && PassesGuard(log[i])
  }

  predicate NoneBeyond(log: seq<StreamEvent>, count: nat) {
    forall n: nat | count < n <= MAX_MESSAGES_PER_TURN :: !HasStarted(log, MessageId(n))
  }

  /** An open stream has no completions yet, and nothing of the messages after the first `count`. */
  ghost predicate LogInv(sha: seq<byte> -> string, b: Binding, log: seq<StreamEvent>, terminal: bool, count: nat) {
    Ordered(sha, log) && AllGuarded(b, log) && (!terminal ==> !HasCompletions(log) && NoneBeyond(log, count))
  }

  /** The message numbered `i` is the one its identifier says, and its record agrees with the log. */
  predicate MessageInv(sha: seq<byte> -> string, log: seq<StreamEvent>, m: ActiveMessage, i: nat) {
    m.messageId == MessageId(i + 1) && Recorded(log, m) && Digested(sha, m)
  }

  predicate AllRecorded(sha: seq<byte> -> string, log: seq<StreamEvent>, messages: seq<ActiveMessage>) {
    forall i | 0 <= i < |messages| :: MessageInv(sha, log, messages[i], i)
  }

  predicate DistinctItems(messages: seq<ActiveMessage>) {
    forall i, j | 0 <= i < j < |messages| :: messages[i].providerMessageId != messages[j].providerMessageId
  }

  predicate BudgetInv(terminal: bool, turnBytes: nat, messages: seq<ActiveMessage>) {
    turnBytes <= MAX_TURN_BYTES && (!terminal || messages != [] ==> turnBytes == SumBytes(messages))
  }

  predicate MessagesInv(sha: seq<byte> -> string, p: Projector) {
    && |p.messages| <= MAX_MESSAGES_PER_TURN
    && AllRecorded(sha, p.events, p.messages)
    && DistinctItems(p.messages)
    && BudgetInv(p.terminal, p.turnBytes, p.messages)
  }

  ghost predicate Inv(sha: seq<byte> -> string, p: Projector) {
    HexDigests(sha) && ValidBinding(p.binding) && LogInv(sha, p.binding, p.events, p.terminal, |p.messages|)
      && MessagesInv(sha, p)
  }

  // ---------------------------------------------------------------- message identifiers

  lemma MessageIdsAreValid(n: nat)
    requires n <= MAX_MESSAGES_PER_TURN
    ensures ValidResourceId(MessageId(n)) && MessageId(n)[8] == '0' + n as char
  {
    assert DecimalText(n) == ['0' + n as char];
  }

  lemma MessageIdsDiffer(m: nat, n: nat)
    requires m <= MAX_MESSAGES_PER_TURN && n <= MAX_MESSAGES_PER_TURN && m != n
    ensures MessageId(m) != MessageId(n)
  {
    MessageIdsAreValid(m);
    MessageIdsAreValid(n);
  }

  // ---------------------------------------------------------------- emitting chunks

  predicate OpenFor(log: seq<StreamEvent>, id: string) {
    HasStarted(log, id) && !HasCompletions(log)
  }

  /** `longer` is an ordered log with `bytes` more of one message, in `count` more chunks. */
  ghost predicate Extends(sha: seq<byte> -> string, log: seq<StreamEvent>, longer: seq<StreamEvent>, id: string,
          bytes: seq<byte>, count: nat)
  {
    && Ordered(sha, longer) && OpenFor(longer, id)
    && Content(longer, id) == Content(log, id) + bytes
    && |Chunks(longer, id)| == |Chunks(log, id)| + count
  }

  lemma ExtendsTwice(sha: seq<byte> -> string, log: seq<StreamEvent>, mid: seq<StreamEvent>, longer: seq<StreamEvent>,
          id: string, a: seq<byte>, b: seq<byte>, m: nat, n: nat)
    requires Extends(sha, log, mid, id, a, m) && Extends(sha, mid, longer, id, b, n)
    ensures Extends(sha, log, longer, id, a + b, m + n)
  {
    AppendAssoc(Content(log, id), a, b);
  }

  lemma OneChunk(sha: seq<byte> -> string, b: Binding, log: seq<StreamEvent>, id: string, bytes: seq<byte>)
    requires Ordered(sha, log) && OpenFor(log, id) && bytes != []
    ensures Extends(sha, log, log + [ChunkEvent(b, id, bytes, |Chunks(log, id)|)], id, bytes, 1)
  {
    var e := ChunkEvent(b, id, bytes, |Chunks(log, id)|);
    Base64.DecodeEncode(Base64.Standard, bytes);
    assert Payload(e, id) == [bytes];
    assert Follows(sha, log, e);
    OrderedAppend(sha, log, e);
    ChunksAppend(log, e, id);
    ContentAppend(log, e, id);
  }

  predicate GuardedChunks(b: Binding, id: string, chunks: seq<StreamEvent>) {
    forall i | 0 <= i < |chunks| ::
      && chunks[i].Chunk? && chunks[i].messageId == id && chunks[i].sessionId == b.sessionId
         && chunks[i].turnId == b.turnId
      && PassesGuard(chunks[i]) && |chunks[i].dataBase64| <= 43692
  }

  /** Every chunk passes the client's guard: 1 to 32768 bytes, at most 43692 characters. */
  lemma {:induction false} ChunksPassGuard(b: Binding, id: string, bytes: seq<byte>, sequence: nat)
    requires ValidBinding(b) && ValidResourceId(id)
    ensures GuardedChunks(b, id, ChunkEvents(b, id, bytes, sequence))
    decreases |bytes|
  {
    if bytes != [] {
      FirstChunk(b, id, bytes, sequence);
      Base64.SymbolCount(FirstChunkBytes(bytes));
      ChunksPassGuard(b, id, LaterBytes(bytes), sequence + 1);
    }
  }

  /** A chunk leaves the other messages alone. */
  lemma OtherUntouched(log: seq<StreamEvent>, e: StreamEvent, other: string)
    requires e.messageId != other || !(e.Chunk? || e.Started?)
    ensures Chunks(log + [e], other) == Chunks(log, other)
    ensures HasStarted(log + [e], other) <==> HasStarted(log, other)
  {
    ChunksAppend(log, e, other);
    AppendEmpty(Chunks(log, other));
  }

  lemma {:induction false} AllChunks(sha: seq<byte> -> string, b: Binding, log: seq<StreamEvent>, id: string,
          bytes: seq<byte>)
    requires Ordered(sha, log) && OpenFor(log, id)
    ensures var chunks := ChunkEvents(b, id, bytes, |Chunks(log, id)|);
            Extends(sha, log, log + chunks, id, bytes, |chunks|)
    decreases |bytes|
  {
    if bytes == [] {
      AppendEmpty(log);
      AppendEmpty(Content(log, id));
    } else {
      MoreChunks(sha, b, log, id, bytes);
    }
  }

  lemma MoreChunks(sha: seq<byte> -> string, b: Binding, log: seq<StreamEvent>, id: string, bytes: seq<byte>)
    requires Ordered(sha, log) && OpenFor(log, id) && bytes != []
    ensures var chunks := ChunkEvents(b, id, bytes, |Chunks(log, id)|);
            Extends(sha, log, log + chunks, id, bytes, |chunks|)
    decreases |bytes|, 0
  {
    var sequence, head, rest := |Chunks(log, id)|, FirstChunkBytes(bytes), LaterBytes(bytes);
    var first := [ChunkEvent(b, id, head, sequence)];
    var later := ChunkEvents(b, id, rest, sequence + 1);
    FirstChunk(b, id, bytes, sequence);
    OneChunk(sha, b, log, id, head);
    AllChunks(sha, b, log + first, id, rest);
    ExtendsTwice(sha, log, log + first, log + first + later, id, head, rest, 1, |later|);
    AppendAssoc(log, first, later);
  }

  lemma {:induction false} OthersUntouched(log: seq<StreamEvent>, more: seq<StreamEvent>, id: string, other: string)
    requires id != other && forall i | 0 <= i < |more| :: more[i].Chunk? && more[i].messageId == id
    ensures Chunks(log + more, other) == Chunks(log, other)
    ensures HasStarted(log + more, other) <==> HasStarted(log, other)
    decreases |more|
  {
    if more == [] {
      AppendEmpty(log);
    } else {
      MoveFirst(log, more);
      OtherUntouched(log, more[0], other);
      OthersUntouched(log + [more[0]], more[1..], id, other);
    }
  }

  lemma {:induction false} SumUpdate(messages: seq<ActiveMessage>, i: nat, m: ActiveMessage)
    requires i < |messages|
    ensures SumBytes(messages[i := m]) == SumBytes(messages) - messages[i].totalBytes + m.totalBytes
    decreases |messages|
  {
    var last := |messages| - 1;
    if i == last {
      UpdateTake(messages, i, m, last);
    } else {
      UpdateTake(messages, i, m, last);
      SumUpdate(messages[..last], i, m);
    }
  }

  // ---------------------------------------------------------------- every operation keeps the invariant

  lemma StartLeavesOthers(p: Projector, n: nat, k: nat)
    requires n <= MAX_MESSAGES_PER_TURN && k <= MAX_MESSAGES_PER_TURN && k != n
    ensures var longer := p.events + [Started(MessageId(n), p.binding.sessionId, p.binding.turnId)];
            && Chunks(longer, MessageId(k)) == Chunks(p.events, MessageId(k))
            && (HasStarted(longer, MessageId(k)) <==> HasStarted(p.events, MessageId(k)))
  {
    MessageIdsDiffer(k, n);
    OtherUntouched(p.events, Started(MessageId(n), p.binding.sessionId, p.binding.turnId), MessageId(k));
  }

  lemma StartLeavesBeyond(p: Projector, n: nat)
    requires 1 <= n <= MAX_MESSAGES_PER_TURN && NoneBeyond(p.events, n - 1)
    ensures NoneBeyond(p.events + [Started(MessageId(n), p.binding.sessionId, p.binding.turnId)], n)
  {
    var longer := p.events + [Started(MessageId(n), p.binding.sessionId, p.binding.turnId)];
    forall k: nat | n < k <= MAX_MESSAGES_PER_TURN ensures !HasStarted(longer, MessageId(k)) {
      StartLeavesOthers(p, n, k);
    }
  }

  lemma StartKeepsLog(sha: seq<byte> -> string, p: Projector, item: string)
    requires Inv(sha, p) && !p.terminal && |p.messages| < MAX_MESSAGES_PER_TURN
    ensures var q := StartMessage(p, item).0; LogInv(sha, q.binding, q.events, q.terminal, |q.messages|)
  {
    var n := |p.messages| + 1;
    var e := Started(MessageId(n), p.binding.sessionId, p.binding.turnId);
    MessageIdsAreValid(n);
    OrderedAppend(sha, p.events, e);
    ChunksAppend(p.events, e, MessageId(n));
    StartLeavesBeyond(p, n);
  }

  lemma StartKeepsRecord(sha: seq<byte> -> string, p: Projector, i: nat)
    requires Inv(sha, p) && |p.messages| < MAX_MESSAGES_PER_TURN && i < |p.messages|
    ensures MessageInv(sha, p.events + [Started(MessageId(|p.messages| + 1), p.binding.sessionId, p.binding.turnId)],
                       p.messages[i], i)
  {
    StartLeavesOthers(p, |p.messages| + 1, i + 1);
    assert MessageInv(sha, p.events, p.messages[i], i);
  }

  lemma DistinctAppend(messages: seq<ActiveMessage>, m: ActiveMessage)
    requires DistinctItems(messages) && Find(messages, m.providerMessageId).None?
    ensures DistinctItems(messages + [m]) && SumBytes(messages + [m]) == SumBytes(messages) + m.totalBytes
  {
    ButLast(messages, m);
  }

  lemma NewRecord(sha: seq<byte> -> string, log: seq<StreamEvent>, e: StreamEvent, m: ActiveMessage, i: nat)
    requires Ordered(sha, log) && e.Started? && !HasStarted(log, e.messageId)
    requires e.messageId == MessageId(i + 1)
             && m == ActiveMessage(false, None, e.messageId, m.providerMessageId, 0, [], 0)
    ensures MessageInv(sha, log + [e], m, i)
  {
    StartedMessageIsEmpty(sha, log, e);
  }

  lemma StartKeepsRecords(sha: seq<byte> -> string, p: Projector, m: ActiveMessage)
    requires Inv(sha, p) && !p.terminal && |p.messages| < MAX_MESSAGES_PER_TURN
    requires m == ActiveMessage(false, None, MessageId(|p.messages| + 1), m.providerMessageId, 0, [], 0)
    ensures AllRecorded(sha, p.events + [Started(m.messageId, p.binding.sessionId, p.binding.turnId)], p.messages + [m])
  {
    var e, messages := Started(m.messageId, p.binding.sessionId, p.binding.turnId), p.messages + [m];
    NewRecord(sha, p.events, e, m, |p.messages|);
    forall i | 0 <= i < |messages| ensures MessageInv(sha, p.events + [e], messages[i], i) {
      if i < |p.messages| { StartKeepsRecord(sha, p, i); }
    }
  }

  lemma StartKeepsMessages(sha: seq<byte> -> string, p: Projector, item: string)
    requires Inv(sha, p) && !p.terminal && |p.messages| < MAX_MESSAGES_PER_TURN && Find(p.messages, item).None?
    ensures MessagesInv(sha, StartMessage(p, item).0)
  {
    var m := ActiveMessage(false, None, MessageId(|p.messages| + 1), item, 0, [], 0);
    StartKeepsRecords(sha, p, m);
    DistinctAppend(p.messages, m);
  }

  lemma StartKeepsInv(sha: seq<byte> -> string, p: Projector, item: string)
    requires Inv(sha, p) && !p.terminal && Find(p.messages, item).None?
    ensures Inv(sha, StartMessage(p, item).0)
  {
    if |p.messages| < MAX_MESSAGES_PER_TURN {
      StartKeepsLog(sha, p, item);
      StartKeepsMessages(sha, p, item);
    }
  }

  /** A message that has not started has no content yet. */
  lemma StartedMessageIsEmpty(sha: seq<byte> -> string, log: seq<StreamEvent>, e: StreamEvent)
    requires Ordered(sha, log) && e.Started? && !HasStarted(log, e.messageId)
    ensures Chunks(log + [e], e.messageId) == [] && HasStarted(log + [e], e.messageId)
            && HasCompletions(log + [e]) == HasCompletions(log)
  {
    NotStartedNoChunks(sha, log, e.messageId);
    ChunksAppend(log, e, e.messageId);
  }

  lemma {:induction false} NotStartedNoChunks(sha: seq<byte> -> string, log: seq<StreamEvent>, id: string)
    requires Ordered(sha, log) && !HasStarted(log, id)
    ensures Chunks(log, id) == []
    decreases |log|
  {
    if log != [] {
      var before := log[..|log| - 1];
      var e := log[|log| - 1];
      assert log == before + [e];
      ChunksAppend(before, e, id);
      NotStartedNoChunks(sha, before, id);
    }
  }

  /** The record of a message that grows by some bytes. */
  lemma GrownRecord(sha: seq<byte> -> string, log: seq<StreamEvent>, longer: seq<StreamEvent>, m: ActiveMessage, i: nat,
          bytes: seq<byte>, count: nat)
    requires MessageInv(sha, log, m, i) && !m.completed && Extends(sha, log, longer, m.messageId, bytes, count)
    requires m.totalBytes + |bytes| <= MAX_MESSAGE_BYTES
    ensures MessageInv(sha, longer, m.(parts := m.parts + [bytes], totalBytes := m.totalBytes + |bytes|,
                                       nextSequence := m.nextSequence + count), i)
  {
    ConcatAppend(m.parts, bytes);
  }

  lemma OtherRecord(sha: seq<byte> -> string, log: seq<StreamEvent>, chunks: seq<StreamEvent>, id: string,
          m: ActiveMessage, k: nat)
    requires MessageInv(sha, log, m, k) && id != m.messageId
    requires forall j | 0 <= j < |chunks| :: chunks[j].Chunk? && chunks[j].messageId == id
    ensures MessageInv(sha, log + chunks, m, k)
  {
    OthersUntouched(log, chunks, id, m.messageId);
  }

  lemma AddKeepsRecord(sha: seq<byte> -> string, p: Projector, i: nat, bytes: seq<byte>, k: nat)
    requires Inv(sha, p) && !p.terminal && i < |p.messages| && k < |p.messages|
    requires p.messages[i].totalBytes + |bytes| <= MAX_MESSAGE_BYTES && !p.messages[i].completed
    ensures MessageInv(sha, AddPart(p, i, bytes).events, AddPart(p, i, bytes).messages[k], k)
  {
    var m := p.messages[i];
    var chunks := ChunkEvents(p.binding, m.messageId, bytes, m.nextSequence);
    assert MessageInv(sha, p.events, m, i) && MessageInv(sha, p.events, p.messages[k], k);
    if k == i {
      AllChunks(sha, p.binding, p.events, m.messageId, bytes);
      GrownRecord(sha, p.events, p.events + chunks, m, i, bytes, |chunks|);
    } else {
      MessageIdsDiffer(k + 1, i + 1);
      MessageIdsAreValid(i + 1);
      ChunksPassGuard(p.binding, m.messageId, bytes, m.nextSequence);
      OtherRecord(sha, p.events, chunks, m.messageId, p.messages[k], k);
    }
  }

  lemma AddKeepsMessages(sha: seq<byte> -> string, p: Projector, i: nat, bytes: seq<byte>)
    requires Inv(sha, p) && !p.terminal && i < |p.messages| && !p.messages[i].completed
    requires p.messages[i].totalBytes + |bytes| <= MAX_MESSAGE_BYTES && p.turnBytes + |bytes| <= MAX_TURN_BYTES
    ensures MessagesInv(sha, AddPart(p, i, bytes))
  {
    var q := AddPart(p, i, bytes);
    forall k | 0 <= k < |q.messages| ensures MessageInv(sha, q.events, q.messages[k], k) {
      AddKeepsRecord(sha, p, i, bytes, k);
    }
    SumUpdate(p.messages, i, q.messages[i]);
    SameItems(p.messages, q.messages);
  }

  lemma AddKeepsLog(sha: seq<byte> -> string, p: Projector, i: nat, bytes: seq<byte>)
    requires Inv(sha, p) && !p.terminal && i < |p.messages|
    ensures LogInv(sha, p.binding, AddPart(p, i, bytes).events, p.terminal, |p.messages|)
  {
    var m := p.messages[i];
    var chunks := ChunkEvents(p.binding, m.messageId, bytes, m.nextSequence);
    assert MessageInv(sha, p.events, m, i);
    MessageIdsAreValid(i + 1);
    AllChunks(sha, p.binding, p.events, m.messageId, bytes);
    ChunksPassGuard(p.binding, m.messageId, bytes, m.nextSequence);
    forall n: nat | |p.messages| < n <= MAX_MESSAGES_PER_TURN ensures !HasStarted(p.events + chunks, MessageId(n)) {
      MessageIdsDiffer(n, i + 1);
      OthersUntouched(p.events, chunks, m.messageId, MessageId(n));
    }
  }

  lemma PublishKeepsInv(sha: seq<byte> -> string, p: Projector, item: string, bytes: seq<byte>)
    requires Inv(sha, p) && !p.terminal
    ensures Inv(sha, Publish(p, item, bytes).0) && !Publish(p, item, bytes).0.terminal
  {
    if Find(p.messages, item).None? { StartKeepsInv(sha, p, item); }
    var q := if Find(p.messages, item).Some? then p else StartMessage(p, item).0;
    var at := Find(p.messages, item);
    var i := if at.Some? then at.value else |p.messages|;
    if i < |q.messages| && PublishTo(q, i, bytes).1.None? {
      AddKeepsLog(sha, q, i, bytes);
      AddKeepsMessages(sha, q, i, bytes);
    }
  }

  lemma EnsureKeepsInv(sha: seq<byte> -> string, p: Projector, item: string, text: seq<byte>)
    requires Inv(sha, p) && !p.terminal
    ensures Inv(sha, EnsureMessage(p, item, text).0)
  {
    if Find(p.messages, item).None? {
      if text == [] { StartKeepsInv(sha, p, item); } else { PublishKeepsInv(sha, p, item, text); }
    }
  }

  /** Distinctness depends on the provider's identifiers only. */
  lemma SameItems(before: seq<ActiveMessage>, after: seq<ActiveMessage>)
    requires |before| == |after| && DistinctItems(before)
    requires forall i | 0 <= i < |before| :: before[i].providerMessageId == after[i].providerMessageId
    ensures DistinctItems(after)
  {
  }

  lemma MarkKeepsInv(sha: seq<byte> -> string, p: Projector, i: nat)
    requires Inv(sha, p) && i < |p.messages|
    ensures Inv(sha, MarkCompleted(sha, p, i))
  {
    var messages := MarkCompleted(sha, p, i).messages;
    forall k | 0 <= k < |messages| ensures MessageInv(sha, p.events, messages[k], k) {
      assert MessageInv(sha, p.events, p.messages[k], k);
    }
    SumUpdate(p.messages, i, messages[i]);
    SameItems(p.messages, messages);
  }

  lemma CompleteOutcomes(sha: seq<byte> -> string, p: Projector, threadId: string, turnId: string, isAgentMessage: bool,
          item: string, text: seq<byte>)
    ensures var (q, after) := (EnsureMessage(p, item, text).0,
                               CompleteItem(sha, p, threadId, turnId, isAgentMessage, item, text).0);
            || after == p || (!p.terminal && after == q)
            || (!p.terminal && Find(q.messages, item).Some?
                && after == MarkCompleted(sha, q, Find(q.messages, item).value))
  {
  }

  lemma CompleteKeepsInv(sha: seq<byte> -> string, p: Projector, threadId: string, turnId: string, isAgentMessage: bool,
          item: string, text: seq<byte>)
    requires Inv(sha, p)
    ensures Inv(sha, CompleteItem(sha, p, threadId, turnId, isAgentMessage, item, text).0)
  {
    CompleteOutcomes(sha, p, threadId, turnId, isAgentMessage, item, text);
    if !p.terminal {
      var ready := EnsureMessage(p, item, text).0;
      EnsureKeepsInv(sha, p, item, text);
      if Find(ready.messages, item).Some? { MarkKeepsInv(sha, ready, Find(ready.messages, item).value); }
    }
  }

  // ---------------------------------------------------------------- completions

  function CompletionOf(b: Binding, m: ActiveMessage): StreamEvent
    requires m.digest.Some?
  {
    Completed(m.messageId, b.sessionId, b.turnId, m.digest.value, m.totalBytes)
  }

  predicate Publishable(sha: seq<byte> -> string, log: seq<StreamEvent>, m: ActiveMessage) {
    Recorded(log, m) && Digested(sha, m) && ValidResourceId(m.messageId)
  }

  lemma OneCompletion(sha: seq<byte> -> string, b: Binding, log: seq<StreamEvent>, messages: seq<ActiveMessage>)
    requires Ordered(sha, log) && messages != [] && Completable(messages[0])
    requires forall k | 0 <= k < |messages| :: Publishable(sha, log, messages[k])
    ensures var longer := log + [CompletionOf(b, messages[0])];
            Ordered(sha, longer) && forall k | 0 <= k < |messages| :: Publishable(sha, longer, messages[k])
  {
    var e := CompletionOf(b, messages[0]);
    assert Publishable(sha, log, messages[0]);
    OrderedAppend(sha, log, e);
    forall k | 0 <= k < |messages| ensures Publishable(sha, log + [e], messages[k]) {
      assert Publishable(sha, log, messages[k]);
      OtherUntouched(log, e, messages[k].messageId);
    }
  }

  lemma {:induction false} CompletionsKeepOrder(sha: seq<byte> -> string, b: Binding, log: seq<StreamEvent>,
          messages: seq<ActiveMessage>)
    requires Ordered(sha, log)
    requires forall i | 0 <= i < |messages| :: Publishable(sha, log, messages[i])
    ensures Ordered(sha, log + CompletionEvents(b, messages))
    decreases |messages|
  {
    if messages == [] || !Completable(messages[0]) {
      AppendEmpty(log);
    } else {
      var e, rest := CompletionOf(b, messages[0]), messages[1..];
      OneCompletion(sha, b, log, messages);
      forall i | 0 <= i < |rest| ensures Publishable(sha, log + [e], rest[i]) {
        assert rest[i] == messages[i + 1];
      }
      CompletionsKeepOrder(sha, b, log + [e], rest);
      var later := CompletionEvents(b, rest);
      assert CompletionEvents(b, messages) == [e] + later;
      AppendAssoc(log, [e], later);
    }
  }

  predicate GuardedCompletions(b: Binding, messages: seq<ActiveMessage>, completions: seq<StreamEvent>) {
    && |completions| <= |messages|
    && forall i | 0 <= i < |completions| ::
         messages[i].digest.Some? && completions[i] == CompletionOf(b, messages[i]) && PassesGuard(completions[i])
  }

  lemma CompletionPassesGuard(sha: seq<byte> -> string, b: Binding, log: seq<StreamEvent>, m: ActiveMessage)
    requires HexDigests(sha) && ValidBinding(b) && Publishable(sha, log, m) && m.digest.Some?
    ensures PassesGuard(CompletionOf(b, m))
  {
    assert IsHexDigest(sha(Concat(m.parts)));
  }

  lemma {:induction false} CompletionsPassGuard(sha: seq<byte> -> string, b: Binding, log: seq<StreamEvent>,
          messages: seq<ActiveMessage>)
    requires HexDigests(sha) && ValidBinding(b)
    requires forall i | 0 <= i < |messages| :: Publishable(sha, log, messages[i])
    ensures GuardedCompletions(b, messages, CompletionEvents(b, messages))
    decreases |messages|
  {
    if messages != [] && Completable(messages[0]) {
      var rest := messages[1..];
      assert Publishable(sha, log, messages[0]);
      CompletionPassesGuard(sha, b, log, messages[0]);
      forall i | 0 <= i < |rest| ensures Publishable(sha, log, rest[i]) {
        assert rest[i] == messages[i + 1];
      }
      CompletionsPassGuard(sha, b, log, rest);
      FirstGuarded(b, messages, CompletionEvents(b, rest));
    }
  }

  lemma FirstGuarded(b: Binding, messages: seq<ActiveMessage>, later: seq<StreamEvent>)
    requires messages != [] && messages[0].digest.Some? && PassesGuard(CompletionOf(b, messages[0]))
    requires GuardedCompletions(b, messages[1..], later)
    ensures GuardedCompletions(b, messages, [CompletionOf(b, messages[0])] + later)
  {
    var completions, rest := [CompletionOf(b, messages[0])] + later, messages[1..];
    forall i | 0 <= i < |completions|
      ensures messages[i].digest.Some? && completions[i] == CompletionOf(b, messages[i]) && PassesGuard(completions[i])
    {
      if i > 0 { assert completions[i] == later[i - 1] && rest[i - 1] == messages[i]; }
    }
  }

  lemma {:induction false} CompletionsLeaveContent(log: seq<StreamEvent>, more: seq<StreamEvent>, id: string)
    requires forall i | 0 <= i < |more| :: more[i].Completed?
    ensures Chunks(log + more, id) == Chunks(log, id) && (HasStarted(log + more, id) <==> HasStarted(log, id))
    decreases |more|
  {
    if more == [] {
      AppendEmpty(log);
    } else {
      MoveFirst(log, more);
      OtherUntouched(log, more[0], id);
      CompletionsLeaveContent(log + [more[0]], more[1..], id);
    }
  }

  lemma AllPublishable(sha: seq<byte> -> string, p: Projector)
    requires Inv(sha, p)
    ensures forall i | 0 <= i < |p.messages| :: Publishable(sha, p.events, p.messages[i])
  {
    forall i | 0 <= i < |p.messages| ensures Publishable(sha, p.events, p.messages[i]) {
      MessageIdsAreValid(i + 1);
      assert MessageInv(sha, p.events, p.messages[i], i);
    }
  }

  lemma CompletionsKeepRecords(sha: seq<byte> -> string, b: Binding, log: seq<StreamEvent>,
          messages: seq<ActiveMessage>, completions: seq<StreamEvent>)
    requires AllRecorded(sha, log, messages) && forall i | 0 <= i < |completions| :: completions[i].Completed?
    ensures AllRecorded(sha, log + completions, messages)
  {
    forall i | 0 <= i < |messages| ensures MessageInv(sha, log + completions, messages[i], i) {
      assert MessageInv(sha, log, messages[i], i);
      CompletionsLeaveContent(log, completions, messages[i].messageId);
    }
  }

  lemma GuardedAppend(b: Binding, log: seq<StreamEvent>, messages: seq<ActiveMessage>, completions: seq<StreamEvent>)
    requires AllGuarded(b, log) && GuardedCompletions(b, messages, completions)
    ensures AllGuarded(b, log + completions) && forall i | 0 <= i < |completions| :: completions[i].Completed?
  {
  }

  lemma CompletionsKeepInv(sha: seq<byte> -> string, p: Projector)
    requires Inv(sha, p)
    ensures Inv(sha, PublishCompletions(p).0)
  {
    if p.terminal {
      var completions := CompletionEvents(p.binding, p.messages);
      AllPublishable(sha, p);
      CompletionsKeepOrder(sha, p.binding, p.events, p.messages);
      CompletionsPassGuard(sha, p.binding, p.events, p.messages);
      GuardedAppend(p.binding, p.events, p.messages, completions);
      CompletionsKeepRecords(sha, p.binding, p.events, p.messages, completions);
    }
  }

  lemma EndingKeepsInv(sha: seq<byte> -> string, p: Projector)
    requires Inv(sha, p)
    ensures Inv(sha, FinishTurn(p).0) && Inv(sha, Abort(p))
  {
  }

  lemma NextKeepsInv(sha: seq<byte> -> string, p: Projector, op: Op)
    requires Inv(sha, p)
    ensures Inv(sha, Next(sha, p, op))
  {
    match op
    case Delta(threadId, turnId, item, delta) =>
      if !p.terminal { PublishKeepsInv(sha, p, item, delta); }
    case ItemCompleted(threadId, turnId, isAgentMessage, item, text) =>
      CompleteKeepsInv(sha, p, threadId, turnId, isAgentMessage, item, text);
    case TurnFinished => EndingKeepsInv(sha, p);
    case CompletionsPublished => CompletionsKeepInv(sha, p);
    case Aborted => EndingKeepsInv(sha, p);
  }

  lemma {:induction false} RunKeepsInv(sha: seq<byte> -> string, p: Projector, ops: seq<Op>)
    requires Inv(sha, p)
    ensures Inv(sha, Run(sha, p, ops))
    decreases |ops|
  {
    if ops != [] {
      NextKeepsInv(sha, p, ops[0]);
      RunKeepsInv(sha, Next(sha, p, ops[0]), ops[1..]);
    }
  }

  lemma InitialInv(sha: seq<byte> -> string, b: Binding)
    requires HexDigests(sha) && ValidBinding(b)
    ensures Inv(sha, Initial(b))
  {
  }
}
