/** The answer projector as functions on its state: provider deltas become numbered chunks of canonical bytes. */
module ProjectorRules {
  import opened Wrappers
  import opened Identifiers
  import opened Bytes
  import opened StreamWire
  import Base64

  const MAX_TURN_BYTES := 1024 * 1024
  const MAX_MESSAGES_PER_TURN := 8

  datatype StreamError =
    | ContentMismatch | ContentTooLarge | DuplicateCompletion | IncompleteMessage | InvalidIdentifier
    | LateContent | ProviderBindingMismatch | StreamTerminal | TooManyMessages

  datatype Binding = Binding(providerThreadId: string, providerTurnId: string, sessionId: string, turnId: string)

  datatype ActiveMessage = ActiveMessage(
    completed: bool,
    digest: Option<string>,
    messageId: string,
    providerMessageId: string,
    nextSequence: nat,
    parts: seq<seq<byte>>,
    totalBytes: nat)

  datatype CompletedMessage = CompletedMessage(messageId: string, sha256: string, text: seq<byte>)

  /** `messages` is in the order the messages started; `events` is what has been emitted. */
  datatype Projector = Projector(
    binding: Binding,
    messages: seq<ActiveMessage>,
    terminal: bool,
    turnBytes: nat,
    events: seq<StreamEvent>)

  predicate ValidBinding(b: Binding) {
    ValidResourceId(b.providerThreadId) && ValidResourceId(b.providerTurnId)
    && ValidResourceId(b.sessionId) && ValidResourceId(b.turnId)
  }

  function Initial(b: Binding): Projector {
    Projector(b, [], false, 0, [])
  }

  function DecimalText(n: nat): string {
    if n < 10 then ['0' + n as char] else DecimalText(n / 10) + ['0' + (n % 10) as char]
  }

  function MessageId(n: nat): string {
    "message_" + DecimalText(n)
  }

  /** The place of a provider item among the messages. */
  function Find(messages: seq<ActiveMessage>, item: string): (at: Option<nat>)
    ensures at.Some? ==> at.value < |messages| && messages[at.value].providerMessageId == item
    ensures at.None? ==> forall i | 0 <= i < |messages| :: messages[i].providerMessageId != item
  {
    FindFrom(messages, item, 0)
  }

  function FindFrom(messages: seq<ActiveMessage>, item: string, i: nat): (at: Option<nat>)
    requires i <= |messages|
    ensures at.Some? ==> i <= at.value < |messages| && messages[at.value].providerMessageId == item
    ensures at.None? ==> forall k | i <= k < |messages| :: messages[k].providerMessageId != item
    decreases |messages| - i
  {
    if i == |messages| then None
    else if messages[i].providerMessageId == item then Some(i)
    else FindFrom(messages, item, i + 1)
  }

  function StartMessage(p: Projector, item: string): (r: (Projector, Option<StreamError>))
    ensures r.1.None? ==> |r.0.messages| == |p.messages| + 1 && r.0.messages[|p.messages|].providerMessageId == item
  {
    if |p.messages| >= MAX_MESSAGES_PER_TURN then (p, Some(TooManyMessages))
    else
      var id := MessageId(|p.messages| + 1);
      (p.(messages := p.messages + [ActiveMessage(false, None, id, item, 0, [], 0)],
          events := p.events + [Started(id, p.binding.sessionId, p.binding.turnId)]), None)
  }

  function ChunkEvent(b: Binding, id: string, bytes: seq<byte>, sequence: nat): StreamEvent {
    Chunk(id, b.sessionId, b.turnId, Base64.Encode(Base64.Standard, bytes), |bytes|, sequence)
  }

  /** The chunks of some bytes, numbered from `sequence`. */
  function ChunkEvents(b: Binding, id: string, bytes: seq<byte>, sequence: nat): seq<StreamEvent>
    decreases |bytes|
  {
    if bytes == [] then []
    else if |bytes| <= MAX_CHUNK_BYTES then [ChunkEvent(b, id, bytes, sequence)]
    else
      [ChunkEvent(b, id, bytes[..MAX_CHUNK_BYTES], sequence)]
      + ChunkEvents(b, id, bytes[MAX_CHUNK_BYTES..], sequence + 1)
  }

  function FirstChunkBytes(bytes: seq<byte>): seq<byte> {
    if |bytes| <= MAX_CHUNK_BYTES then bytes else bytes[..MAX_CHUNK_BYTES]
  }

  function LaterBytes(bytes: seq<byte>): seq<byte> {
    if |bytes| <= MAX_CHUNK_BYTES then [] else bytes[MAX_CHUNK_BYTES..]
  }

  lemma FirstChunk(b: Binding, id: string, bytes: seq<byte>, sequence: nat)
    requires bytes != []
    ensures ChunkEvents(b, id, bytes, sequence)
         == [ChunkEvent(b, id, FirstChunkBytes(bytes), sequence)] + ChunkEvents(b, id, LaterBytes(bytes), sequence + 1)
    ensures 1 <= |FirstChunkBytes(bytes)| <= MAX_CHUNK_BYTES && FirstChunkBytes(bytes) + LaterBytes(bytes) == bytes
  {
  }

  function AddPart(p: Projector, i: nat, bytes: seq<byte>): Projector
    requires i < |p.messages|
  {
    var m := p.messages[i];
    var chunks := ChunkEvents(p.binding, m.messageId, bytes, m.nextSequence);
    p.(messages := p.messages[i := m.(parts := m.parts + [bytes], totalBytes := m.totalBytes + |bytes|,
                                      nextSequence := m.nextSequence + |chunks|)],
       turnBytes := p.turnBytes + |bytes|,
       events := p.events + chunks)
  }

  function PublishTo(p: Projector, i: nat, bytes: seq<byte>): (Projector, Option<StreamError>)
    requires i < |p.messages|
  {
    if p.messages[i].completed then (p, Some(LateContent))
    else if p.messages[i].totalBytes + |bytes| > MAX_MESSAGE_BYTES || p.turnBytes + |bytes| > MAX_TURN_BYTES
    then (p, Some(ContentTooLarge))
    else (AddPart(p, i, bytes), None)
  }

  function Publish(p: Projector, item: string, bytes: seq<byte>): (r: (Projector, Option<StreamError>))
    ensures r.1.None? ==> exists i | 0 <= i < |r.0.messages| :: r.0.messages[i].providerMessageId == item
  {
    match Find(p.messages, item)
    case Some(i) =>
      assert PublishTo(p, i, bytes).0.messages[i].providerMessageId == item;
      PublishTo(p, i, bytes)
    case None =>
      var (started, error) := StartMessage(p, item);
      if error.Some? then (started, error)
      else
        assert PublishTo(started, |p.messages|, bytes).0.messages[|p.messages|].providerMessageId == item;
        PublishTo(started, |p.messages|, bytes)
  }

  /** Why an incoming notification is refused before it is looked at. */
  function Refusal(p: Projector, threadId: string, turnId: string): Option<StreamError> {
    if p.terminal then Some(StreamTerminal)
    else if threadId != p.binding.providerThreadId || turnId != p.binding.providerTurnId
    then Some(ProviderBindingMismatch)
    else None
  }

  function ReceiveDelta(p: Projector, threadId: string, turnId: string, item: string, delta: seq<byte>)
    : (Projector, Option<StreamError>)
  {
    if Refusal(p, threadId, turnId).Some? then (p, Refusal(p, threadId, turnId))
    else if !ValidResourceId(item) then (p, Some(InvalidIdentifier))
    else if delta == [] then (p, None)
    else Publish(p, item, delta)
  }

  /** The message an item completes: an unseen one is published, or started empty, first. */
  function EnsureMessage(p: Projector, item: string, text: seq<byte>): (r: (Projector, Option<StreamError>))
    ensures r.1.None? ==> Find(r.0.messages, item).Some?
  {
    if Find(p.messages, item).Some? then (p, None)
    else if text == [] then StartMessage(p, item)
    else Publish(p, item, text)
  }

  function MarkCompleted(sha: seq<byte> -> string, p: Projector, i: nat): Projector
    requires i < |p.messages|
  {
    var m := p.messages[i];
    p.(messages := p.messages[i := m.(completed := true, digest := Some(sha(Concat(m.parts))))])
  }

  function CompleteItem(sha: seq<byte> -> string, p: Projector, threadId: string, turnId: string, isAgentMessage: bool,
          item: string, text: seq<byte>): (Projector, Result<bool, StreamError>)
  {
    if Refusal(p, threadId, turnId).Some? then (p, Err(Refusal(p, threadId, turnId).value))
    else if !isAgentMessage then (p, Ok(false))
    else if !ValidResourceId(item) then (p, Err(InvalidIdentifier))
    else
      var (q, error) := EnsureMessage(p, item, text);
      if error.Some? then (q, Err(error.value))
      else
        var i := Find(q.messages, item).value;
        var m := q.messages[i];
        if m.completed then (q, Err(DuplicateCompletion))
        else if Concat(m.parts) != text then (q, Err(ContentMismatch))
        else (MarkCompleted(sha, q, i), Ok(true))
  }

  predicate AllCompleted(messages: seq<ActiveMessage>) {
    forall i | 0 <= i < |messages| :: messages[i].completed
  }

  function FinishTurn(p: Projector): (Projector, Result<seq<CompletedMessage>, StreamError>) {
    if p.terminal then (p, Err(StreamTerminal))
    else if !AllCompleted(p.messages) then (p, Err(IncompleteMessage))
    else
      (p.(terminal := true),
       Ok(Answers(p.messages)))
  }

  function Answer(m: ActiveMessage): CompletedMessage {
    CompletedMessage(m.providerMessageId, if m.digest.Some? then m.digest.value else "", Concat(m.parts))
  }

  function Answers(messages: seq<ActiveMessage>): seq<CompletedMessage> {
    if messages == [] then [] else [Answer(messages[0])] + Answers(messages[1..])
  }

  predicate Completable(m: ActiveMessage) {
    m.completed && m.digest.Some? && m.digest.value != ""
  }

  /** The completions that are emitted: they stop before the first message that is not complete. */
  function CompletionEvents(b: Binding, messages: seq<ActiveMessage>): seq<StreamEvent> {
    if messages == [] || !Completable(messages[0]) then []
    else
      [Completed(messages[0].messageId, b.sessionId, b.turnId, messages[0].digest.value, messages[0].totalBytes)]
      + CompletionEvents(b, messages[1..])
  }

  function PublishCompletions(p: Projector): (Projector, Option<StreamError>) {
    if !p.terminal then (p, Some(StreamTerminal))
    else
      var completions := CompletionEvents(p.binding, p.messages);
      (p.(events := p.events + completions), if |completions| < |p.messages| then Some(IncompleteMessage) else None)
  }

  function Abort(p: Projector): Projector {
    p.(terminal := true, messages := [])
  }

  // ---------------------------------------------------------------- runs

  datatype Op =
    | Delta(threadId: string, turnId: string, item: string, delta: seq<byte>)
    | ItemCompleted(threadId: string, turnId: string, isAgentMessage: bool, item: string, text: seq<byte>)
    | TurnFinished
    | CompletionsPublished
    | Aborted

  function Next(sha: seq<byte> -> string, p: Projector, op: Op): Projector {
    match op
    case Delta(threadId, turnId, item, delta) => ReceiveDelta(p, threadId, turnId, item, delta).0
    case ItemCompleted(threadId, turnId, isAgentMessage, item, text) =>
      CompleteItem(sha, p, threadId, turnId, isAgentMessage, item, text).0
    case TurnFinished => FinishTurn(p).0
    case CompletionsPublished => PublishCompletions(p).0
    case Aborted => Abort(p)
  }

  function Run(sha: seq<byte> -> string, p: Projector, ops: seq<Op>): Projector
    decreases |ops|
  {
    if ops == [] then p else Run(sha, Next(sha, p, ops[0]), ops[1..])
  }
}
