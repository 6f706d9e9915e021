/** The answer projector, updated in place. */
module ChatStream {
  import opened Wrappers
  import opened Identifiers
  import opened Bytes
  import opened StreamWire
  import opened ProjectorRules

  class FinanceAssistantStreamProjector {
    const sha: seq<byte> -> string
    const binding: Binding
    var messages: seq<ActiveMessage>
    var terminal: bool
    var turnBytes: nat
    var events: seq<StreamEvent>

    function Model(): Projector
      reads this
    {
      Projector(binding, messages, terminal, turnBytes, events)
    }

    constructor (sha: seq<byte> -> string, binding: Binding)
      requires ValidBinding(binding)
      ensures Model() == Initial(binding) && this.sha == sha
    {
      this.sha := sha;
      this.binding := binding;
      messages, terminal, turnBytes, events := [], false, 0, [];
    }

    method StartMessage(item: string) returns (error: Option<StreamError>)
      modifies this
      ensures (Model(), error) == ProjectorRules.StartMessage(old(Model()), item)
    {
      if |messages| >= MAX_MESSAGES_PER_TURN { return Some(TooManyMessages); }
      var id := MessageId(|messages| + 1);
      messages := messages + [ActiveMessage(false, None, id, item, 0, [], 0)];
      events := events + [Started(id, binding.sessionId, binding.turnId)];
      error := None;
    }

    /** Adds content to the message at `i` and emits it in chunks. */
    method PublishTo(i: nat, bytes: seq<byte>) returns (error: Option<StreamError>)
      requires i < |messages|
      modifies this
      ensures (Model(), error) == ProjectorRules.PublishTo(old(Model()), i, bytes)
    {
      if messages[i].completed { return Some(LateContent); }
      if messages[i].totalBytes + |bytes| > MAX_MESSAGE_BYTES || turnBytes + |bytes| > MAX_TURN_BYTES {
        return Some(ContentTooLarge);
      }
      var m := messages[i];
      var all := m.(parts := m.parts + [bytes], totalBytes := m.totalBytes + |bytes|);
      turnBytes := turnBytes + |bytes|;
      var sequence := EmitChunks(m.messageId, bytes, m.nextSequence);
      messages := messages[i := all.(nextSequence := sequence)];
      error := None;
    }

    /** Emits one chunk after the other until no byte is left. */
    method EmitChunks(id: string, bytes: seq<byte>, first: nat) returns (sequence: nat)
      modifies this`events
      ensures events == old(events) + ChunkEvents(binding, id, bytes, first)
      ensures sequence == first + |ChunkEvents(binding, id, bytes, first)|
    {
      sequence := first;
      var offset := 0;
      assert bytes[0..] == bytes;
      while offset < |bytes|
        invariant 0 <= offset <= |bytes|
        invariant events + ChunkEvents(binding, id, bytes[offset..], sequence)
                  == old(events) + ChunkEvents(binding, id, bytes, first)
        invariant sequence + |ChunkEvents(binding, id, bytes[offset..], sequence)|
                  == first + |ChunkEvents(binding, id, bytes, first)|
      {
        var end := if offset + MAX_CHUNK_BYTES < |bytes| then offset + MAX_CHUNK_BYTES else |bytes|;
        FirstChunk(binding, id, bytes[offset..], sequence);
        assert bytes[offset..end] == FirstChunkBytes(bytes[offset..]) && bytes[end..] == LaterBytes(bytes[offset..]);
        events := events + [ChunkEvent(binding, id, bytes[offset..end], sequence)];
        sequence := sequence + 1;
        offset := end;
      }
    }

    method Publish(item: string, bytes: seq<byte>) returns (error: Option<StreamError>)
      modifies this
      ensures (Model(), error) == ProjectorRules.Publish(old(Model()), item, bytes)
    {
      var at := Find(messages, item);
      var i := if at.Some? then at.value else |messages|;
      if at.None? {
        error := StartMessage(item);
        if error.Some? { return; }
      }
      error := PublishTo(i, bytes);
    }

    method ReceiveDelta(threadId: string, turnId: string, item: string, delta: seq<byte>)
      returns (error: Option<StreamError>)
      modifies this
      ensures (Model(), error) == ProjectorRules.ReceiveDelta(old(Model()), threadId, turnId, item, delta)
    {
      if terminal { return Some(StreamTerminal); }
      if threadId != binding.providerThreadId || turnId != binding.providerTurnId {
        return Some(ProviderBindingMismatch);
      }
      if !ValidResourceId(item) { return Some(InvalidIdentifier); }
      if |delta| == 0 { return None; }
      error := Publish(item, delta);
    }

    method CompleteItem(threadId: string, turnId: string, isAgentMessage: bool, item: string, text: seq<byte>)
      returns (r: Result<bool, StreamError>)
      modifies this
      ensures (Model(), r) == ProjectorRules.CompleteItem(sha, old(Model()), threadId, turnId, isAgentMessage, item,
                                                          text)
    {
      if terminal { return Err(StreamTerminal); }
      if threadId != binding.providerThreadId || turnId != binding.providerTurnId {
        return Err(ProviderBindingMismatch);
      }
      if !isAgentMessage { return Ok(false); }
      if !ValidResourceId(item) { return Err(InvalidIdentifier); }
      if Find(messages, item).None? {
        var error: Option<StreamError>;
        if |text| > 0 { error := Publish(item, text); } else { error := StartMessage(item); }
        if error.Some? { return Err(error.value); }
      }
      assert Model() == EnsureMessage(old(Model()), item, text).0 && EnsureMessage(old(Model()), item, text).1.None?;
      var at := Find(messages, item);
      var m := messages[at.value];
      if m.completed { return Err(DuplicateCompletion); }
      if Concat(m.parts) != text { return Err(ContentMismatch); }
      messages := messages[at.value := m.(completed := true, digest := Some(sha(Concat(m.parts))))];
      r := Ok(true);
    }

    method FinishTurn() returns (r: Result<seq<CompletedMessage>, StreamError>)
      modifies this`terminal
      ensures (Model(), r) == ProjectorRules.FinishTurn(old(Model()))
    {
      if terminal { return Err(StreamTerminal); }
      if !AllCompleted(messages) { return Err(IncompleteMessage); }
      terminal := true;
      r := Ok(Answers(messages));
    }

    method PublishCompletions() returns (error: Option<StreamError>)
      modifies this`events
      ensures (Model(), error) == ProjectorRules.PublishCompletions(old(Model()))
    {
      if !terminal { return Some(StreamTerminal); }
      var i := 0;
      assert messages[0..] == messages;
      while i < |messages|
        invariant 0 <= i <= |messages|
        invariant events + CompletionEvents(binding, messages[i..]) == old(events) + CompletionEvents(binding, messages)
        invariant |CompletionEvents(binding, messages)| == i + |CompletionEvents(binding, messages[i..])|
      {
        var m := messages[i];
        if !Completable(m) {
          assert events + [] == events;
          return Some(IncompleteMessage);
        }
        assert messages[i..][1..] == messages[i + 1..];
        events := events + [Completed(m.messageId, binding.sessionId, binding.turnId, m.digest.value, m.totalBytes)];
        i := i + 1;
      }
      assert messages[i..] == [] && events + [] == events;
      error := None;
    }

    method Abort()
      modifies this
      ensures Model() == ProjectorRules.Abort(old(Model()))
    {
      terminal := true;
      messages := [];
    }
  }
}
