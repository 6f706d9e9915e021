/** The conversation service: each request changes the stored conversation and its turns step by step, or nothing. */
module AssistantConversations {
  import opened Wrappers
  import opened Bytes
  import opened Sequences
  import opened ConversationRules

  class AssistantConversationService {
    const texts: Texts
    var conversations: map<nat, Conversation>
    var turns: map<string, Turn>

    ghost function Model(): Store
      reads this
    {
      Store(conversations, turns)
    }

    constructor (texts: Texts)
      ensures this.texts == texts && Model() == EMPTY_STORE
    {
      this.texts := texts;
      conversations, turns := map[], map[];
    }

    method LockConversation(id: nat) returns (c: Option<Conversation>)
      ensures c == if Exists(Model(), id) then Some(conversations[id]) else None
    {
      if id !in conversations || conversations[id].status == Deleted { return None; }
      c := Some(conversations[id]);
    }

    method LockTurn(id: nat, turnId: string) returns (turn: Option<Turn>)
      ensures turn == if TurnExists(Model(), id, turnId) then Some(turns[turnId]) else None
    {
      if turnId !in turns || turns[turnId].conversation != id { return None; }
      turn := Some(turns[turnId]);
    }

    /** Adds to the audit log of a conversation. */
    method AddEvent(id: nat, kind: EventKind, turnId: Option<string>)
      requires id in conversations
      modifies this`conversations
      ensures conversations == old(conversations)[id := Record(old(conversations)[id], kind, turnId)]
    {
      var c := conversations[id];
      conversations := conversations[id := c.(events := c.events + [Event(kind, turnId)])];
    }

    method UpdateConversation(id: nat, expectedVersion: nat, title: Option<string>, status: Option<ConversationStatus>)
      returns (error: Option<Error>)
      modifies this
      ensures (Model(), error) == Update(texts, old(Model()), id, expectedVersion, title, status)
    {
      if (title.None? && status.None?) || status == Some(Deleted) { return Some(InvalidRequest); }
      var found := LockConversation(id);
      if found.None? { return Some(ConversationNotFound); }
      var c := found.value;
      if c.version != expectedVersion { return Some(StaleConversation); }
      var kind: Option<EventKind> := None;
      if title.Some? {
        var normal := texts.normalize(title.value);
        if normal.None? { return Some(InvalidTitle); }
        if normal.value != c.title {
          c := c.(title := normal.value);
          kind := Some(Renamed);
        }
      }
      if status.Some? && status.value != c.status {
        c := c.(status := status.value);
        kind := Some(if status.value == Archived then WasArchived else Restored);
      }
      error := None;
      if kind.None? { return; }
      conversations := conversations[id := c.(version := c.version + 1)];
      AddEvent(id, kind.value, None);
      assert conversations == old(conversations)[id := conversations[id]];
    }

    method DeleteContent(id: nat) returns (error: Option<Error>)
      modifies this
      ensures (Model(), error) == DeleteLocalContent(old(Model()), id)
    {
      var found := LockConversation(id);
      if found.None? { return Some(ConversationNotFound); }
      turns := map t | t in turns && turns[t].conversation != id :: turns[t];
      var c := found.value.(messages := [], runtime := None);
      c := c.(title := DELETED_TITLE, status := Deleted, messageCount := 0, version := c.version + 1);
      conversations := conversations[id := c];
      AddEvent(id, WasDeleted, None);
      assert conversations == old(conversations)[id := conversations[id]];
      error := None;
    }

    method Bind(id: nat, runtime: Runtime) returns (error: Option<Error>)
      modifies this
      ensures (Model(), error) == BindRuntime(old(Model()), id, runtime)
    {
      var found := LockConversation(id);
      if found.None? { return Some(ConversationNotFound); }
      var c := found.value;
      if c.runtime.None? {
        if ThreadBound(Store(conversations, turns), runtime.threadId) { return Some(ThreadConflict); }
        c := c.(runtime := Some(runtime));
      } else if c.runtime.value.threadId != runtime.threadId {
        return Some(ThreadConflict);
      } else {
        c := c.(runtime := Some(c.runtime.value.(model := runtime.model, effort := runtime.effort,
                                                 tier := runtime.tier)));
      }
      conversations := conversations[id := c];
      AddEvent(id, ProviderBound, None);
      assert conversations == old(conversations)[id := conversations[id]];
      error := None;
    }

    method Reserve(id: nat, turnId: string, prompt: seq<byte>) returns (r: Result<bool, Error>)
      modifies this
      ensures (Model(), r) == ReserveTurn(texts, old(Model()), id, turnId, prompt)
    {
      var fingerprint := texts.sha(prompt);
      var found := LockConversation(id);
      if turnId in turns {
        if found.None? { return Err(ConversationNotFound); }
        if turns[turnId].conversation != id || turns[turnId].fingerprint != fingerprint {
          return Err(IdempotencyConflict);
        }
        return Ok(true);
      }
      if found.None? { return Err(ConversationNotFound); }
      var c := found.value;
      if c.status != Active { return Err(NotActive); }
      var sequence := c.messageCount + 1;
      c := c.(messages := c.messages + [Message(turnId, None, sequence, User, prompt, fingerprint)]);
      turns := turns[turnId := Turn(id, sequence, Reserved, fingerprint, None)];
      c := c.(messageCount := sequence, version := c.version + 1);
      if c.title == DEFAULT_TITLE { c := c.(title := texts.titleOf(prompt)); }
      conversations := conversations[id := c];
      AddEvent(id, TurnReserved, Some(turnId));
      assert conversations == old(conversations)[id := conversations[id]];
      r := Ok(false);
    }

    /** Adds up the bytes and checks each answer on the way. */
    method Check(answers: seq<Answer>) returns (error: Option<Error>)
      ensures error == CheckAnswers(texts, answers)
    {
      var total := 0;
      for i := 0 to |answers|
        invariant total == TotalBytes(answers[..i]) && CheckAnswers(texts, answers[..i]).None?
      {
        assert answers[..i + 1][..i] == answers[..i];
        total := total + |answers[i].text|;
        if CheckAnswers(texts, answers[..i + 1]).Some? { FirstErrorStays(texts, answers, i + 1); }
        if |answers[i].text| > MAX_MESSAGE_BYTES || total > MAX_TURN_BYTES { return Some(MessageTooLarge); }
        if texts.sha(answers[i].text) != answers[i].sha256 { return Some(DigestMismatch); }
      }
      TakeAll(answers);
      error := None;
    }

    /** Numbers the answers on from the messages there are. */
    method NumberAnswers(turnId: string, answers: seq<Answer>, messages: seq<Message>, count: nat)
      returns (grown: seq<Message>, sequence: nat)
      ensures grown == messages + Block(turnId, answers, count) && sequence == count + |answers|
    {
      grown, sequence := messages, count;
      for i := 0 to |answers|
        invariant sequence == count + i && grown == messages + Block(turnId, answers[..i], count)
      {
        assert answers[..i + 1][..i] == answers[..i];
        sequence := sequence + 1;
        var m := Message(turnId, Some(answers[i].messageId), sequence, Assistant, answers[i].text, answers[i].sha256);
        assert Block(turnId, answers[..i + 1], count) == Block(turnId, answers[..i], count) + [m];
        AppendAssoc(messages, Block(turnId, answers[..i], count), [m]);
        grown := grown + [m];
      }
      TakeAll(answers);
    }

    method Complete(id: nat, turnId: string, providerTurnId: string, answers: seq<Answer>)
      returns (error: Option<Error>)
      modifies this
      ensures (Model(), error) == CompleteTurn(texts, old(Model()), id, turnId, providerTurnId, answers)
    {
      if |answers| < 1 || |answers| > 8 { return Some(InvalidRequest); }
      var found := LockConversation(id);
      if found.None? { return Some(ConversationNotFound); }
      var turn := LockTurn(id, turnId);
      if turn.None? { return Some(TurnNotFound); }
      if turn.value.status == Completed {
        if turn.value.providerTurnId != Some(providerTurnId) || AnswersOf(found.value.messages, turnId) != answers {
          return Some(IdempotencyConflict);
        }
        return None;
      }
      if turn.value.status != Reserved && turn.value.status != Running { return Some(TurnTerminal); }
      error := Check(answers);
      if error.Some? { return; }
      if !DistinctIds(answers) { return Some(ConstraintViolated); }
      var grown, sequence := NumberAnswers(turnId, answers, found.value.messages, found.value.messageCount);
      turns := turns[turnId := turn.value.(status := Completed, providerTurnId := Some(providerTurnId))];
      conversations := conversations[id := found.value.(messages := grown, messageCount := sequence,
                                                        version := found.value.version + 1)];
      AddEvent(id, TurnCompleted, Some(turnId));
      assert conversations == old(conversations)[id := conversations[id]];
    }

    method Fail(id: nat, turnId: string, interrupted: bool) returns (error: Option<Error>)
      modifies this
      ensures (Model(), error) == FailTurn(old(Model()), id, turnId, interrupted)
    {
      var found := LockConversation(id);
      if found.None? { return Some(ConversationNotFound); }
      var turn := LockTurn(id, turnId);
      if turn.None? { return Some(TurnNotFound); }
      error := None;
      if turn.value.status in {Completed, Interrupted, Failed} { return; }
      turns := turns[turnId := turn.value.(status := if interrupted then Interrupted else Failed)];
      conversations := conversations[id := found.value.(version := found.value.version + 1)];
      AddEvent(id, if interrupted then TurnInterrupted else TurnFailed, Some(turnId));
      assert conversations == old(conversations)[id := conversations[id]];
    }
  }

  lemma {:induction false} FirstErrorStays(texts: Texts, answers: seq<Answer>, k: nat)
    requires k <= |answers| && CheckAnswers(texts, answers[..k]).Some?
    ensures CheckAnswers(texts, answers) == CheckAnswers(texts, answers[..k])
    decreases |answers|
  {
    if k == |answers| {
      TakeAll(answers);
    } else {
      TakeTake(answers, |answers| - 1, k);
      FirstErrorStays(texts, answers[..|answers| - 1], k);
    }
  }
}
