/** What every run of the conversation store keeps: dense message numbers, versions that count the audit log, one
    block of answers after each completed prompt, and turns that end once and are completed and reserved
    idempotently. */
module ConversationRuns {
  import opened Wrappers
  import opened Bytes
  import opened Sequences
  import opened ConversationRules

  // ---------------------------------------------------------------- one conversation

  predicate Numbered(c: Conversation) {
    |c.messages| == c.messageCount && forall i | 0 <= i < |c.messages| :: c.messages[i].sequence == i + 1
  }

  predicate Counts(e: Event) {
    e.kind !in {Created, ProviderBound}
  }

  function CountedEvents(events: seq<Event>): nat {
    if events == [] then 0
    else CountedEvents(events[..|events| - 1]) + if Counts(events[|events| - 1]) then 1 else 0
  }

  predicate Ends(e: Event, turnId: string) {
    e.kind in {TurnCompleted, TurnInterrupted, TurnFailed} && e.turnId == Some(turnId)
  }

  /** How often the log says that a turn ended. */
  function Endings(events: seq<Event>, turnId: string): nat {
    if events == [] then 0
    else Endings(events[..|events| - 1], turnId) + if Ends(events[|events| - 1], turnId) then 1 else 0
  }

  predicate Versioned(c: Conversation) {
    c.version == 1 + CountedEvents(c.events)
  }

  /** Exactly the messages from `start` on, `count` of them, are answers of the turn. */
  predicate AnswersAre(messages: seq<Message>, turnId: string, start: nat, count: nat) {
    start + count <= |messages| && forall i | 0 <= i < |messages| ::
        IsAnswer(messages[i], turnId) <==> start <= i < start + count
  }

  ghost predicate HasBlock(messages: seq<Message>, turnId: string, prompt: nat) {
    exists start: nat, count: nat :: prompt <= start && 1 <= count && AnswersAre(messages, turnId, start, count)
  }

  /** The turn's prompt is stored where it says, and its answers are one block after it, or none if it is not
      completed. */
  ghost predicate TurnOk(texts: Texts, messages: seq<Message>, turnId: string, turn: Turn) {
    && 1 <= turn.prompt <= |messages|
    && messages[turn.prompt - 1]
       == Message(turnId, None, turn.prompt, User, messages[turn.prompt - 1].text, turn.fingerprint)
    && turn.fingerprint == texts.sha(messages[turn.prompt - 1].text)
    && (turn.status == Completed ==> turn.providerTurnId.Some? && HasBlock(messages, turnId, turn.prompt))
    && (turn.status != Completed ==> forall i | 0 <= i < |messages| :: !IsAnswer(messages[i], turnId))
  }

  ghost predicate TurnsOk(texts: Texts, messages: seq<Message>, turns: map<string, Turn>) {
    forall t | t in turns :: TurnOk(texts, messages, t, turns[t])
  }

  /** Every message is of a turn of this conversation; each turn has one prompt; answers have provider identifiers. */
  predicate MessageOk(m: Message, i: nat, turns: map<string, Turn>) {
    && m.turnId in turns
    && (m.role == User ==> turns[m.turnId].prompt == i + 1)
    && (m.role == Assistant ==> m.providerMessageId.Some?)
  }

  predicate MessagesOk(messages: seq<Message>, turns: map<string, Turn>) {
    forall i | 0 <= i < |messages| :: MessageOk(messages[i], i, turns)
  }

  predicate EndingsOk(c: Conversation, turns: map<string, Turn>, turnId: string) {
    && Endings(c.events, turnId) <= 1
    && (c.status != Deleted ==> (Endings(c.events, turnId) == 1
                                 <==> turnId in turns && IsTerminal(turns[turnId].status)))
  }

  /** The invariant of one conversation and its turns. */
  ghost predicate ConversationInv(texts: Texts, c: Conversation, turns: map<string, Turn>) {
    && Numbered(c) && Versioned(c)
    && (c.status == Deleted ==> c.messages == [] && c.runtime == None && turns == map[])
    && MessagesOk(c.messages, turns)
    && TurnsOk(texts, c.messages, turns)
    && (forall t :: EndingsOk(c, turns, t))
  }

  lemma EventAppended(events: seq<Event>, e: Event)
    ensures CountedEvents(events + [e]) == CountedEvents(events) + if Counts(e) then 1 else 0
    ensures forall t :: Endings(events + [e], t) == Endings(events, t) + if Ends(e, t) then 1 else 0
  {
    ButLast(events, e);
  }

  /** An event that neither ends a turn nor touches the messages. */
  lemma RecordingKeeps(texts: Texts, before: Conversation, after: Conversation, e: Event, turns: map<string, Turn>)
    requires ConversationInv(texts, before, turns) && before.status != Deleted && after.status != Deleted
    requires after.messages == before.messages && after.messageCount == before.messageCount
    requires after.events == before.events + [e] && (forall t :: !Ends(e, t))
    requires after.version == before.version + if Counts(e) then 1 else 0
    ensures ConversationInv(texts, after, turns)
  {
    EventAppended(before.events, e);
    forall t ensures EndingsOk(after, turns, t) {
      assert EndingsOk(before, turns, t);
    }
  }

  lemma BlockStays(messages: seq<Message>, more: seq<Message>, turnId: string, prompt: nat)
    requires HasBlock(messages, turnId, prompt) && forall i | 0 <= i < |more| :: !IsAnswer(more[i], turnId)
    ensures HasBlock(messages + more, turnId, prompt)
  {
    var start: nat, count: nat :| prompt <= start && 1 <= count && AnswersAre(messages, turnId, start, count);
    assert AnswersAre(messages + more, turnId, start, count);
  }

  /** Messages of other turns leave a turn as it is. */
  lemma TurnStaysOk(texts: Texts, messages: seq<Message>, more: seq<Message>, turnId: string, turn: Turn)
    requires TurnOk(texts, messages, turnId, turn) && forall i | 0 <= i < |more| :: !IsAnswer(more[i], turnId)
    ensures TurnOk(texts, messages + more, turnId, turn)
  {
    if turn.status == Completed { BlockStays(messages, more, turnId, turn.prompt); }
  }

  function PromptOf(texts: Texts, turnId: string, prompt: seq<byte>, sequence: nat): Message {
    Message(turnId, None, sequence, User, prompt, texts.sha(prompt))
  }

  lemma NewTurnOk(texts: Texts, messages: seq<Message>, turns: map<string, Turn>, id: nat, turnId: string,
          prompt: seq<byte>)
    requires MessagesOk(messages, turns) && turnId !in turns
    ensures var n := |messages| + 1;
            TurnOk(texts, messages + [PromptOf(texts, turnId, prompt, n)], turnId,
                   Turn(id, n, Reserved, texts.sha(prompt), None))
  {
    var all := messages + [PromptOf(texts, turnId, prompt, |messages| + 1)];
    forall i | 0 <= i < |all| ensures !IsAnswer(all[i], turnId) {
      if i < |messages| { assert MessageOk(messages[i], i, turns); }
    }
  }

  lemma ReservingKeeps(texts: Texts, before: Conversation, after: Conversation, turns: map<string, Turn>, id: nat,
          turnId: string, prompt: seq<byte>)
    requires ConversationInv(texts, before, turns) && before.status == Active && turnId !in turns
    requires var n := before.messageCount + 1;
             after == before.(messages := before.messages + [PromptOf(texts, turnId, prompt, n)], messageCount := n,
                              title := after.title,
                              version := before.version + 1, events := before.events
                                + [Event(TurnReserved, Some(turnId))])
    ensures ConversationInv(texts, after, turns[turnId := Turn(id, before.messageCount + 1, Reserved,
                                                               texts.sha(prompt), None)])
  {
    var m := PromptOf(texts, turnId, prompt, before.messageCount + 1);
    var now := turns[turnId := Turn(id, before.messageCount + 1, Reserved, texts.sha(prompt), None)];
    EventAppended(before.events, Event(TurnReserved, Some(turnId)));
    forall i | 0 <= i < |after.messages| ensures MessageOk(after.messages[i], i, now) {
      if i < |before.messages| { assert MessageOk(before.messages[i], i, turns); }
    }
    NewTurnOk(texts, before.messages, turns, id, turnId, prompt);
    forall t | t in turns ensures TurnOk(texts, after.messages, t, turns[t]) {
      TurnStaysOk(texts, before.messages, [m], t, turns[t]);
    }
    forall t ensures EndingsOk(after, now, t) {
      assert EndingsOk(before, turns, t);
    }
  }

  // ---------------------------------------------------------------- blocks of answers

  lemma {:induction false} BlockIs(turnId: string, answers: seq<Answer>, count: nat)
    ensures |Block(turnId, answers, count)| == |answers|
    ensures forall i | 0 <= i < |answers| ::
              Block(turnId, answers, count)[i]
              == Message(turnId, Some(answers[i].messageId), count + i + 1, Assistant, answers[i].text,
                         answers[i].sha256)
    decreases |answers|
  {
    if answers != [] { BlockIs(turnId, answers[..|answers| - 1], count); }
  }

  lemma {:induction false} NoAnswers(messages: seq<Message>, turnId: string)
    requires forall i | 0 <= i < |messages| :: !IsAnswer(messages[i], turnId)
    ensures AnswersOf(messages, turnId) == []
    decreases |messages|
  {
    if messages != [] { NoAnswers(messages[..|messages| - 1], turnId); }
  }

  lemma {:induction false} OthersAnswersStay(messages: seq<Message>, more: seq<Message>, turnId: string)
    requires forall i | 0 <= i < |more| :: !IsAnswer(more[i], turnId)
    ensures AnswersOf(messages + more, turnId) == AnswersOf(messages, turnId)
    decreases |more|
  {
    if more == [] {
      AppendEmpty(messages);
    } else {
      var init, last := more[..|more| - 1], more[|more| - 1];
      OthersAnswersStay(messages, init, turnId);
      TakeNext(more, |more| - 1);
      TakeAll(more);
      AppendAssoc(messages, init, [last]);
      ButLast(messages + init, last);
      AppendEmpty(AnswersOf(messages + init, turnId));
    }
  }

  /** A block is read back as the answers it was made of. */
  lemma {:induction false} BlockReadsBack(messages: seq<Message>, turnId: string, answers: seq<Answer>, count: nat)
    requires AnswersOf(messages, turnId) == []
    ensures AnswersOf(messages + Block(turnId, answers, count), turnId) == answers
    decreases |answers|
  {
    if answers == [] {
      AppendEmpty(messages);
    } else {
      var init, last := answers[..|answers| - 1], answers[|answers| - 1];
      var m := Message(turnId, Some(last.messageId), count + |answers|, Assistant, last.text, last.sha256);
      BlockReadsBack(messages, turnId, init, count);
      AppendAssoc(messages, Block(turnId, init, count), [m]);
      ButLast(messages + Block(turnId, init, count), m);
      TakeNext(answers, |answers| - 1);
      TakeAll(answers);
    }
  }

  lemma CompletedTurnOk(texts: Texts, messages: seq<Message>, turnId: string, turn: Turn, answers: seq<Answer>,
          providerTurnId: string)
    requires TurnOk(texts, messages, turnId, turn) && turn.status != Completed && answers != []
    ensures TurnOk(texts, messages + Block(turnId, answers, |messages|), turnId,
                   turn.(status := Completed, providerTurnId := Some(providerTurnId)))
  {
    BlockIs(turnId, answers, |messages|);
    assert AnswersAre(messages + Block(turnId, answers, |messages|), turnId, |messages|, |answers|);
  }

  lemma CompletingKeepsMessages(c: Conversation, turns: map<string, Turn>, now: map<string, Turn>, turnId: string,
          answers: seq<Answer>)
    requires Numbered(c) && MessagesOk(c.messages, turns) && turnId in turns
    requires now.Keys == turns.Keys && forall t | t in turns :: now[t].prompt == turns[t].prompt
    ensures var grown := c.(messages := c.messages + Block(turnId, answers, c.messageCount),
                            messageCount := c.messageCount + |answers|);
            Numbered(grown) && MessagesOk(grown.messages, now)
  {
    var block := Block(turnId, answers, c.messageCount);
    BlockIs(turnId, answers, c.messageCount);
    forall i | 0 <= i < |c.messages + block| ensures MessageOk((c.messages + block)[i], i, now) {
      if i < |c.messages| {
        assert MessageOk(c.messages[i], i, turns);
        assert c.messages[i].turnId in turns.Keys;
      } else {
        assert turnId in turns.Keys;
      }
    }
  }

  lemma CompletingKeepsTurns(texts: Texts, messages: seq<Message>, turns: map<string, Turn>, turnId: string,
          providerTurnId: string, answers: seq<Answer>)
    requires TurnsOk(texts, messages, turns) && turnId in turns && turns[turnId].status != Completed && answers != []
    ensures TurnsOk(texts, messages + Block(turnId, answers, |messages|),
                    turns[turnId := turns[turnId].(status := Completed, providerTurnId := Some(providerTurnId))])
  {
    BlockIs(turnId, answers, |messages|);
    CompletedTurnOk(texts, messages, turnId, turns[turnId], answers, providerTurnId);
    forall t | t in turns && t != turnId
      ensures TurnOk(texts, messages + Block(turnId, answers, |messages|), t, turns[t])
    {
      TurnStaysOk(texts, messages, Block(turnId, answers, |messages|), t, turns[t]);
    }
  }

  /** The log says once that a turn ended, when it does. */
  lemma OneMoreEnding(before: Conversation, after: Conversation, turns: map<string, Turn>, now: map<string, Turn>,
          turnId: string, kind: EventKind)
    requires forall t :: EndingsOk(before, turns, t)
    requires before.status != Deleted && turnId in turns && !IsTerminal(turns[turnId].status)
    requires turnId in now && now == turns[turnId := now[turnId]] && IsTerminal(now[turnId].status)
    requires after.status == before.status && after.events == before.events + [Event(kind, Some(turnId))]
    requires Ends(Event(kind, Some(turnId)), turnId)
    ensures forall t :: EndingsOk(after, now, t)
  {
    EventAppended(before.events, Event(kind, Some(turnId)));
    forall t ensures EndingsOk(after, now, t) {
      assert EndingsOk(before, turns, t);
    }
  }

  lemma CompletingKeeps(texts: Texts, before: Conversation, after: Conversation, turns: map<string, Turn>,
          turnId: string, providerTurnId: string, answers: seq<Answer>)
    requires ConversationInv(texts, before, turns) && before.status != Deleted && answers != []
    requires turnId in turns && !IsTerminal(turns[turnId].status)
    requires after == before.(messages := before.messages + Block(turnId, answers, before.messageCount),
                              messageCount := before.messageCount + |answers|, version := before.version + 1,
                              events := before.events + [Event(TurnCompleted, Some(turnId))])
    ensures ConversationInv(texts, after, turns[turnId := turns[turnId].(status := Completed,
                                                                         providerTurnId := Some(providerTurnId))])
  {
    var now := turns[turnId := turns[turnId].(status := Completed, providerTurnId := Some(providerTurnId))];
    EventAppended(before.events, Event(TurnCompleted, Some(turnId)));
    CompletingKeepsMessages(before, turns, now, turnId, answers);
    CompletingKeepsTurns(texts, before.messages, turns, turnId, providerTurnId, answers);
    OneMoreEnding(before, after, turns, now, turnId, TurnCompleted);
  }

  lemma FailingKeepsTurns(texts: Texts, messages: seq<Message>, turns: map<string, Turn>, turnId: string,
          status: TurnStatus)
    requires TurnsOk(texts, messages, turns) && turnId in turns && !IsTerminal(turns[turnId].status)
    requires status != Completed
    ensures TurnsOk(texts, messages, turns[turnId := turns[turnId].(status := status)])
  {
    assert TurnOk(texts, messages, turnId, turns[turnId]);
  }

  lemma FailingKeeps(texts: Texts, before: Conversation, after: Conversation, turns: map<string, Turn>, turnId: string,
          interrupted: bool)
    requires ConversationInv(texts, before, turns) && before.status != Deleted
    requires turnId in turns && !IsTerminal(turns[turnId].status)
    requires after == before.(version := before.version + 1,
                              events := before.events + [Event(if interrupted then TurnInterrupted else TurnFailed,
                                                               Some(turnId))])
    ensures ConversationInv(texts, after, turns[turnId := turns[turnId].(status := if interrupted then Interrupted
                                                                         else Failed)])
  {
    var now := turns[turnId := turns[turnId].(status := if interrupted then Interrupted else Failed)];
    EventAppended(before.events, Event(if interrupted then TurnInterrupted else TurnFailed, Some(turnId)));
    forall i | 0 <= i < |after.messages| ensures MessageOk(after.messages[i], i, now) {
      assert MessageOk(before.messages[i], i, turns);
    }
    FailingKeepsTurns(texts, before.messages, turns, turnId, if interrupted then Interrupted else Failed);
    OneMoreEnding(before, after, turns, now, turnId, if interrupted then TurnInterrupted else TurnFailed);
  }

  lemma DeletingKeeps(texts: Texts, before: Conversation, after: Conversation, turns: map<string, Turn>)
    requires ConversationInv(texts, before, turns)
    requires after == before.(title := after.title, status := Deleted, messageCount := 0, messages := [],
                              runtime := None,
                              version := before.version + 1, events := before.events + [Event(WasDeleted, None)])
    ensures ConversationInv(texts, after, map[])
  {
    EventAppended(before.events, Event(WasDeleted, None));
    forall t ensures EndingsOk(after, map[], t) {
      assert EndingsOk(before, turns, t);
    }
  }
}
