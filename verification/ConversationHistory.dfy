/** The whole conversation store over its history: the invariant in every reachable state, and what repeating a request
    does however much has happened in between. */
module ConversationHistory {
  import opened Wrappers
  import opened Bytes
  import opened ConversationRules
  import opened ConversationRuns

  function TurnsOf(s: Store, id: nat): map<string, Turn> {
    map t | t in s.turns && s.turns[t].conversation == id :: s.turns[t]
  }

  predicate ThreadsDistinct(conversations: map<nat, Conversation>) {
    forall i, j | i in conversations && j in conversations && i != j ::
      conversations[i].runtime.Some? && conversations[j].runtime.Some? ==>
        conversations[i].runtime.value.threadId != conversations[j].runtime.value.threadId
  }

  ghost predicate Inv(texts: Texts, s: Store) {
    && (forall id | id in s.conversations :: ConversationInv(texts, s.conversations[id], TurnsOf(s, id)))
    && (forall t | t in s.turns :: s.turns[t].conversation in s.conversations)
    && ThreadsDistinct(s.conversations)
  }

  /** A change of one conversation and its own turns. */
  predicate OnlyChanges(s: Store, after: Store, id: nat) {
    && after.conversations.Keys == s.conversations.Keys + {id}
    && (forall j | j in s.conversations && j != id ::
          after.conversations[j] == s.conversations[j] && TurnsOf(after, j) == TurnsOf(s, j))
    && (forall t | t in after.turns :: t in s.turns || after.turns[t].conversation == id)
    && (forall t | t in s.turns && t in after.turns :: after.turns[t].conversation == s.turns[t].conversation)
  }

  /** The conversation keeps its binding or loses it. */
  predicate KeepsThread(s: Store, after: Store, id: nat)
    requires id in after.conversations
  {
    after.conversations[id].runtime.Some? ==>
      && id in s.conversations && s.conversations[id].runtime.Some?
      && after.conversations[id].runtime.value.threadId == s.conversations[id].runtime.value.threadId
  }

  lemma ThreadsStayDistinct(s: Store, after: Store, id: nat)
    requires ThreadsDistinct(s.conversations) && OnlyChanges(s, after, id) && id in after.conversations
             && KeepsThread(s, after, id)
    ensures ThreadsDistinct(after.conversations)
  {
    forall j | j in after.conversations && j != id
      ensures j in s.conversations && after.conversations[j] == s.conversations[j]
    {
      assert j in after.conversations.Keys;
    }
  }

  lemma ChangingOneKeepsInv(texts: Texts, s: Store, after: Store, id: nat)
    requires Inv(texts, s) && OnlyChanges(s, after, id) && id in after.conversations
    requires ConversationInv(texts, after.conversations[id], TurnsOf(after, id)) && ThreadsDistinct(after.conversations)
    ensures Inv(texts, after)
  {
    forall j | j in after.conversations ensures ConversationInv(texts, after.conversations[j], TurnsOf(after, j)) {
      assert j in after.conversations.Keys;
    }
    forall t | t in after.turns ensures after.turns[t].conversation in after.conversations {
      if t in s.turns { assert s.turns[t].conversation in s.conversations.Keys; }
    }
  }

  lemma PuttingTurn(s: Store, c: Conversation, id: nat, turnId: string, turn: Turn)
    requires turn.conversation == id && (turnId in s.turns ==> s.turns[turnId].conversation == id)
    ensures var after := Put(s, id, c).(turns := s.turns[turnId := turn]);
            OnlyChanges(s, after, id) && TurnsOf(after, id) == TurnsOf(s, id)[turnId := turn]
  {
    var after := Put(s, id, c).(turns := s.turns[turnId := turn]);
    forall j | j != id ensures TurnsOf(after, j) == TurnsOf(s, j) {
    }
  }

  lemma PuttingConversation(s: Store, c: Conversation, id: nat)
    ensures OnlyChanges(s, Put(s, id, c), id) && forall j :: TurnsOf(Put(s, id, c), j) == TurnsOf(s, j)
  {
  }

  lemma NewConversationInv(texts: Texts, title: string)
    ensures ConversationInv(texts, Record(Conversation(1, title, Active, 0, [], None, []), Created, None), map[])
  {
    EventAppended([], Event(Created, None));
  }

  lemma CreateKeepsInv(texts: Texts, s: Store, id: nat, title: Option<string>)
    requires Inv(texts, s) && id !in s.conversations
    ensures Inv(texts, Create(texts, s, id, title).0)
  {
    var after := Create(texts, s, id, title).0;
    if after != s {
      var c := after.conversations[id];
      NewConversationInv(texts, c.title);
      AddingKeepsInv(texts, s, id, c);
    }
  }

  lemma AddingKeepsInv(texts: Texts, s: Store, id: nat, c: Conversation)
    requires Inv(texts, s) && id !in s.conversations && ConversationInv(texts, c, map[]) && c.runtime == None
    ensures Inv(texts, Put(s, id, c))
  {
    PuttingConversation(s, c, id);
    forall t | t in s.turns ensures s.turns[t].conversation != id {
      assert s.turns[t].conversation in s.conversations;
    }
    assert TurnsOf(s, id) == map[];
    ThreadsStayDistinct(s, Put(s, id, c), id);
    ChangingOneKeepsInv(texts, s, Put(s, id, c), id);
  }

  lemma UpdateKeepsInv(texts: Texts, s: Store, id: nat, expectedVersion: nat, title: Option<string>,
          status: Option<ConversationStatus>)
    requires Inv(texts, s)
    ensures Inv(texts, Update(texts, s, id, expectedVersion, title, status).0)
  {
    var after := Update(texts, s, id, expectedVersion, title, status).0;
    if after != s {
      var (before, c) := (s.conversations[id], after.conversations[id]);
      PuttingConversation(s, c, id);
      RecordingKeeps(texts, before, c, c.events[|c.events| - 1], TurnsOf(s, id));
      ThreadsStayDistinct(s, after, id);
      ChangingOneKeepsInv(texts, s, after, id);
    }
  }

  lemma DeleteKeepsInv(texts: Texts, s: Store, id: nat)
    requires Inv(texts, s)
    ensures Inv(texts, DeleteLocalContent(s, id).0)
  {
    var after := DeleteLocalContent(s, id).0;
    if Exists(s, id) {
      DeletingKeeps(texts, s.conversations[id], after.conversations[id], TurnsOf(s, id));
      forall j | j != id ensures TurnsOf(after, j) == TurnsOf(s, j) {
      }
      assert TurnsOf(after, id) == map[];
      ThreadsStayDistinct(s, after, id);
      ChangingOneKeepsInv(texts, s, after, id);
    }
  }

  lemma BindKeepsThreads(s: Store, id: nat, runtime: Runtime)
    requires ThreadsDistinct(s.conversations) && BindRuntime(s, id, runtime).1.None?
    ensures ThreadsDistinct(BindRuntime(s, id, runtime).0.conversations)
  {
    var after := BindRuntime(s, id, runtime).0.conversations;
    forall j | j in s.conversations && j != id && s.conversations[j].runtime.Some?
      ensures s.conversations[j].runtime.value.threadId != runtime.threadId
    {
      if s.conversations[id].runtime.None? { assert !ThreadBound(s, runtime.threadId); }
    }
  }

  lemma BindKeepsInv(texts: Texts, s: Store, id: nat, runtime: Runtime)
    requires Inv(texts, s)
    ensures Inv(texts, BindRuntime(s, id, runtime).0)
  {
    var (after, error) := BindRuntime(s, id, runtime);
    if error.None? {
      PuttingConversation(s, after.conversations[id], id);
      RecordingKeeps(texts, s.conversations[id], after.conversations[id], Event(ProviderBound, None), TurnsOf(s, id));
      BindKeepsThreads(s, id, runtime);
      ChangingOneKeepsInv(texts, s, after, id);
    }
  }

  lemma ReserveKeepsInv(texts: Texts, s: Store, id: nat, turnId: string, prompt: seq<byte>)
    requires Inv(texts, s)
    ensures Inv(texts, ReserveTurn(texts, s, id, turnId, prompt).0)
  {
    var (after, r) := ReserveTurn(texts, s, id, turnId, prompt);
    if r == Ok(false) {
      ReservingKeeps(texts, s.conversations[id], after.conversations[id], TurnsOf(s, id), id, turnId, prompt);
      PuttingTurn(s, after.conversations[id], id, turnId, after.turns[turnId]);
      ThreadsStayDistinct(s, after, id);
      ChangingOneKeepsInv(texts, s, after, id);
    }
  }

  lemma CompleteKeepsInv(texts: Texts, s: Store, id: nat, turnId: string, providerTurnId: string, answers: seq<Answer>)
    requires Inv(texts, s)
    ensures Inv(texts, CompleteTurn(texts, s, id, turnId, providerTurnId, answers).0)
  {
    var after := CompleteTurn(texts, s, id, turnId, providerTurnId, answers).0;
    if after != s {
      CompletingKeeps(texts, s.conversations[id], after.conversations[id], TurnsOf(s, id), turnId, providerTurnId,
                      answers);
      PuttingTurn(s, after.conversations[id], id, turnId, after.turns[turnId]);
      ThreadsStayDistinct(s, after, id);
      ChangingOneKeepsInv(texts, s, after, id);
    }
  }

  lemma FailKeepsInv(texts: Texts, s: Store, id: nat, turnId: string, interrupted: bool)
    requires Inv(texts, s)
    ensures Inv(texts, FailTurn(s, id, turnId, interrupted).0)
  {
    var after := FailTurn(s, id, turnId, interrupted).0;
    if after != s {
      FailingKeeps(texts, s.conversations[id], after.conversations[id], TurnsOf(s, id), turnId, interrupted);
      PuttingTurn(s, after.conversations[id], id, turnId, after.turns[turnId]);
      ThreadsStayDistinct(s, after, id);
      ChangingOneKeepsInv(texts, s, after, id);
    }
  }

  lemma NextKeepsInv(texts: Texts, s: Store, op: Op)
    requires Inv(texts, s)
    ensures Inv(texts, Next(texts, s, op))
  {
    match op
    case DoCreate(id, title) => if id !in s.conversations { CreateKeepsInv(texts, s, id, title); }
    case DoUpdate(id, expectedVersion, title, status) => UpdateKeepsInv(texts, s, id, expectedVersion, title, status);
    case DoDelete(id) => DeleteKeepsInv(texts, s, id);
    case DoBind(id, runtime) => BindKeepsInv(texts, s, id, runtime);
    case DoReserve(id, turnId, prompt) => ReserveKeepsInv(texts, s, id, turnId, prompt);
    case DoComplete(id, turnId, providerTurnId, answers) =>
      CompleteKeepsInv(texts, s, id, turnId, providerTurnId, answers);
    case DoFail(id, turnId, interrupted) => FailKeepsInv(texts, s, id, turnId, interrupted);
  }

  lemma {:induction false} RunKeepsInv(texts: Texts, s: Store, ops: seq<Op>)
    requires Inv(texts, s)
    ensures Inv(texts, Run(texts, s, ops))
    decreases |ops|
  {
    if ops != [] {
      NextKeepsInv(texts, s, ops[0]);
      RunKeepsInv(texts, Next(texts, s, ops[0]), ops[1..]);
    }
  }

  function Reach(texts: Texts, ops: seq<Op>): Store {
    Run(texts, EMPTY_STORE, ops)
  }

  /** In every reachable state: the messages of a conversation are numbered 1 to its message count, its version is 1
      plus the number of audit events other than created and provider_bound, and no turn has ended more than once. */
  lemma StoreIsConsistent(texts: Texts, ops: seq<Op>, id: nat, turnId: string)
    requires id in Reach(texts, ops).conversations
    ensures var c := Reach(texts, ops).conversations[id];
            && |c.messages| == c.messageCount && (forall i | 0 <= i < |c.messages| :: c.messages[i].sequence == i + 1)
            && c.version == 1 + CountedEvents(c.events)
            && Endings(c.events, turnId) <= 1
  {
    RunKeepsInv(texts, EMPTY_STORE, ops);
    assert EndingsOk(Reach(texts, ops).conversations[id], TurnsOf(Reach(texts, ops), id), turnId);
  }

  /** In every reachable state the answers of a completed turn are one block of messages after its prompt, and no other
      turn has any. */
  lemma AnswersFormABlock(texts: Texts, ops: seq<Op>, turnId: string)
    requires turnId in Reach(texts, ops).turns
    ensures var (s, turn) := (Reach(texts, ops), Reach(texts, ops).turns[turnId]);
            && turn.conversation in s.conversations
            && var messages := s.conversations[turn.conversation].messages;
               (if turn.status == Completed then HasBlock(messages, turnId, turn.prompt)
                else forall i | 0 <= i < |messages| :: !IsAnswer(messages[i], turnId))
               && 1 <= turn.prompt <= |messages| && messages[turn.prompt - 1].turnId == turnId
                  && messages[turn.prompt - 1].role == User
  {
    RunKeepsInv(texts, EMPTY_STORE, ops);
    var (s, turn) := (Reach(texts, ops), Reach(texts, ops).turns[turnId]);
    assert TurnsOf(s, turn.conversation)[turnId] == turn;
  }

  // ---------------------------------------------------------------- repeating a request

  lemma DeletedStays(texts: Texts, s: Store, op: Op, id: nat)
    requires id in s.conversations && !Exists(s, id)
    ensures id in Next(texts, s, op).conversations && !Exists(Next(texts, s, op), id)
  {
  }

  lemma {:induction false} DeletedForGood(texts: Texts, s: Store, ops: seq<Op>, id: nat)
    requires id in s.conversations && !Exists(s, id)
    ensures !Exists(Run(texts, s, ops), id)
    decreases |ops|
  {
    if ops != [] {
      DeletedStays(texts, s, ops[0], id);
      DeletedForGood(texts, Next(texts, s, ops[0]), ops[1..], id);
    }
  }

  /** A reserved turn keeps its conversation and its fingerprint as long as the conversation exists. */
  lemma TurnStays(texts: Texts, s: Store, op: Op, id: nat, turnId: string)
    requires Exists(s, id) && TurnExists(s, id, turnId) && Exists(Next(texts, s, op), id)
    ensures TurnExists(Next(texts, s, op), id, turnId)
    ensures Next(texts, s, op).turns[turnId].fingerprint == s.turns[turnId].fingerprint
    ensures s.turns[turnId].status == Completed ==> Next(texts, s, op).turns[turnId] == s.turns[turnId]
  {
  }

  lemma ExistsBefore(texts: Texts, s: Store, op: Op, ops: seq<Op>, id: nat)
    requires Exists(s, id) && Exists(Run(texts, Next(texts, s, op), ops), id)
    ensures Exists(Next(texts, s, op), id)
  {
    if id in Next(texts, s, op).conversations && !Exists(Next(texts, s, op), id) {
      DeletedForGood(texts, Next(texts, s, op), ops, id);
    }
  }

  lemma OtherBlockStays(messages: seq<Message>, answers: seq<Answer>, count: nat, other: string, turnId: string)
    requires other != turnId
    ensures AnswersOf(messages + Block(other, answers, count), turnId) == AnswersOf(messages, turnId)
  {
    BlockIs(other, answers, count);
    OthersAnswersStay(messages, Block(other, answers, count), turnId);
  }

  lemma MessagesGrow(texts: Texts, s: Store, op: Op, id: nat)
    requires Exists(s, id) && Exists(Next(texts, s, op), id)
    ensures var (c, after) := (s.conversations[id], Next(texts, s, op).conversations[id].messages);
            || after == c.messages
            || (op.DoReserve? && after == c.messages + [PromptOf(texts, op.turnId, op.prompt, c.messageCount + 1)])
            || (op.DoComplete? && TurnExists(s, id, op.turnId) && s.turns[op.turnId].status != Completed
                && after == c.messages + Block(op.turnId, op.answers, c.messageCount))
  {
  }

  /** Answers are only added for a turn that is being completed. */
  lemma AnswersStay(texts: Texts, s: Store, op: Op, id: nat, turnId: string)
    requires Exists(s, id) && TurnExists(s, id, turnId) && s.turns[turnId].status == Completed
             && Exists(Next(texts, s, op), id)
    ensures AnswersOf(Next(texts, s, op).conversations[id].messages, turnId)
            == AnswersOf(s.conversations[id].messages, turnId)
  {
    var c := s.conversations[id];
    MessagesGrow(texts, s, op, id);
    if op.DoReserve? {
      OthersAnswersStay(c.messages, [PromptOf(texts, op.turnId, op.prompt, c.messageCount + 1)], turnId);
    } else if op.DoComplete? && op.turnId != turnId {
      OtherBlockStays(c.messages, op.answers, c.messageCount, op.turnId, turnId);
    }
  }

  lemma {:induction false} CompletedStays(texts: Texts, s: Store, ops: seq<Op>, id: nat, turnId: string)
    requires Exists(s, id) && TurnExists(s, id, turnId) && s.turns[turnId].status == Completed
             && Exists(Run(texts, s, ops), id)
    ensures var after := Run(texts, s, ops);
            && TurnExists(after, id, turnId) && after.turns[turnId] == s.turns[turnId]
            && AnswersOf(after.conversations[id].messages, turnId) == AnswersOf(s.conversations[id].messages, turnId)
    decreases |ops|
  {
    if ops != [] {
      ExistsBefore(texts, s, ops[0], ops[1..], id);
      TurnStays(texts, s, ops[0], id, turnId);
      AnswersStay(texts, s, ops[0], id, turnId);
      CompletedStays(texts, Next(texts, s, ops[0]), ops[1..], id, turnId);
    }
  }

  lemma {:induction false} ReservedStays(texts: Texts, s: Store, ops: seq<Op>, id: nat, turnId: string)
    requires Exists(s, id) && TurnExists(s, id, turnId) && Exists(Run(texts, s, ops), id)
    ensures var after := Run(texts, s, ops);
            TurnExists(after, id, turnId) && after.turns[turnId].fingerprint == s.turns[turnId].fingerprint
    decreases |ops|
  {
    if ops != [] {
      ExistsBefore(texts, s, ops[0], ops[1..], id);
      TurnStays(texts, s, ops[0], id, turnId);
      ReservedStays(texts, Next(texts, s, ops[0]), ops[1..], id, turnId);
    }
  }

  lemma OpenTurnHasNoAnswers(texts: Texts, s: Store, id: nat, turnId: string)
    requires Inv(texts, s) && Exists(s, id) && TurnExists(s, id, turnId) && s.turns[turnId].status != Completed
    ensures AnswersOf(s.conversations[id].messages, turnId) == []
  {
    assert TurnsOf(s, id)[turnId] == s.turns[turnId];
    assert TurnOk(texts, s.conversations[id].messages, turnId, s.turns[turnId]);
    NoAnswers(s.conversations[id].messages, turnId);
  }

  lemma AcceptedCompletion(texts: Texts, s: Store, id: nat, turnId: string, providerTurnId: string,
          answers: seq<Answer>)
    requires CompleteTurn(texts, s, id, turnId, providerTurnId, answers).1.None?
    ensures Exists(s, id) && TurnExists(s, id, turnId)
    ensures var (c, turn) := (s.conversations[id], s.turns[turnId]);
            var after := CompleteTurn(texts, s, id, turnId, providerTurnId, answers).0;
            && Exists(after, id) && TurnExists(after, id, turnId)
            && (turn.status == Completed ==>
                  after == s && turn.providerTurnId == Some(providerTurnId) && AnswersOf(c.messages, turnId) == answers)
            && (turn.status != Completed ==>
                  && after.turns[turnId] == turn.(status := Completed, providerTurnId := Some(providerTurnId))
                  && after.conversations[id].messages == c.messages + Block(turnId, answers, c.messageCount))
  {
  }

  /** A completion that is accepted is what the store then holds of the turn. */
  lemma CompletionIsStored(texts: Texts, s: Store, id: nat, turnId: string, providerTurnId: string,
          answers: seq<Answer>)
    requires Inv(texts, s) && CompleteTurn(texts, s, id, turnId, providerTurnId, answers).1.None?
    ensures var after := CompleteTurn(texts, s, id, turnId, providerTurnId, answers).0;
            && Exists(after, id) && TurnExists(after, id, turnId) && after.turns[turnId].status == Completed
            && after.turns[turnId].providerTurnId == Some(providerTurnId)
            && AnswersOf(after.conversations[id].messages, turnId) == answers
  {
    AcceptedCompletion(texts, s, id, turnId, providerTurnId, answers);
    if s.turns[turnId].status != Completed {
      OpenTurnHasNoAnswers(texts, s, id, turnId);
      BlockReadsBack(s.conversations[id].messages, turnId, answers, s.conversations[id].messageCount);
    }
  }

  /** Completing is idempotent. After an accepted completion, and whatever else happens to the store, the same
      completion is accepted again and changes nothing, and any other one is refused and changes nothing, as long as
      the conversation exists. */
  lemma CompletionIsIdempotent(texts: Texts, before: seq<Op>, id: nat, turnId: string, providerTurnId: string,
          answers: seq<Answer>, later: seq<Op>, again: string, others: seq<Answer>)
    requires CompleteTurn(texts, Reach(texts, before), id, turnId, providerTurnId, answers).1.None?
             && 1 <= |others| <= 8
    requires Exists(Run(texts, CompleteTurn(texts, Reach(texts, before), id, turnId, providerTurnId, answers).0,
                        later), id)
    ensures var s := Run(texts, CompleteTurn(texts, Reach(texts, before), id, turnId, providerTurnId, answers).0,
                         later);
            CompleteTurn(texts, s, id, turnId, again, others)
            == (s, if again == providerTurnId && others == answers then None else Some(IdempotencyConflict))
  {
    var completed := CompleteTurn(texts, Reach(texts, before), id, turnId, providerTurnId, answers).0;
    RunKeepsInv(texts, EMPTY_STORE, before);
    CompletionIsStored(texts, Reach(texts, before), id, turnId, providerTurnId, answers);
    CompletedStays(texts, completed, later, id, turnId);
  }

  /** Reserving is idempotent in the same way: the turn's own conversation and prompt find it again, everything else is
      refused, and nothing changes. */
  lemma ReservationIsIdempotent(texts: Texts, s: Store, id: nat, turnId: string, prompt: seq<byte>, later: seq<Op>,
          other: nat, text: seq<byte>)
    requires ReserveTurn(texts, s, id, turnId, prompt).1.Ok?
    requires Exists(Run(texts, ReserveTurn(texts, s, id, turnId, prompt).0, later), id)
    requires Exists(Run(texts, ReserveTurn(texts, s, id, turnId, prompt).0, later), other)
    ensures var after := Run(texts, ReserveTurn(texts, s, id, turnId, prompt).0, later);
            ReserveTurn(texts, after, other, turnId, text)
            == (after, if other == id && texts.sha(text) == texts.sha(prompt) then Ok(true)
                else Err(IdempotencyConflict))
  {
    ReservedStays(texts, ReserveTurn(texts, s, id, turnId, prompt).0, later, id, turnId);
  }
}
