/** The conversation store: titles, provider bindings, turns and their messages, each change counted by a version and
    kept in an audit log. Rules as functions on the stored conversations and turns. */
module ConversationRules {
  import opened Wrappers
  import opened Bytes

  const DEFAULT_TITLE := "Neue Unterhaltung"
  const DELETED_TITLE := "Gelöschte Unterhaltung"
  const MAX_MESSAGE_BYTES := 512 * 1024
  const MAX_TURN_BYTES := 1024 * 1024

  datatype ConversationStatus = Active | Archived | Deleted
  datatype TurnStatus = Reserved | Running | Completed | Interrupted | Failed
  datatype Role = User | Assistant

  datatype EventKind =
    | Created | Renamed | WasArchived | Restored | WasDeleted | ProviderBound
    | TurnReserved | TurnCompleted | TurnInterrupted | TurnFailed

  datatype Event = Event(kind: EventKind, turnId: Option<string>)

  /** Texts are kept as the UTF-8 bytes that are measured and hashed. */
  datatype Message = Message(
    turnId: string, providerMessageId: Option<string>, sequence: nat, role: Role, text: seq<byte>, sha256: string)

  datatype Runtime = Runtime(threadId: string, model: string, effort: string, tier: string)

  /** Messages and events are in the order they were stored. */
  datatype Conversation = Conversation(
    version: nat, title: string, status: ConversationStatus, messageCount: nat, messages: seq<Message>,
    runtime: Option<Runtime>, events: seq<Event>)

  /** `prompt` is the sequence number of the user message. */
  datatype Turn = Turn(
    conversation: nat, prompt: nat, status: TurnStatus, fingerprint: string, providerTurnId: Option<string>)

  datatype Store = Store(conversations: map<nat, Conversation>, turns: map<string, Turn>)

  const EMPTY_STORE := Store(map[], map[])

  /** One finished message as the host reports it. */
  datatype Answer = Answer(messageId: string, sha256: string, text: seq<byte>)

  datatype Error =
    | InvalidRequest | ConversationNotFound | StaleConversation | InvalidTitle | ThreadConflict | IdempotencyConflict
    | NotActive | TurnNotFound | TurnTerminal | MessageTooLarge | DigestMismatch | ConstraintViolated

  /** The digest of a text, the normal form of a title (none if nothing is left), and the title made from a prompt. */
  datatype Texts = Texts(sha: seq<byte> -> string, normalize: string -> Option<string>, titleOf: seq<byte> -> string)

  predicate Exists(s: Store, id: nat) {
    id in s.conversations && s.conversations[id].status != Deleted
  }

  function Record(c: Conversation, kind: EventKind, turnId: Option<string>): Conversation {
    c.(events := c.events + [Event(kind, turnId)])
  }

  function Bumped(c: Conversation, kind: EventKind, turnId: Option<string>): Conversation {
    Record(c.(version := c.version + 1), kind, turnId)
  }

  function Put(s: Store, id: nat, c: Conversation): Store {
    s.(conversations := s.conversations[id := c])
  }

  // ---------------------------------------------------------------- conversations

  /** `id` is new. */
  function Create(texts: Texts, s: Store, id: nat, title: Option<string>): (Store, Option<Error>)
    requires id !in s.conversations
  {
    if title.Some? && texts.normalize(title.value).None? then (s, Some(InvalidTitle))
    else
      var name := if title.Some? then texts.normalize(title.value).value else DEFAULT_TITLE;
      (Put(s, id, Record(Conversation(1, name, Active, 0, [], None, []), Created, None)), None)
  }

  function StatusEvent(status: ConversationStatus): EventKind {
    if status == Archived then WasArchived else Restored
  }

  function Update(texts: Texts, s: Store, id: nat, expectedVersion: nat, title: Option<string>,
          status: Option<ConversationStatus>): (Store, Option<Error>)
  {
    if (title.None? && status.None?) || status == Some(Deleted) then (s, Some(InvalidRequest))
    else if !Exists(s, id) then (s, Some(ConversationNotFound))
    else
      var c := s.conversations[id];
      if c.version != expectedVersion then (s, Some(StaleConversation))
      else if title.Some? && texts.normalize(title.value).None? then (s, Some(InvalidTitle))
      else
        var name := if title.Some? then texts.normalize(title.value).value else c.title;
        var next := if status.Some? then status.value else c.status;
        if name == c.title && next == c.status then (s, None)
        else
          var changed := c.(title := name, status := next);
          (Put(s, id, Bumped(changed, if next != c.status then StatusEvent(next) else Renamed, None)), None)
  }

  function WithoutTurnsOf(turns: map<string, Turn>, id: nat): map<string, Turn> {
    map t | t in turns && turns[t].conversation != id :: turns[t]
  }

  /** Removes messages, turns and the binding; the row itself stays, marked as deleted. */
  function DeleteLocalContent(s: Store, id: nat): (Store, Option<Error>) {
    if !Exists(s, id) then (s, Some(ConversationNotFound))
    else
      var c := s.conversations[id].(title := DELETED_TITLE, status := Deleted, messageCount := 0, messages := [],
                                    runtime := None);
      (Put(s, id, Bumped(c, WasDeleted, None)).(turns := WithoutTurnsOf(s.turns, id)), None)
  }

  predicate ThreadBound(s: Store, threadId: string) {
    exists id | id in s.conversations ::
        s.conversations[id].runtime.Some? && s.conversations[id].runtime.value.threadId == threadId
  }

  /** A conversation keeps its thread; the configuration may change. */
  function BindRuntime(s: Store, id: nat, runtime: Runtime): (Store, Option<Error>) {
    if !Exists(s, id) then (s, Some(ConversationNotFound))
    else
      var c := s.conversations[id];
      if c.runtime.None? && ThreadBound(s, runtime.threadId) then (s, Some(ThreadConflict))
      else if c.runtime.Some? && c.runtime.value.threadId != runtime.threadId then (s, Some(ThreadConflict))
      else (Put(s, id, Record(c.(runtime := Some(runtime)), ProviderBound, None)), None)
  }

  // ---------------------------------------------------------------- turns

  /** The result says whether the turn was there already. */
  function ReserveTurn(texts: Texts, s: Store, id: nat, turnId: string, prompt: seq<byte>): (Store, Result<bool, Error>)
  {
    var fingerprint := texts.sha(prompt);
    if turnId in s.turns then
      if !Exists(s, id) then (s, Err(ConversationNotFound))
      else if s.turns[turnId].conversation != id || s.turns[turnId].fingerprint != fingerprint
      then (s, Err(IdempotencyConflict))
      else (s, Ok(true))
    else if !Exists(s, id) then (s, Err(ConversationNotFound))
    else if s.conversations[id].status != Active then (s, Err(NotActive))
    else
      var c := s.conversations[id];
      var sequence := c.messageCount + 1;
      var titled := c.(messages := c.messages + [Message(turnId, None, sequence, User, prompt, fingerprint)],
                       messageCount := sequence,
                       title := if c.title == DEFAULT_TITLE then texts.titleOf(prompt) else c.title);
      (Put(s, id, Bumped(titled, TurnReserved, Some(turnId)))
         .(turns := s.turns[turnId := Turn(id, sequence, Reserved, fingerprint, None)]), Ok(false))
  }

  /** The stored answers of a turn. */
  function AnswersOf(messages: seq<Message>, turnId: string): seq<Answer> {
    if messages == [] then []
    else
      var m := messages[|messages| - 1];
      AnswersOf(messages[..|messages| - 1], turnId)
      + if IsAnswer(m, turnId) && m.providerMessageId.Some? then [Answer(m.providerMessageId.value, m.sha256, m.text)]
        else []
  }

  predicate IsAnswer(m: Message, turnId: string) {
    m.turnId == turnId && m.role == Assistant
  }

  function TotalBytes(answers: seq<Answer>): nat {
    if answers == [] then 0 else TotalBytes(answers[..|answers| - 1]) + |answers[|answers| - 1].text|
  }

  /** The first answer that is too large, or takes the turn over its limit, or does not match its digest. */
  function CheckAnswers(texts: Texts, answers: seq<Answer>): Option<Error> {
    if answers == [] then None
    else
      var before, last := CheckAnswers(texts, answers[..|answers| - 1]), answers[|answers| - 1];
      if before.Some? then before
      else if |last.text| > MAX_MESSAGE_BYTES || TotalBytes(answers) > MAX_TURN_BYTES then Some(MessageTooLarge)
      else if texts.sha(last.text) != last.sha256 then Some(DigestMismatch)
      else None
  }

  predicate DistinctIds(answers: seq<Answer>) {
    forall i, j | 0 <= i < j < |answers| :: answers[i].messageId != answers[j].messageId
  }

  /** The messages that some answers become after the first `count`. */
  function Block(turnId: string, answers: seq<Answer>, count: nat): seq<Message> {
    if answers == [] then []
    else
      var last := answers[|answers| - 1];
      Block(turnId, answers[..|answers| - 1], count)
      + [Message(turnId, Some(last.messageId), count + |answers|, Assistant, last.text, last.sha256)]
  }

  predicate TurnExists(s: Store, id: nat, turnId: string) {
    turnId in s.turns && s.turns[turnId].conversation == id
  }

  predicate IsTerminal(status: TurnStatus) {
    status in {Completed, Interrupted, Failed}
  }

  /** 1 to 8 answers. Repeating a completion is accepted if it says the same. */
  function CompleteTurn(texts: Texts, s: Store, id: nat, turnId: string, providerTurnId: string, answers: seq<Answer>)
    : (Store, Option<Error>)
  {
    if !(1 <= |answers| <= 8) then (s, Some(InvalidRequest))
    else if !Exists(s, id) then (s, Some(ConversationNotFound))
    else if !TurnExists(s, id, turnId) then (s, Some(TurnNotFound))
    else
      var c, turn := s.conversations[id], s.turns[turnId];
      if turn.status == Completed then
        (s, if turn.providerTurnId == Some(providerTurnId) && AnswersOf(c.messages, turnId) == answers then None
            else Some(IdempotencyConflict))
      else if IsTerminal(turn.status) then (s, Some(TurnTerminal))
      else if CheckAnswers(texts, answers).Some? then (s, CheckAnswers(texts, answers))
      else if !DistinctIds(answers) then (s, Some(ConstraintViolated))
      else
        var grown := c.(messages := c.messages + Block(turnId, answers, c.messageCount),
                        messageCount := c.messageCount + |answers|);
        (Put(s, id, Bumped(grown, TurnCompleted, Some(turnId)))
           .(turns := s.turns[turnId := turn.(status := Completed, providerTurnId := Some(providerTurnId))]), None)
  }

  function FailTurn(s: Store, id: nat, turnId: string, interrupted: bool): (Store, Option<Error>) {
    if !Exists(s, id) then (s, Some(ConversationNotFound))
    else if !TurnExists(s, id, turnId) then (s, Some(TurnNotFound))
    else if IsTerminal(s.turns[turnId].status) then (s, None)
    else
      (Put(s, id, Bumped(s.conversations[id], if interrupted then TurnInterrupted else TurnFailed, Some(turnId)))
         .(turns := s.turns[turnId := s.turns[turnId].(status := if interrupted then Interrupted else Failed)]), None)
  }

  // ---------------------------------------------------------------- runs

  datatype Op =
    | DoCreate(id: nat, newTitle: Option<string>)
    | DoUpdate(id: nat, expectedVersion: nat, title: Option<string>, status: Option<ConversationStatus>)
    | DoDelete(id: nat)
    | DoBind(id: nat, runtime: Runtime)
    | DoReserve(id: nat, turnId: string, prompt: seq<byte>)
    | DoComplete(id: nat, turnId: string, providerTurnId: string, answers: seq<Answer>)
    | DoFail(id: nat, turnId: string, interrupted: bool)

  function Next(texts: Texts, s: Store, op: Op): Store {
    match op
    case DoCreate(id, title) => if id in s.conversations then s else Create(texts, s, id, title).0
    case DoUpdate(id, expectedVersion, title, status) => Update(texts, s, id, expectedVersion, title, status).0
    case DoDelete(id) => DeleteLocalContent(s, id).0
    case DoBind(id, runtime) => BindRuntime(s, id, runtime).0
    case DoReserve(id, turnId, prompt) => ReserveTurn(texts, s, id, turnId, prompt).0
    case DoComplete(id, turnId, providerTurnId, answers) =>
      CompleteTurn(texts, s, id, turnId, providerTurnId, answers).0
    case DoFail(id, turnId, interrupted) => FailTurn(s, id, turnId, interrupted).0
  }

  function Run(texts: Texts, s: Store, ops: seq<Op>): Store
    decreases |ops|
  {
    if ops == [] then s else Run(texts, Next(texts, s, ops[0]), ops[1..])
  }
}
