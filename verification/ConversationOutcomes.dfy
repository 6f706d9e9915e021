/** Which requests the conversation store accepts, and exactly what an accepted one changes. */
module ConversationOutcomes {
  import opened Wrappers
  import opened Bytes
  import opened Sequences
  import opened ConversationRules
  import opened ConversationRuns

  // ---------------------------------------------------------------- the answers of a completion

  function TextsOf(answers: seq<Answer>): (texts: seq<seq<byte>>)
    ensures |texts| == |answers|
  {
    seq(|answers|, i requires 0 <= i < |answers| => answers[i].text)
  }

  lemma {:induction false} TotalIsAllBytes(answers: seq<Answer>)
    ensures TotalBytes(answers) == |Concat(TextsOf(answers))|
    decreases |answers|
  {
    if answers != [] {
      var n := |answers| - 1;
      assert TextsOf(answers)[..n] == TextsOf(answers[..n]);
      TotalIsAllBytes(answers[..n]);
    }
  }

  /** At most 512 KiB, and at most 1 MiB with the answers before it. */
  predicate SizeFits(answers: seq<Answer>, i: nat)
    requires i < |answers|
  {
    |answers[i].text| <= 524288 && |Concat(TextsOf(answers[..i + 1]))| <= 1048576
  }

  /** An answer that fits and has the digest it claims. */
  predicate Verified(texts: Texts, answers: seq<Answer>, i: nat)
    requires i < |answers|
  {
    SizeFits(answers, i) && texts.sha(answers[i].text) == answers[i].sha256
  }

  predicate AllVerified(texts: Texts, answers: seq<Answer>) {
    forall i | 0 <= i < |answers| :: Verified(texts, answers, i)
  }

  predicate FirstUnverified(texts: Texts, answers: seq<Answer>, i: nat) {
    && i < |answers| && !Verified(texts, answers, i)
    && forall j | 0 <= j < i :: Verified(texts, answers, j)
  }

  lemma VerifiedInTake(texts: Texts, answers: seq<Answer>, n: nat, i: nat)
    requires i < n <= |answers|
    ensures Verified(texts, answers[..n], i) == Verified(texts, answers, i)
    ensures SizeFits(answers[..n], i) == SizeFits(answers, i)
  {
    TakeTake(answers, n, i + 1);
  }

  /** The answers pass exactly if every one of them fits and matches its digest. */
  lemma {:induction false} CheckPassesExactly(texts: Texts, answers: seq<Answer>)
    ensures CheckAnswers(texts, answers).None? <==> AllVerified(texts, answers)
    decreases |answers|
  {
    if answers != [] {
      var n := |answers| - 1;
      CheckPassesExactly(texts, answers[..n]);
      TotalIsAllBytes(answers);
      TakeAll(answers);
      forall i | 0 <= i < n ensures Verified(texts, answers[..n], i) == Verified(texts, answers, i) {
        VerifiedInTake(texts, answers, n, i);
      }
      if AllVerified(texts, answers) {
        assert Verified(texts, answers, n);
      } else if CheckAnswers(texts, answers).None? {
        forall i | 0 <= i < |answers| ensures Verified(texts, answers, i) {
          assert i < n ==> Verified(texts, answers[..n], i);
        }
      }
    }
  }

  /** Otherwise the first one that does not decides the error. */
  lemma {:induction false} CheckIsExact(texts: Texts, answers: seq<Answer>, i: nat)
    requires FirstUnverified(texts, answers, i)
    ensures CheckAnswers(texts, answers) == Some(if SizeFits(answers, i) then DigestMismatch else MessageTooLarge)
    decreases |answers|
  {
    var n := |answers| - 1;
    forall j | 0 <= j < n
      ensures Verified(texts, answers[..n], j) == Verified(texts, answers, j)
      ensures SizeFits(answers[..n], j) == SizeFits(answers, j)
    {
      VerifiedInTake(texts, answers, n, j);
    }
    if i < n {
      CheckIsExact(texts, answers[..n], i);
    } else {
      CheckPassesExactly(texts, answers[..n]);
      TotalIsAllBytes(answers);
      TakeAll(answers);
    }
  }

  // ---------------------------------------------------------------- completing a turn

  /** An open turn takes one to eight verified answers with distinct identifiers. */
  ghost predicate Completable(texts: Texts, s: Store, id: nat, turnId: string, answers: seq<Answer>) {
    && Exists(s, id) && TurnExists(s, id, turnId) && s.turns[turnId].status in {Reserved, Running}
    && 1 <= |answers| <= 8 && AllVerified(texts, answers)
    && forall i, j | 0 <= i < |answers| && 0 <= j < |answers| :: answers[i].messageId == answers[j].messageId ==> i == j
  }

  /** A completed turn takes the completion it has. */
  predicate SaysTheSame(s: Store, id: nat, turnId: string, providerTurnId: string, answers: seq<Answer>) {
    && Exists(s, id) && TurnExists(s, id, turnId) && s.turns[turnId].status == Completed && 1 <= |answers| <= 8
    && s.turns[turnId].providerTurnId == Some(providerTurnId)
    && AnswersOf(s.conversations[id].messages, turnId) == answers
  }

  lemma CompletableIsExact(texts: Texts, s: Store, id: nat, turnId: string, providerTurnId: string,
          answers: seq<Answer>)
    ensures var error := CompleteTurn(texts, s, id, turnId, providerTurnId, answers).1;
            error.None?
            <==> Completable(texts, s, id, turnId, answers) || SaysTheSame(s, id, turnId, providerTurnId, answers)
  {
    CheckPassesExactly(texts, answers);
    if !DistinctIds(answers) {
      var i, j :| 0 <= i < j < |answers| && answers[i].messageId == answers[j].messageId;
    }
  }

  /** A completion is accepted exactly for an open turn with verified answers, or for a completed one that says the
      same. An open turn is then completed, its answers are the next messages in order, and the log says so once;
      everything else, and everything after a refusal, stays as it was. */
  lemma CompletionIsExact(texts: Texts, s: Store, id: nat, turnId: string, providerTurnId: string, answers: seq<Answer>)
    ensures var (after, error) := CompleteTurn(texts, s, id, turnId, providerTurnId, answers);
            && (error.None? <==> Completable(texts, s, id, turnId, answers)
                                 || SaysTheSame(s, id, turnId, providerTurnId, answers))
            && (!Completable(texts, s, id, turnId, answers) ==> after == s)
            && (Completable(texts, s, id, turnId, answers) ==>
                  && IsCompletion(s.conversations, after.conversations, id, turnId, answers)
                  && after.turns == s.turns[turnId := s.turns[turnId].(
                                      status := Completed, providerTurnId := Some(providerTurnId))])
  {
    CompletableIsExact(texts, s, id, turnId, providerTurnId, answers);
    if Completable(texts, s, id, turnId, answers) {
      BlockIs(turnId, answers, s.conversations[id].messageCount);
    }
  }

  predicate IsCompletion(before: map<nat, Conversation>, after: map<nat, Conversation>, id: nat, turnId: string,
          answers: seq<Answer>)
  {
    && id in before && id in after && after == before[id := after[id]]
    && var (c, d) := (before[id], after[id]);
       && d == Conversation(c.version + 1, c.title, c.status, c.messageCount + |answers|, d.messages, c.runtime,
                            c.events + [Event(TurnCompleted, Some(turnId))])
       && |d.messages| == |c.messages| + |answers| && d.messages[..|c.messages|] == c.messages
       && forall i | 0 <= i < |answers| ::
            d.messages[|c.messages| + i] == Message(turnId, Some(answers[i].messageId), c.messageCount + i + 1,
                                                    Assistant, answers[i].text, answers[i].sha256)
  }

  /** Why a completion is refused: its form first, then the conversation, the turn, what the turn already is, and only
      then the answers. */
  lemma CompletionRefusals(texts: Texts, s: Store, id: nat, turnId: string, providerTurnId: string,
          answers: seq<Answer>)
    ensures var refused := (e: Error) => CompleteTurn(texts, s, id, turnId, providerTurnId, answers).1 == Some(e);
            && (refused(InvalidRequest) <==> |answers| == 0 || |answers| > 8)
            && (1 <= |answers| <= 8 ==>
                  && (refused(ConversationNotFound) <==> !Exists(s, id))
                  && (Exists(s, id) ==> (refused(TurnNotFound) <==> !TurnExists(s, id, turnId)))
                  && (Exists(s, id) && TurnExists(s, id, turnId) ==>
                        && (refused(TurnTerminal) <==> s.turns[turnId].status in {Interrupted, Failed})
                        && (refused(IdempotencyConflict)
                            <==> s.turns[turnId].status == Completed
                                 && !SaysTheSame(s, id, turnId, providerTurnId, answers))
                        && (s.turns[turnId].status in {Reserved, Running} ==>
                              && (forall i | FirstUnverified(texts, answers, i) ::
                                    refused(if SizeFits(answers, i) then DigestMismatch else MessageTooLarge))
                              && (AllVerified(texts, answers)
                                  ==> (refused(ConstraintViolated) <==> !DistinctIds(answers))))))
  {
    CheckPassesExactly(texts, answers);
    forall i | FirstUnverified(texts, answers, i)
      ensures CheckAnswers(texts, answers) == Some(if SizeFits(answers, i) then DigestMismatch else MessageTooLarge)
    {
      CheckIsExact(texts, answers, i);
    }
    CheckErrors(texts, answers);
    if TurnExists(s, id, turnId) {
      OpenOrOver(s.turns[turnId].status);
    }
  }

  lemma {:induction false} CheckErrors(texts: Texts, answers: seq<Answer>)
    ensures CheckAnswers(texts, answers) in {None, Some(MessageTooLarge), Some(DigestMismatch)}
    decreases |answers|
  {
    if answers != [] { CheckErrors(texts, answers[..|answers| - 1]); }
  }

  // ---------------------------------------------------------------- the other requests

  /** A turn is reserved exactly for an active conversation and a new identifier, or found again under its own prompt.
      A new one stores the prompt as the next message, and names a conversation that has no name yet. */
  lemma ReservationIsExact(texts: Texts, s: Store, id: nat, turnId: string, prompt: seq<byte>)
    ensures var (after, answer) := ReserveTurn(texts, s, id, turnId, prompt);
            var isNew := turnId !in s.turns && Exists(s, id) && s.conversations[id].status == Active;
            var again := Exists(s, id) && TurnExists(s, id, turnId) && s.turns[turnId].fingerprint == texts.sha(prompt);
            && (answer == Ok(false) <==> isNew) && (answer == Ok(true) <==> again)
            && (answer == Err(ConversationNotFound) <==> !Exists(s, id))
            && (answer == Err(NotActive)
                <==> Exists(s, id) && turnId !in s.turns && s.conversations[id].status == Archived)
            && (answer == Err(IdempotencyConflict) <==> Exists(s, id) && turnId in s.turns && !again)
            && (!isNew ==> after == s)
            && (isNew ==>
                  var c := s.conversations[id];
                  && after.turns == s.turns[turnId := Turn(id, c.messageCount + 1, Reserved, texts.sha(prompt), None)]
                  && after.conversations == s.conversations[id := Conversation(
                       c.version + 1, if c.title == "Neue Unterhaltung" then texts.titleOf(prompt) else c.title, Active,
                       c.messageCount + 1,
                       c.messages + [Message(turnId, None, c.messageCount + 1, User, prompt, texts.sha(prompt))],
                       c.runtime, c.events + [Event(TurnReserved, Some(turnId))])])
  {
  }

  lemma OpenOrOver(status: TurnStatus)
    ensures status in {Reserved, Running} <==> !IsTerminal(status)
  {
    assert status.Reserved? || status.Running? || status.Completed? || status.Interrupted? || status.Failed?;
  }

  /** A turn that is still open ends as interrupted or failed, and the log says so once; one that is over stays as it
      is. */
  lemma FailureIsExact(s: Store, id: nat, turnId: string, interrupted: bool)
    ensures var (after, error) := FailTurn(s, id, turnId, interrupted);
            var open := Exists(s, id) && TurnExists(s, id, turnId) && s.turns[turnId].status in {Reserved, Running};
            && (error == Some(ConversationNotFound) <==> !Exists(s, id))
            && (error == Some(TurnNotFound) <==> Exists(s, id) && !TurnExists(s, id, turnId))
            && (error.None? <==> Exists(s, id) && TurnExists(s, id, turnId))
            && (!open ==> after == s)
            && (open ==>
                  var c := s.conversations[id];
                  && after.turns[turnId].status == (if interrupted then Interrupted else Failed)
                  && after.turns == s.turns[turnId := s.turns[turnId].(status := after.turns[turnId].status)]
                  && after.conversations == s.conversations[id := Conversation(
                       c.version + 1, c.title, c.status, c.messageCount, c.messages, c.runtime,
                       c.events + [Event(if interrupted then TurnInterrupted else TurnFailed, Some(turnId))])])
  {
    if TurnExists(s, id, turnId) {
      OpenOrOver(s.turns[turnId].status);
    }
  }

  /** A conversation starts empty and active, at version 1 and without a thread. */
  lemma CreationIsExact(texts: Texts, s: Store, id: nat, title: Option<string>)
    requires id !in s.conversations
    ensures var (after, error) := Create(texts, s, id, title);
            var normal := if title.Some? then texts.normalize(title.value) else Some("Neue Unterhaltung");
            && error == (if normal.None? then Some(InvalidTitle) else None)
            && (normal.None? ==> after == s)
            && (normal.Some? ==>
                  && after.turns == s.turns
                  && after.conversations == s.conversations[id := Conversation(1, normal.value, Active, 0, [], None,
                                                                               [Event(Created, None)])])
  {
    assert [] + [Event(Created, None)] == [Event(Created, None)];
  }

  /** An edit names a title or a status, the status is not "deleted", and it expects the current version. */
  predicate Editable(texts: Texts, s: Store, id: nat, expectedVersion: nat, title: Option<string>,
          status: Option<ConversationStatus>)
  {
    && (title.Some? || status.Some?) && status != Some(Deleted)
    && Exists(s, id) && s.conversations[id].version == expectedVersion
    && (title.Some? ==> texts.normalize(title.value).Some?)
  }

  /** An edit is accepted exactly then. It leaves the conversation alone if it already is that way; else it moves it one
      version on, with one event that names the change of status before the one of the title. */
  lemma UpdateIsExact(texts: Texts, s: Store, id: nat, expectedVersion: nat, title: Option<string>,
          status: Option<ConversationStatus>)
    ensures var (after, error) := Update(texts, s, id, expectedVersion, title, status);
            && (error.None? <==> Editable(texts, s, id, expectedVersion, title, status))
            && (error.Some? ==> after == s)
            && (error.None? ==>
                  var (c, d) := (s.conversations[id], after.conversations[id]);
                  && (title.Some? ==> texts.normalize(title.value) == Some(d.title))
                  && (title.None? ==> d.title == c.title)
                  && (status.Some? ==> d.status == status.value) && (status.None? ==> d.status == c.status)
                  && (d.title == c.title && d.status == c.status ==> after == s)
                  && (d.title != c.title || d.status != c.status ==>
                        var kind := if d.status == c.status then Renamed
                                    else if d.status == Active then Restored
                                    else WasArchived;
                        && after.turns == s.turns
                        && after.conversations == s.conversations[id := Conversation(
                             c.version + 1, d.title, d.status, c.messageCount, c.messages, c.runtime,
                             c.events + [Event(kind, None)])]))
  {
  }

  lemma UpdateRefusals(texts: Texts, s: Store, id: nat, expectedVersion: nat, title: Option<string>,
          status: Option<ConversationStatus>)
    ensures var error := Update(texts, s, id, expectedVersion, title, status).1;
            var formed := (title.Some? || status.Some?) && status != Some(Deleted);
            && (error == Some(InvalidRequest) <==> !formed)
            && (error == Some(ConversationNotFound) <==> formed && !Exists(s, id))
            && (error == Some(StaleConversation)
                <==> formed && Exists(s, id) && s.conversations[id].version != expectedVersion)
            && (error == Some(InvalidTitle)
                <==> formed && Exists(s, id) && s.conversations[id].version == expectedVersion
                     && title.Some? && texts.normalize(title.value).None?)
  {
  }

  /** Deleting leaves of a conversation its number, its audit log and the mark that it is deleted, and of its turns
      nothing; the other conversations keep theirs. */
  lemma DeletionIsExact(s: Store, id: nat)
    ensures var (after, error) := DeleteLocalContent(s, id);
            && error == (if Exists(s, id) then None else Some(ConversationNotFound))
            && (!Exists(s, id) ==> after == s)
            && (Exists(s, id) ==>
                  var c := s.conversations[id];
                  && after.conversations == s.conversations[id := Conversation(
                       c.version + 1, "Gelöschte Unterhaltung", Deleted, 0, [], None,
                       c.events + [Event(WasDeleted, None)])]
                  && (forall t :: t in after.turns <==> t in s.turns && s.turns[t].conversation != id)
                  && (forall t | t in after.turns :: after.turns[t] == s.turns[t]))
  {
  }

  /** A thread is bound exactly if the conversation has it already, or has none and nobody else has it. */
  lemma BindingIsExact(s: Store, id: nat, runtime: Runtime)
    ensures var (after, error) := BindRuntime(s, id, runtime);
            var free := Exists(s, id) && match s.conversations[id].runtime
                                         case Some(bound) => bound.threadId == runtime.threadId
                                         case None => forall j | j in s.conversations ::
                                             s.conversations[j].runtime.Some? ==>
                                             s.conversations[j].runtime.value.threadId != runtime.threadId;
            && error == (if free then None else if Exists(s, id) then Some(ThreadConflict)
                         else Some(ConversationNotFound))
            && (!free ==> after == s)
            && (free ==>
                  var c := s.conversations[id];
                  && after.turns == s.turns
                  && after.conversations == s.conversations[id := Conversation(
                       c.version, c.title, c.status, c.messageCount, c.messages, Some(runtime),
                       c.events + [Event(ProviderBound, None)])])
  {
  }
}
