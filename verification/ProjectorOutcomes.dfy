/** What the projector answers and streams, told by the texts of its messages alone: which deltas and completions are
    accepted, and that the log carries exactly what was accepted. */
module ProjectorOutcomes {
  import opened Wrappers
  import opened Identifiers
  import opened Bytes
  import opened Sequences
  import opened StreamWire
  import opened ProjectorRules
  import opened ProjectorRuns

  /** One message of the turn: the provider's item, the bytes the log carries for it, and whether it is complete. */
  datatype Entry = Entry(item: string, text: seq<byte>, complete: bool)

  function EntriesOf(log: seq<StreamEvent>, messages: seq<ActiveMessage>): (entries: seq<Entry>)
    ensures |entries| == |messages|
  {
    seq(|messages|, i requires 0 <= i < |messages| =>
          Entry(messages[i].providerMessageId, Content(log, messages[i].messageId), messages[i].completed))
  }

  function Entries(p: Projector): seq<Entry> {
    EntriesOf(p.events, p.messages)
  }

  function TotalText(entries: seq<Entry>): nat {
    if entries == [] then 0 else TotalText(entries[..|entries| - 1]) + |entries[|entries| - 1].text|
  }

  /** The place of an item among the entries. */
  ghost function Place(entries: seq<Entry>, item: string): (at: Option<nat>)
    ensures at.Some? ==> at.value < |entries| && entries[at.value].item == item
    ensures at.None? ==> forall i | 0 <= i < |entries| :: entries[i].item != item
  {
    if exists i | 0 <= i < |entries| :: entries[i].item == item then
      var i :| 0 <= i < |entries| && entries[i].item == item;
      Some(i)
    else None
  }

  /** Why content for an item is refused: 512 KiB a message, 1 MiB a turn, eight messages. */
  ghost function ContentRefusal(entries: seq<Entry>, item: string, bytes: seq<byte>): Option<StreamError> {
    var at := Place(entries, item);
    var held := if at.Some? then |entries[at.value].text| else 0;
    if at.None? && |entries| == 8 then Some(TooManyMessages)
    else if at.Some? && entries[at.value].complete then Some(LateContent)
    else if held + |bytes| > 524288 || TotalText(entries) + |bytes| > 1048576 then Some(ContentTooLarge)
    else None
  }

  /** Why a notification is refused whatever it holds. */
  function AddressRefusal(p: Projector, threadId: string, turnId: string): Option<StreamError> {
    if p.terminal then Some(StreamTerminal)
    else if threadId == p.binding.providerThreadId && turnId == p.binding.providerTurnId then None
    else Some(ProviderBindingMismatch)
  }

  ghost function DeltaRefusal(p: Projector, threadId: string, turnId: string, item: string, delta: seq<byte>)
    : Option<StreamError>
  {
    if AddressRefusal(p, threadId, turnId).Some? then AddressRefusal(p, threadId, turnId)
    else if !ValidResourceId(item) then Some(InvalidIdentifier)
    else if delta == [] then None
    else ContentRefusal(Entries(p), item, delta)
  }

  // ---------------------------------------------------------------- records and entries

  lemma EntriesArePartsAt(sha: seq<byte> -> string, p: Projector, i: nat)
    requires Inv(sha, p) && i < |p.messages|
    ensures var m := p.messages[i];
            && Entries(p)[i] == Entry(m.providerMessageId, Concat(m.parts), m.completed)
            && m.messageId == MessageId(i + 1) && m.totalBytes == |Entries(p)[i].text|
            && m.digest == if m.completed then Some(sha(Entries(p)[i].text)) else None
  {
    assert MessageInv(sha, p.events, p.messages[i], i);
  }

  lemma PlaceIsFind(sha: seq<byte> -> string, p: Projector, item: string)
    requires Inv(sha, p)
    ensures Place(Entries(p), item) == Find(p.messages, item)
  {
    var at, found := Place(Entries(p), item), Find(p.messages, item);
    if at.Some? {
      assert p.messages[at.value].providerMessageId == item;
    }
    if found.Some? {
      assert Entries(p)[found.value].item == item;
    }
  }

  lemma {:induction false} TotalIsSum(log: seq<StreamEvent>, messages: seq<ActiveMessage>)
    requires forall i | 0 <= i < |messages| :: messages[i].totalBytes == |Content(log, messages[i].messageId)|
    ensures TotalText(EntriesOf(log, messages)) == SumBytes(messages)
    decreases |messages|
  {
    if messages != [] {
      var init := messages[..|messages| - 1];
      assert EntriesOf(log, messages)[..|messages| - 1] == EntriesOf(log, init);
      TotalIsSum(log, init);
    }
  }

  lemma BudgetIsTotal(sha: seq<byte> -> string, p: Projector)
    requires Inv(sha, p) && !p.terminal
    ensures TotalText(Entries(p)) == p.turnBytes
  {
    forall i | 0 <= i < |p.messages| ensures p.messages[i].totalBytes == |Content(p.events, p.messages[i].messageId)| {
      EntriesArePartsAt(sha, p, i);
    }
    TotalIsSum(p.events, p.messages);
  }

  // ---------------------------------------------------------------- what publishing does

  /** The entries after some bytes for an item: they extend its text, or begin it. */
  ghost function Written(entries: seq<Entry>, item: string, bytes: seq<byte>): seq<Entry> {
    match Place(entries, item)
    case Some(i) => entries[i := entries[i].(text := entries[i].text + bytes)]
    case None => entries + [Entry(item, bytes, false)]
  }

  /** Refused content leaves the entries alone, unless it is the first of its item and only too large. */
  ghost function Refused(entries: seq<Entry>, item: string, refusal: StreamError): seq<Entry> {
    if refusal == ContentTooLarge && Place(entries, item).None? then entries + [Entry(item, [], false)] else entries
  }

  /** The answer to some content for an item, and the entries after it. */
  ghost function Publishing(entries: seq<Entry>, item: string, bytes: seq<byte>): (Option<StreamError>, seq<Entry>) {
    var refusal := ContentRefusal(entries, item, bytes);
    (refusal, if refusal.None? then Written(entries, item, bytes) else Refused(entries, item, refusal.value))
  }

  lemma StartedEntries(sha: seq<byte> -> string, p: Projector, q: Projector, item: string)
    requires Inv(sha, p) && Inv(sha, q) && |p.messages| < 8
    requires q.messages == p.messages + [ActiveMessage(false, None, MessageId(|p.messages| + 1), item, 0, [], 0)]
    ensures Entries(q) == Entries(p) + [Entry(item, [], false)]
  {
    var all := Entries(p) + [Entry(item, [], false)];
    forall i | 0 <= i < |q.messages| ensures Entries(q)[i] == all[i] {
      EntriesArePartsAt(sha, q, i);
      if i < |p.messages| {
        EntriesArePartsAt(sha, p, i);
      }
    }
  }

  lemma StartedIsFound(messages: seq<ActiveMessage>, m: ActiveMessage)
    requires Find(messages, m.providerMessageId).None?
    ensures Find(messages + [m], m.providerMessageId) == Some(|messages|)
  {
    assert (messages + [m])[|messages|] == m;
  }

  lemma StartEntries(sha: seq<byte> -> string, p: Projector, item: string)
    requires Inv(sha, p) && !p.terminal && Find(p.messages, item).None? && |p.messages| < 8
    ensures var (q, error) := StartMessage(p, item);
            && Inv(sha, q) && error.None? && Entries(q) == Entries(p) + [Entry(item, [], false)]
            && Find(q.messages, item) == Some(|p.messages|)
  {
    StartKeepsInv(sha, p, item);
    StartedEntries(sha, p, StartMessage(p, item).0, item);
    StartedIsFound(p.messages, ActiveMessage(false, None, MessageId(|p.messages| + 1), item, 0, [], 0));
  }

  lemma AddEntries(sha: seq<byte> -> string, p: Projector, i: nat, bytes: seq<byte>)
    requires Inv(sha, p) && !p.terminal && i < |p.messages| && !p.messages[i].completed
    requires Inv(sha, AddPart(p, i, bytes))
    ensures Entries(AddPart(p, i, bytes)) == Entries(p)[i := Entries(p)[i].(text := Entries(p)[i].text + bytes)]
  {
    var q := AddPart(p, i, bytes);
    ConcatAppend(p.messages[i].parts, bytes);
    forall k | 0 <= k < |p.messages|
      ensures Entries(q)[k] == Entries(p)[i := Entries(p)[i].(text := Entries(p)[i].text + bytes)][k]
    {
      EntriesArePartsAt(sha, p, k);
      EntriesArePartsAt(sha, q, k);
    }
  }

  lemma PublishToKnown(sha: seq<byte> -> string, p: Projector, item: string, bytes: seq<byte>)
    requires Inv(sha, p) && !p.terminal && Find(p.messages, item).Some?
    ensures var (q, error) := PublishTo(p, Find(p.messages, item).value, bytes);
            (error, Entries(q)) == Publishing(Entries(p), item, bytes)
  {
    var i := Find(p.messages, item).value;
    PlaceIsFind(sha, p, item);
    BudgetIsTotal(sha, p);
    EntriesArePartsAt(sha, p, i);
    if PublishTo(p, i, bytes).1.None? {
      AddKeepsLog(sha, p, i, bytes);
      AddKeepsMessages(sha, p, i, bytes);
      AddEntries(sha, p, i, bytes);
    }
  }

  /** An item that has just started is refused no more and no less than it was before. */
  lemma RefusalAfterStart(entries: seq<Entry>, item: string, bytes: seq<byte>)
    requires Place(entries, item).None? && |entries| < 8
    ensures Publishing(entries + [Entry(item, [], false)], item, bytes) == Publishing(entries, item, bytes)
  {
    var e := Entry(item, [], false);
    var started := entries + [e];
    ButLast(entries, e);
    assert started[|entries|] == e;
    assert [] + bytes == bytes;
    assert started[|entries| := Entry(item, bytes, false)] == entries + [Entry(item, bytes, false)];
  }

  lemma PublishToNew(sha: seq<byte> -> string, p: Projector, item: string, bytes: seq<byte>)
    requires Inv(sha, p) && !p.terminal && Find(p.messages, item).None? && |p.messages| < 8
    ensures var (q, error) := PublishTo(StartMessage(p, item).0, |p.messages|, bytes);
            (error, Entries(q)) == Publishing(Entries(p), item, bytes)
  {
    PlaceIsFind(sha, p, item);
    StartEntries(sha, p, item);
    PublishToKnown(sha, StartMessage(p, item).0, item, bytes);
    RefusalAfterStart(Entries(p), item, bytes);
  }

  lemma PublishUnfolds(p: Projector, item: string, bytes: seq<byte>)
    ensures Publish(p, item, bytes) ==
            match Find(p.messages, item)
            case Some(i) => PublishTo(p, i, bytes)
            case None =>
              if |p.messages| < 8 then PublishTo(StartMessage(p, item).0, |p.messages|, bytes)
              else (p, Some(TooManyMessages))
  {
  }

  lemma PublishIsExact(sha: seq<byte> -> string, p: Projector, item: string, bytes: seq<byte>)
    requires Inv(sha, p) && !p.terminal
    ensures var (q, error) := Publish(p, item, bytes);
            (error, Entries(q)) == Publishing(Entries(p), item, bytes)
  {
    PublishUnfolds(p, item, bytes);
    if Find(p.messages, item).Some? {
      PublishToKnown(sha, p, item, bytes);
    } else if |p.messages| < 8 {
      PublishToNew(sha, p, item, bytes);
    } else {
      PlaceIsFind(sha, p, item);
    }
  }

  lemma PublishKeepsRest(p: Projector, item: string, bytes: seq<byte>)
    ensures Publish(p, item, bytes).0.terminal == p.terminal && Publish(p, item, bytes).0.binding == p.binding
  {
  }

  // ---------------------------------------------------------------- deltas

  lemma DeltaPublishes(p: Projector, threadId: string, turnId: string, item: string, delta: seq<byte>)
    requires AddressRefusal(p, threadId, turnId).None? && ValidResourceId(item) && delta != []
    ensures ReceiveDelta(p, threadId, turnId, item, delta) == Publish(p, item, delta)
  {
  }

  lemma DeltaDoesNothing(p: Projector, threadId: string, turnId: string, item: string, delta: seq<byte>)
    requires !(AddressRefusal(p, threadId, turnId).None? && ValidResourceId(item) && delta != [])
    ensures ReceiveDelta(p, threadId, turnId, item, delta) == (p, DeltaRefusal(p, threadId, turnId, item, delta))
  {
  }

  /** In every consistent state a delta is answered exactly as the texts of the messages say: a non-empty one for this
      turn is accepted if its item is open, or new with fewer than eight messages, and both limits hold. An accepted
      one extends the text of its item by exactly its bytes, and no other entry changes. */
  lemma DeltaIsExact(sha: seq<byte> -> string, p: Projector, threadId: string, turnId: string, item: string,
          delta: seq<byte>)
    requires Inv(sha, p)
    ensures var (q, error) := ReceiveDelta(p, threadId, turnId, item, delta);
            && error == DeltaRefusal(p, threadId, turnId, item, delta)
            && Entries(q) == (if error.Some? then Refused(Entries(p), item, error.value)
                              else if delta == [] then Entries(p)
                              else Written(Entries(p), item, delta))
            && q.terminal == p.terminal && q.binding == p.binding
  {
    if AddressRefusal(p, threadId, turnId).None? && ValidResourceId(item) && delta != [] {
      DeltaPublishes(p, threadId, turnId, item, delta);
      PublishIsExact(sha, p, item, delta);
      PublishKeepsRest(p, item, delta);
    } else {
      DeltaDoesNothing(p, threadId, turnId, item, delta);
    }
  }

  /** The same of every state a turn reaches. */
  lemma ReachedDeltaIsExact(sha: seq<byte> -> string, b: Binding, ops: seq<Op>, threadId: string, turnId: string,
          item: string, delta: seq<byte>)
    requires HexDigests(sha) && ValidBinding(b)
    ensures var p := Run(sha, Initial(b), ops);
            var (q, error) := ReceiveDelta(p, threadId, turnId, item, delta);
            && error == DeltaRefusal(p, threadId, turnId, item, delta)
            && (error.None? && delta != [] ==> Entries(q) == Written(Entries(p), item, delta))
  {
    InitialInv(sha, b);
    RunKeepsInv(sha, Initial(b), ops);
    DeltaIsExact(sha, Run(sha, Initial(b), ops), threadId, turnId, item, delta);
  }

  // ---------------------------------------------------------------- completions of items

  /** Why the completion of an item is refused, or that it is not an assistant message, or that it is accepted. */
  ghost function CompletionAnswer(p: Projector, threadId: string, turnId: string, isAgentMessage: bool, item: string,
          text: seq<byte>): Result<bool, StreamError>
  {
    var at := Place(Entries(p), item);
    if AddressRefusal(p, threadId, turnId).Some? then Err(AddressRefusal(p, threadId, turnId).value)
    else if !isAgentMessage then Ok(false)
    else if !ValidResourceId(item) then Err(InvalidIdentifier)
    else
      match at
      case Some(i) =>
        if Entries(p)[i].complete then Err(DuplicateCompletion)
        else if Entries(p)[i].text != text then Err(ContentMismatch)
        else Ok(true)
      case None =>
        if ContentRefusal(Entries(p), item, text).Some? then Err(ContentRefusal(Entries(p), item, text).value)
        else Ok(true)
  }

  /** An accepted completion closes its item; an item it brings is there with its text. */
  ghost function Completed(entries: seq<Entry>, item: string, text: seq<byte>): seq<Entry> {
    match Place(entries, item)
    case Some(i) => entries[i := Entry(item, text, true)]
    case None => entries + [Entry(item, text, true)]
  }

  ghost function EntriesAfterCompletion(entries: seq<Entry>, item: string, text: seq<byte>,
          answer: Result<bool, StreamError>): seq<Entry>
  {
    if answer == Ok(true) then Completed(entries, item, text)
    else if answer == Err(ContentTooLarge) then Refused(entries, item, ContentTooLarge)
    else entries
  }

  lemma MarkedEntries(sha: seq<byte> -> string, p: Projector, i: nat)
    requires Inv(sha, p) && i < |p.messages|
    ensures Entries(MarkCompleted(sha, p, i)) == Entries(p)[i := Entries(p)[i].(complete := true)]
  {
  }

  /** Publishing no bytes for an item that is new starts it. */
  lemma StartIsExact(sha: seq<byte> -> string, p: Projector, item: string)
    requires Inv(sha, p) && !p.terminal && Find(p.messages, item).None?
    ensures var (q, error) := StartMessage(p, item);
            Inv(sha, q) && (error, Entries(q)) == Publishing(Entries(p), item, [])
  {
    PlaceIsFind(sha, p, item);
    StartKeepsInv(sha, p, item);
    BudgetIsTotal(sha, p);
    if |p.messages| < 8 {
      StartEntries(sha, p, item);
    }
  }

  /** An item that is new is brought with its text, an empty one too. */
  lemma EnsureIsExact(sha: seq<byte> -> string, p: Projector, item: string, text: seq<byte>)
    requires Inv(sha, p) && !p.terminal && Find(p.messages, item).None?
    ensures var (q, error) := EnsureMessage(p, item, text);
            Inv(sha, q) && (error, Entries(q)) == Publishing(Entries(p), item, text)
  {
    EnsureKeepsInv(sha, p, item, text);
    if text == [] {
      StartIsExact(sha, p, item);
    } else {
      PublishIsExact(sha, p, item, text);
    }
  }

  lemma CompletesKnown(sha: seq<byte> -> string, p: Projector, threadId: string, turnId: string, item: string,
          text: seq<byte>)
    requires Inv(sha, p) && AddressRefusal(p, threadId, turnId).None? && ValidResourceId(item)
    requires Place(Entries(p), item).Some?
    ensures var (q, answer) := CompleteItem(sha, p, threadId, turnId, true, item, text);
            && answer == CompletionAnswer(p, threadId, turnId, true, item, text)
            && Entries(q) == if answer == Ok(true) then Completed(Entries(p), item, text) else Entries(p)
  {
    var i := Place(Entries(p), item).value;
    PlaceIsFind(sha, p, item);
    EntriesArePartsAt(sha, p, i);
    MarkedEntries(sha, p, i);
  }

  lemma BroughtIsCompleted(entries: seq<Entry>, item: string, text: seq<byte>)
    requires Place(entries, item).None?
    ensures var brought := Written(entries, item, text);
            && Place(brought, item) == Some(|entries|) && brought[|entries|] == Entry(item, text, false)
            && brought[|entries| := Entry(item, text, true)] == Completed(entries, item, text)
  {
    assert Written(entries, item, text)[|entries|] == Entry(item, text, false);
  }

  /** The last step of a completion, once the item is there. */
  lemma CompletesBrought(sha: seq<byte> -> string, q: Projector, entries: seq<Entry>, item: string, text: seq<byte>)
    requires Inv(sha, q) && Place(entries, item).None? && Entries(q) == Written(entries, item, text)
    ensures Find(q.messages, item) == Some(|entries|) && |entries| < |q.messages|
    ensures !q.messages[|entries|].completed && Concat(q.messages[|entries|].parts) == text
    ensures Entries(MarkCompleted(sha, q, |entries|)) == Completed(entries, item, text)
  {
    BroughtIsCompleted(entries, item, text);
    PlaceIsFind(sha, q, item);
    EntriesArePartsAt(sha, q, |entries|);
    MarkedEntries(sha, q, |entries|);
  }

  lemma CompletesNew(sha: seq<byte> -> string, p: Projector, threadId: string, turnId: string, item: string,
          text: seq<byte>)
    requires Inv(sha, p) && AddressRefusal(p, threadId, turnId).None? && ValidResourceId(item)
    requires Find(p.messages, item).None?
    ensures var (q, answer) := CompleteItem(sha, p, threadId, turnId, true, item, text);
            && answer == CompletionAnswer(p, threadId, turnId, true, item, text)
            && Entries(q) == if answer == Ok(true) then Completed(Entries(p), item, text)
                             else Refused(Entries(p), item, answer.error)
  {
    PlaceIsFind(sha, p, item);
    EnsureIsExact(sha, p, item, text);
    if EnsureMessage(p, item, text).1.None? {
      CompletesBrought(sha, EnsureMessage(p, item, text).0, Entries(p), item, text);
    }
  }

  /** In every consistent state the completion of an item is answered exactly as the texts say: it is accepted if the
      item is open and its text is the one given, or if the item is new and the text given fits. */
  lemma CompletionIsExact(sha: seq<byte> -> string, p: Projector, threadId: string, turnId: string,
          isAgentMessage: bool, item: string, text: seq<byte>)
    requires Inv(sha, p)
    ensures var (q, answer) := CompleteItem(sha, p, threadId, turnId, isAgentMessage, item, text);
            && answer == CompletionAnswer(p, threadId, turnId, isAgentMessage, item, text)
            && Entries(q) == EntriesAfterCompletion(Entries(p), item, text, answer)
            && q.terminal == p.terminal && q.binding == p.binding
  {
    CompleteKeepsRest(sha, p, threadId, turnId, isAgentMessage, item, text);
    if AddressRefusal(p, threadId, turnId).None? && isAgentMessage && ValidResourceId(item) {
      PlaceIsFind(sha, p, item);
      if Find(p.messages, item).Some? {
        CompletesKnown(sha, p, threadId, turnId, item, text);
      } else {
        CompletesNew(sha, p, threadId, turnId, item, text);
      }
    } else {
      CompletionDoesNothing(sha, p, threadId, turnId, isAgentMessage, item, text);
    }
  }

  lemma CompletionDoesNothing(sha: seq<byte> -> string, p: Projector, threadId: string, turnId: string,
          isAgentMessage: bool, item: string, text: seq<byte>)
    requires !(AddressRefusal(p, threadId, turnId).None? && isAgentMessage && ValidResourceId(item))
    ensures CompleteItem(sha, p, threadId, turnId, isAgentMessage, item, text)
         == (p, CompletionAnswer(p, threadId, turnId, isAgentMessage, item, text))
    ensures CompletionAnswer(p, threadId, turnId, isAgentMessage, item, text) !in {Ok(true), Err(ContentTooLarge)}
  {
  }

  lemma CompleteKeepsRest(sha: seq<byte> -> string, p: Projector, threadId: string, turnId: string,
          isAgentMessage: bool, item: string, text: seq<byte>)
    ensures var q := CompleteItem(sha, p, threadId, turnId, isAgentMessage, item, text).0;
            q.terminal == p.terminal && q.binding == p.binding
  {
    CompleteOutcomes(sha, p, threadId, turnId, isAgentMessage, item, text);
  }

  // ---------------------------------------------------------------- a whole turn

  predicate DistinctEntries(entries: seq<Entry>) {
    forall i, j | 0 <= i < j < |entries| :: entries[i].item != entries[j].item
  }

  ghost function TextIn(entries: seq<Entry>, item: string): seq<byte> {
    var at := Place(entries, item);
    if at.Some? then entries[at.value].text else []
  }

  /** What one notification adds to an item: an accepted delta of it, or the text of a completion that brings it. */
  ghost function Contribution(p: Projector, op: Op, item: string): seq<byte> {
    match op
    case Delta(threadId, turnId, other, delta) =>
      if other == item && DeltaRefusal(p, threadId, turnId, item, delta).None? then delta else []
    case ItemCompleted(threadId, turnId, isAgentMessage, other, text) =>
      if other == item && CompletionAnswer(p, threadId, turnId, isAgentMessage, item, text) == Ok(true)
         && Place(Entries(p), item).None?
      then text
      else []
    case _ => []
  }

  ghost function Given(sha: seq<byte> -> string, p: Projector, ops: seq<Op>, item: string): seq<byte>
    decreases |ops|
  {
    if ops == [] then []
    else Contribution(p, ops[0], item) + Given(sha, Next(sha, p, ops[0]), ops[1..], item)
  }

  lemma PlaceIsOnly(entries: seq<Entry>, i: nat)
    requires DistinctEntries(entries) && i < |entries|
    ensures Place(entries, entries[i].item) == Some(i)
  {
  }

  lemma TextAfterUpdate(entries: seq<Entry>, i: nat, e: Entry, item: string)
    requires DistinctEntries(entries) && i < |entries| && e.item == entries[i].item
    ensures TextIn(entries[i := e], item) == if item == e.item then e.text else TextIn(entries, item)
  {
    var after := entries[i := e];
    assert DistinctEntries(after);
    if exists k | 0 <= k < |entries| :: entries[k].item == item {
      var k :| 0 <= k < |entries| && entries[k].item == item;
      PlaceIsOnly(entries, k);
      assert after[k].item == item;
      PlaceIsOnly(after, k);
    } else {
      assert forall k | 0 <= k < |after| :: after[k].item != item;
    }
  }

  lemma TextAfterAppend(entries: seq<Entry>, e: Entry, item: string)
    requires DistinctEntries(entries) && Place(entries, e.item).None?
    ensures TextIn(entries + [e], item) == if item == e.item then e.text else TextIn(entries, item)
  {
    var after := entries + [e];
    assert DistinctEntries(after);
    if item == e.item {
      assert after[|entries|] == e;
      PlaceIsOnly(after, |entries|);
    } else if exists k | 0 <= k < |entries| :: entries[k].item == item {
      var k :| 0 <= k < |entries| && entries[k].item == item;
      PlaceIsOnly(entries, k);
      assert after[k] == entries[k];
      PlaceIsOnly(after, k);
    } else {
      assert forall k | 0 <= k < |after| :: after[k].item != item;
    }
  }

  lemma TextAfterWriting(entries: seq<Entry>, other: string, bytes: seq<byte>, item: string)
    requires DistinctEntries(entries)
    ensures TextIn(Written(entries, other, bytes), item)
         == TextIn(entries, item) + if other == item then bytes else []
  {
    assert TextIn(entries, item) + [] == TextIn(entries, item);
    match Place(entries, other)
    case Some(i) => TextAfterUpdate(entries, i, entries[i].(text := entries[i].text + bytes), item);
    case None =>
      TextAfterAppend(entries, Entry(other, bytes, false), item);
      assert [] + bytes == bytes;
  }

  lemma TextAfterRefusal(entries: seq<Entry>, other: string, refusal: StreamError, item: string)
    requires DistinctEntries(entries)
    ensures TextIn(Refused(entries, other, refusal), item) == TextIn(entries, item)
  {
    if Place(entries, other).None? {
      TextAfterAppend(entries, Entry(other, [], false), item);
    }
  }

  lemma TextAfterCompletion(entries: seq<Entry>, other: string, text: seq<byte>, item: string)
    requires DistinctEntries(entries) && (Place(entries, other).Some? ==> TextIn(entries, other) == text)
    ensures TextIn(Completed(entries, other, text), item)
         == TextIn(entries, item) + if other == item && Place(entries, other).None? then text else []
  {
    assert TextIn(entries, item) + [] == TextIn(entries, item);
    assert [] + text == text;
    match Place(entries, other)
    case Some(i) => TextAfterUpdate(entries, i, Entry(other, text, true), item);
    case None => TextAfterAppend(entries, Entry(other, text, true), item);
  }

  lemma EntriesAreDistinct(sha: seq<byte> -> string, p: Projector)
    requires Inv(sha, p)
    ensures DistinctEntries(Entries(p))
  {
  }

  lemma DeltaContributes(sha: seq<byte> -> string, p: Projector, op: Op, item: string)
    requires Inv(sha, p) && op.Delta?
    ensures TextIn(Entries(Next(sha, p, op)), item) == TextIn(Entries(p), item) + Contribution(p, op, item)
  {
    EntriesAreDistinct(sha, p);
    DeltaIsExact(sha, p, op.threadId, op.turnId, op.item, op.delta);
    var refusal := DeltaRefusal(p, op.threadId, op.turnId, op.item, op.delta);
    AppendEmpty(TextIn(Entries(p), item));
    if refusal.Some? {
      TextAfterRefusal(Entries(p), op.item, refusal.value, item);
    } else if op.delta != [] {
      TextAfterWriting(Entries(p), op.item, op.delta, item);
    }
  }

  lemma CompletionContributes(sha: seq<byte> -> string, p: Projector, op: Op, item: string)
    requires Inv(sha, p) && op.ItemCompleted?
    ensures TextIn(Entries(Next(sha, p, op)), item) == TextIn(Entries(p), item) + Contribution(p, op, item)
  {
    EntriesAreDistinct(sha, p);
    CompletionIsExact(sha, p, op.threadId, op.turnId, op.isAgentMessage, op.item, op.text);
    var answer := CompletionAnswer(p, op.threadId, op.turnId, op.isAgentMessage, op.item, op.text);
    AppendEmpty(TextIn(Entries(p), item));
    if answer == Ok(true) {
      TextAfterCompletion(Entries(p), op.item, op.text, item);
    } else if answer == Err(ContentTooLarge) {
      TextAfterRefusal(Entries(p), op.item, ContentTooLarge, item);
    }
  }

  /** The other operations add no text; aborting forgets the messages. */
  lemma EndingContributes(sha: seq<byte> -> string, p: Projector, op: Op, item: string)
    requires Inv(sha, p) && !op.Delta? && !op.ItemCompleted?
    ensures Contribution(p, op, item) == [] && (p.terminal ==> Next(sha, p, op).terminal)
    ensures Entries(Next(sha, p, op)) == if op.Aborted? then [] else Entries(p)
  {
    if op.CompletionsPublished? && p.terminal {
      AllPublishable(sha, p);
      CompletionsPassGuard(sha, p.binding, p.events, p.messages);
      forall i | 0 <= i < |p.messages| ensures Entries(Next(sha, p, op))[i] == Entries(p)[i] {
        CompletionsLeaveContent(p.events, CompletionEvents(p.binding, p.messages), p.messages[i].messageId);
      }
    }
  }

  lemma {:induction false} NothingAfterAbort(sha: seq<byte> -> string, p: Projector, ops: seq<Op>)
    requires p.terminal && p.messages == []
    ensures Run(sha, p, ops) == p
    decreases |ops|
  {
    if ops != [] {
      AppendEmpty(p.events);
      assert Next(sha, p, ops[0]) == p;
      NothingAfterAbort(sha, p, ops[1..]);
    }
  }

  /** From any consistent state: an item that is there at the end carries what it had and what it was given since. */
  lemma {:induction false} TextIsWhatWasGiven(sha: seq<byte> -> string, p: Projector, ops: seq<Op>, item: string)
    requires Inv(sha, p) && Place(Entries(Run(sha, p, ops)), item).Some?
    ensures TextIn(Entries(Run(sha, p, ops)), item) == TextIn(Entries(p), item) + Given(sha, p, ops, item)
    decreases |ops|
  {
    var text := TextIn(Entries(p), item);
    if ops == [] {
      AppendEmpty(text);
    } else {
      var next := Next(sha, p, ops[0]);
      if ops[0].Aborted? {
        NothingAfterAbort(sha, next, ops[1..]);
      } else {
        NextKeepsInv(sha, p, ops[0]);
        TextIsWhatWasGiven(sha, next, ops[1..], item);
        StepContributes(sha, p, ops[0], item);
        AppendAssoc(text, Contribution(p, ops[0], item), Given(sha, next, ops[1..], item));
      }
    }
  }

  lemma StepContributes(sha: seq<byte> -> string, p: Projector, op: Op, item: string)
    requires Inv(sha, p) && !op.Aborted?
    ensures TextIn(Entries(Next(sha, p, op)), item) == TextIn(Entries(p), item) + Contribution(p, op, item)
  {
    if op.Delta? {
      DeltaContributes(sha, p, op, item);
    } else if op.ItemCompleted? {
      CompletionContributes(sha, p, op, item);
    } else {
      EndingContributes(sha, p, op, item);
      AppendEmpty(TextIn(Entries(p), item));
    }
  }

  /** Over a whole turn, whatever was refused in between: the content the log carries for a message is the concatenation
      of its item's accepted deltas, or the text of the completion that brought the item. */
  lemma ContentIsWhatWasGiven(sha: seq<byte> -> string, b: Binding, ops: seq<Op>, i: nat)
    requires HexDigests(sha) && ValidBinding(b) && i < |Run(sha, Initial(b), ops).messages|
    ensures var p := Run(sha, Initial(b), ops);
            Content(p.events, p.messages[i].messageId) == Given(sha, Initial(b), ops, p.messages[i].providerMessageId)
  {
    var p := Run(sha, Initial(b), ops);
    var item := p.messages[i].providerMessageId;
    InitialInv(sha, b);
    RunKeepsInv(sha, Initial(b), ops);
    EntriesAreDistinct(sha, p);
    assert Entries(p)[i].item == item;
    PlaceIsOnly(Entries(p), i);
    TextIsWhatWasGiven(sha, Initial(b), ops, item);
    assert [] + Given(sha, Initial(b), ops, item) == Given(sha, Initial(b), ops, item);
  }

  // ---------------------------------------------------------------- the end of a turn

  predicate EveryItemComplete(entries: seq<Entry>) {
    forall i | 0 <= i < |entries| :: entries[i].complete
  }

  /** The answers are the items with the digests and bytes of their texts, in the order the items came. */
  predicate AnswersAre(sha: seq<byte> -> string, answers: seq<CompletedMessage>, entries: seq<Entry>) {
    && |answers| == |entries|
    && forall i | 0 <= i < |entries| ::
         answers[i] == CompletedMessage(entries[i].item, sha(entries[i].text), entries[i].text)
  }

  lemma CompleteIsAllCompleted(p: Projector)
    ensures EveryItemComplete(Entries(p)) <==> AllCompleted(p.messages)
  {
    if EveryItemComplete(Entries(p)) {
      forall i | 0 <= i < |p.messages| ensures p.messages[i].completed {
        assert Entries(p)[i].complete;
      }
    }
  }

  lemma AnswersAreExact(sha: seq<byte> -> string, p: Projector)
    requires Inv(sha, p) && AllCompleted(p.messages)
    ensures AnswersAre(sha, Answers(p.messages), Entries(p))
  {
    if p.messages != [] {
      AnswersAt(p.messages, 0);
    }
    forall i | 0 <= i < |p.messages|
      ensures Answers(p.messages)[i]
              == CompletedMessage(Entries(p)[i].item, sha(Entries(p)[i].text), Entries(p)[i].text)
    {
      EntriesArePartsAt(sha, p, i);
      AnswersAt(p.messages, i);
    }
  }

  /** A turn ends exactly when it is open and every item is complete; it then answers with the items' texts and digests.
      It emits nothing and forgets nothing. */
  lemma FinishIsExact(sha: seq<byte> -> string, p: Projector)
    requires Inv(sha, p)
    ensures var (q, answer) := FinishTurn(p);
            && (answer.Ok? <==> !p.terminal && EveryItemComplete(Entries(p)))
            && (answer.Ok? ==> AnswersAre(sha, answer.value, Entries(p)))
            && (answer.Err? ==> answer.error == if p.terminal then StreamTerminal else IncompleteMessage)
            && q == p.(terminal := p.terminal || answer.Ok?)
  {
    CompleteIsAllCompleted(p);
    if AllCompleted(p.messages) {
      AnswersAreExact(sha, p);
    }
  }

  lemma {:induction false} AnswersAt(messages: seq<ActiveMessage>, i: nat)
    requires i < |messages|
    ensures |Answers(messages)| == |messages| && Answers(messages)[i] == Answer(messages[i])
    decreases |messages|
  {
    if |messages| > 1 {
      AnswersAt(messages[1..], if i == 0 then 0 else i - 1);
    } else {
      assert messages[1..] == [];
    }
  }

  /** The completions of a finished turn: one for each item, in order, with the length and digest of its text. */
  lemma {:induction false} CompletionsAreExact(sha: seq<byte> -> string, b: Binding, messages: seq<ActiveMessage>,
          i: nat)
    requires HexDigests(sha) && i < |messages|
    requires forall k | 0 <= k < |messages| :: messages[k].completed && Digested(sha, messages[k])
    ensures |CompletionEvents(b, messages)| == |messages|
    ensures CompletionEvents(b, messages)[i]
         == StreamEvent.Completed(messages[i].messageId, b.sessionId, b.turnId, sha(Concat(messages[i].parts)),
                                  messages[i].totalBytes)
    decreases |messages|
  {
    assert Digested(sha, messages[0]) && IsHexDigest(sha(Concat(messages[0].parts)));
    if |messages| > 1 {
      CompletionsAreExact(sha, b, messages[1..], if i == 0 then 0 else i - 1);
    } else {
      assert messages[1..] == [];
    }
  }

  /** The completion of the `i`-th item. */
  function CompletionFor(sha: seq<byte> -> string, b: Binding, e: Entry, i: nat): StreamEvent {
    StreamEvent.Completed(MessageId(i + 1), b.sessionId, b.turnId, sha(e.text), |e.text|)
  }

  predicate CompletionsFor(sha: seq<byte> -> string, b: Binding, completions: seq<StreamEvent>, entries: seq<Entry>) {
    && |completions| == |entries|
    && forall i | 0 <= i < |entries| :: completions[i] == CompletionFor(sha, b, entries[i], i)
  }

  lemma CompletionsForEntries(sha: seq<byte> -> string, p: Projector)
    requires Inv(sha, p) && AllCompleted(p.messages)
    ensures CompletionsFor(sha, p.binding, CompletionEvents(p.binding, p.messages), Entries(p))
  {
    forall k | 0 <= k < |p.messages| ensures Digested(sha, p.messages[k]) {
      assert MessageInv(sha, p.events, p.messages[k], k);
    }
    if p.messages != [] {
      CompletionsAreExact(sha, p.binding, p.messages, 0);
    }
    forall i | 0 <= i < |p.messages|
      ensures CompletionEvents(p.binding, p.messages)[i] == CompletionFor(sha, p.binding, Entries(p)[i], i)
    {
      EntriesArePartsAt(sha, p, i);
      CompletionsAreExact(sha, p.binding, p.messages, i);
    }
  }

  /** Publishing the completions of a finished turn succeeds and extends the log by exactly one for each item, in order,
      with the length and digest of its text; before the turn is over it is refused and emits nothing. */
  lemma PublishingIsExact(sha: seq<byte> -> string, p: Projector)
    requires Inv(sha, p)
    ensures !p.terminal ==> PublishCompletions(p) == (p, Some(StreamTerminal))
    ensures p.terminal && EveryItemComplete(Entries(p)) ==>
              exists completions ::
                && CompletionsFor(sha, p.binding, completions, Entries(p))
                && PublishCompletions(p) == (p.(events := p.events + completions), None)
  {
    CompleteIsAllCompleted(p);
    if p.terminal && AllCompleted(p.messages) {
      CompletionsForEntries(sha, p);
    }
  }

  /** Nothing is emitted, accepted or remembered after an abort. */
  lemma AbortIsFinal(sha: seq<byte> -> string, p: Projector, ops: seq<Op>)
    ensures var q := Run(sha, Abort(p), ops); q.events == p.events && q.terminal && q.messages == []
  {
    NothingAfterAbort(sha, Abort(p), ops);
  }
}
