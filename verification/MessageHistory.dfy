/** Listing a conversation page by page while it is being written to. */
module MessageHistory {
  import opened Wrappers
  import opened ConversationRules
  import opened ConversationRuns
  import opened ConversationHistory
  import opened Paging

  /** The sequence numbers of the stored messages. */
  function Numbers(messages: seq<Message>): seq<nat> {
    seq(|messages|, i requires 0 <= i < |messages| => messages[i].sequence)
  }

  lemma MessagesAreATable(texts: Texts, s: Store, id: nat)
    requires ConversationHistory.Inv(texts, s) && Exists(s, id)
    ensures IsTable(Numbers(s.conversations[id].messages))
  {
    assert Numbered(s.conversations[id]);
  }

  /** As long as a conversation exists its messages only grow. */
  lemma {:induction false} MessagesOnlyGrow(texts: Texts, s: Store, ops: seq<Op>, id: nat)
    requires Exists(s, id) && Exists(ConversationRules.Run(texts, s, ops), id)
    ensures s.conversations[id].messages <= ConversationRules.Run(texts, s, ops).conversations[id].messages
    decreases |ops|
  {
    if ops != [] {
      ExistsBefore(texts, s, ops[0], ops[1..], id);
      MessagesGrow(texts, s, ops[0], id);
      MessagesOnlyGrow(texts, ConversationRules.Next(texts, s, ops[0]), ops[1..], id);
    }
  }

  /** What happens between one page and the next, with the conversation still there at each. */
  predicate ExistsThroughout(texts: Texts, s: Store, gaps: seq<seq<Op>>, id: nat)
    decreases |gaps|
  {
    Exists(s, id) && (gaps != [] ==> ExistsThroughout(texts, ConversationRules.Run(texts, s, gaps[0]), gaps[1..], id))
  }

  function Tables(texts: Texts, s: Store, gaps: seq<seq<Op>>, id: nat): (tables: seq<seq<nat>>)
    requires ExistsThroughout(texts, s, gaps, id)
    ensures |tables| == |gaps| + 1
    decreases |gaps|
  {
    [Numbers(s.conversations[id].messages)]
    + if gaps == [] then [] else Tables(texts, ConversationRules.Run(texts, s, gaps[0]), gaps[1..], id)
  }

  lemma {:induction false} TablesGrow(texts: Texts, s: Store, gaps: seq<seq<Op>>, id: nat)
    requires ConversationHistory.Inv(texts, s) && ExistsThroughout(texts, s, gaps, id)
    ensures Grows(Tables(texts, s, gaps, id))
    decreases |gaps|
  {
    MessagesAreATable(texts, s, id);
    if gaps != [] {
      var next := ConversationRules.Run(texts, s, gaps[0]);
      ConversationHistory.RunKeepsInv(texts, s, gaps[0]);
      MessagesOnlyGrow(texts, s, gaps[0], id);
      TablesGrow(texts, next, gaps[1..], id);
      GrowsFront(Numbers(s.conversations[id].messages), Tables(texts, next, gaps[1..], id));
    }
  }

  lemma GrowsFront(first: seq<nat>, rest: seq<seq<nat>>)
    requires IsTable(first) && Grows(rest) && rest != [] && first <= rest[0]
    ensures Grows([first] + rest)
  {
    var all := [first] + rest;
    forall i | 0 <= i < |all| ensures IsTable(all[i]) && (i < |all| - 1 ==> all[i] <= all[i + 1]) {
      if i > 0 { assert all[i] == rest[i - 1]; }
    }
  }

  /** Reading a conversation backwards through its cursors, while turns are reserved and completed in between, puts
      together its messages 1 to `message_count` as they were when the reading began. */
  lemma ConversationIsReadInFull(texts: Texts, before: seq<Op>, gaps: seq<seq<Op>>, id: nat, limit: nat)
    requires var s := Reach(texts, before);
             ExistsThroughout(texts, s, gaps, id) && limit >= 1
               && s.conversations[id].messageCount < (|gaps| + 1) * limit
    ensures var s := Reach(texts, before);
            var (read, done) := WalkMessages(Tables(texts, s, gaps, id), None, limit);
            && done && |read| == s.conversations[id].messageCount && forall i | 0 <= i < |read| :: read[i] == i + 1
  {
    var s := Reach(texts, before);
    ConversationHistory.RunKeepsInv(texts, EMPTY_STORE, before);
    TablesGrow(texts, s, gaps, id);
    assert Numbered(s.conversations[id]);
    MessagesAreComplete(Tables(texts, s, gaps, id), limit);
  }
}
