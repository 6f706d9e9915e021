/** The events of an assistant answer as they travel from the agent host to the web client, the guards every one of
    them must pass there, and what a well-formed log of them carries. */
module StreamWire {
  import opened Wrappers
  import opened Identifiers
  import opened Bytes
  import opened Sequences
  import Base64

  const MAX_CHUNK_BYTES := 32 * 1024
  const MAX_MESSAGE_BYTES := 512 * 1024
  const MAX_CHUNK_TEXT := 48 * 1024

  datatype StreamEvent =
    | Started(messageId: string, sessionId: string, turnId: string)
    | Chunk(messageId: string, sessionId: string, turnId: string, dataBase64: string, rawBytes: nat, sequence: nat)
    | Completed(messageId: string, sessionId: string, turnId: string, sha256: string, totalBytes: nat)

  predicate IsHexDigest(s: string) {
    |s| == 64 && forall i | 0 <= i < |s| :: 'a' <= s[i] <= 'f' || '0' <= s[i] <= '9'
  }

  /** `isStartedEvent`, `isChunkEvent` and `isCompletedEvent` of the client. */
  predicate PassesGuard(e: StreamEvent) {
    && ValidResourceId(e.messageId) && ValidResourceId(e.sessionId) && ValidResourceId(e.turnId)
    && (e.Chunk? ==> |e.dataBase64| <= MAX_CHUNK_TEXT && 1 <= e.rawBytes <= MAX_CHUNK_BYTES)
    && (e.Completed? ==> IsHexDigest(e.sha256) && e.totalBytes <= MAX_MESSAGE_BYTES)
  }

  function DecodeBase64(text: string): Option<seq<byte>> {
    Base64.Decode(Base64.Standard, text)
  }

  // ---------------------------------------------------------------- what a log carries

  /** What one event adds to the content of a message. */
  function Payload(e: StreamEvent, id: string): seq<seq<byte>> {
    if e.Chunk? && e.messageId == id && DecodeBase64(e.dataBase64).Some? then [DecodeBase64(e.dataBase64).value] else []
  }

  /** The decoded chunks of one message, in the order of the log. */
  function Chunks(log: seq<StreamEvent>, id: string): seq<seq<byte>> {
    if log == [] then [] else Chunks(log[..|log| - 1], id) + Payload(log[|log| - 1], id)
  }

  /** The bytes of one message. */
  function Content(log: seq<StreamEvent>, id: string): seq<byte> {
    Concat(Chunks(log, id))
  }

  predicate HasStarted(log: seq<StreamEvent>, id: string) {
    exists i | 0 <= i < |log| :: log[i].Started? && log[i].messageId == id
  }

  predicate HasCompletions(log: seq<StreamEvent>) {
    exists i | 0 <= i < |log| :: log[i].Completed?
  }

  /** `e` may follow `log`: a message starts once, its chunks are numbered from 0 and carry what they say, and all
      completions come last and name the length and digest of the whole content. */
  ghost predicate Follows(sha: seq<byte> -> string, log: seq<StreamEvent>, e: StreamEvent) {
    match e
    case Started(id, _, _) => !HasStarted(log, id) && !HasCompletions(log)
    case Chunk(id, _, _, data, rawBytes, sequence) =>
      && HasStarted(log, id) && !HasCompletions(log)
      && DecodeBase64(data).Some? && |DecodeBase64(data).value| == rawBytes
      && sequence == |Chunks(log, id)|
    case Completed(id, _, _, digest, total) =>
      HasStarted(log, id) && total == |Content(log, id)| && digest == sha(Content(log, id))
  }

  ghost predicate Ordered(sha: seq<byte> -> string, log: seq<StreamEvent>) {
    log != [] ==> Ordered(sha, log[..|log| - 1]) && Follows(sha, log[..|log| - 1], log[|log| - 1])
  }

  lemma {:induction false} OrderedAt(sha: seq<byte> -> string, log: seq<StreamEvent>, i: nat)
    requires Ordered(sha, log) && i < |log|
    ensures Follows(sha, log[..i], log[i])
    decreases |log|
  {
    if i < |log| - 1 {
      TakeTake(log, |log| - 1, i);
      OrderedAt(sha, log[..|log| - 1], i);
    }
  }

  lemma OrderedAppend(sha: seq<byte> -> string, log: seq<StreamEvent>, e: StreamEvent)
    requires Ordered(sha, log) && Follows(sha, log, e)
    ensures Ordered(sha, log + [e])
  {
    ButLast(log, e);
  }

  lemma ChunksAppend(log: seq<StreamEvent>, e: StreamEvent, id: string)
    ensures Chunks(log + [e], id) == Chunks(log, id) + Payload(e, id)
    ensures HasStarted(log + [e], id) <==> HasStarted(log, id) || (e.Started? && e.messageId == id)
    ensures HasCompletions(log + [e]) <==> HasCompletions(log) || e.Completed?
  {
    var longer := log + [e];
    ButLast(log, e);
    if HasStarted(log, id) {
      var i :| 0 <= i < |log| && log[i].Started? && log[i].messageId == id;
      assert longer[i] == log[i];
    }
    if HasCompletions(log) {
      var i :| 0 <= i < |log| && log[i].Completed?;
      assert longer[i] == log[i];
    }
  }

  lemma ContentAppend(log: seq<StreamEvent>, e: StreamEvent, id: string)
    ensures Content(log + [e], id) == Content(log, id) + if Payload(e, id) == [] then [] else Payload(e, id)[0]
  {
    var chunks, payload := Chunks(log, id), Payload(e, id);
    ChunksAppend(log, e, id);
    if payload == [] {
      AppendEmpty(chunks);
    } else {
      assert payload == [payload[0]];
      ConcatAppend(chunks, payload[0]);
    }
  }

  /** A part of a log is consistent with the whole of it. */
  lemma {:induction false} PrefixOfLog(log: seq<StreamEvent>, i: nat, id: string)
    requires i <= |log|
    ensures Chunks(log[..i], id) <= Chunks(log, id)
    ensures HasStarted(log[..i], id) ==> HasStarted(log, id)
    ensures HasCompletions(log[..i]) ==> HasCompletions(log)
    decreases |log| - i
  {
    if i < |log| {
      TakeNext(log, i);
      ChunksAppend(log[..i], log[i], id);
      PrefixOfLog(log, i + 1, id);
    } else {
      TakeAll(log);
    }
  }

  /** In an ordered log, the chunk of a message numbered `k` is the k-th chunk of its content. */
  lemma ChunkAt(sha: seq<byte> -> string, log: seq<StreamEvent>, i: nat)
    requires Ordered(sha, log) && i < |log| && log[i].Chunk?
    ensures var (id, k) := (log[i].messageId, log[i].sequence);
            && DecodeBase64(log[i].dataBase64).Some? && |DecodeBase64(log[i].dataBase64).value| == log[i].rawBytes
            && k < |Chunks(log, id)| && Chunks(log, id)[k] == DecodeBase64(log[i].dataBase64).value
  {
    OrderedAt(sha, log, i);
    ChunkInPrefix(log, i);
  }

  lemma ChunkInPrefix(log: seq<StreamEvent>, i: nat)
    requires i < |log| && log[i].Chunk? && Payload(log[i], log[i].messageId) != []
    ensures var (id, k) := (log[i].messageId, |Chunks(log[..i], log[i].messageId)|);
            k < |Chunks(log, id)| && Chunks(log, id)[k] == Payload(log[i], id)[0]
  {
    var id := log[i].messageId;
    var before, upto, all := Chunks(log[..i], id), Chunks(log[..i + 1], id), Chunks(log, id);
    TakeNext(log, i);
    ChunksAppend(log[..i], log[i], id);
    PrefixOfLog(log, i + 1, id);
    assert upto[|before|] == Payload(log[i], id)[0];
    assert all[|before|] == upto[|before|];
  }

  lemma {:induction false} CompletionsAreLast(sha: seq<byte> -> string, log: seq<StreamEvent>, i: nat, j: nat)
    requires Ordered(sha, log) && i <= j < |log| && log[i].Completed?
    ensures log[j].Completed?
  {
    OrderedAt(sha, log, j);
    if i < j { assert log[..j][i].Completed?; }
  }

  /** What a completion says holds of the whole log: no chunk comes after it. */
  lemma {:induction false} CompletionIsFinal(log: seq<StreamEvent>, i: nat, id: string)
    requires i <= |log| && forall j | i <= j < |log| :: !log[j].Chunk?
    ensures Chunks(log[..i], id) == Chunks(log, id)
    decreases |log| - i
  {
    if i < |log| {
      var before := Chunks(log[..i], id);
      TakeNext(log, i);
      ChunksAppend(log[..i], log[i], id);
      AppendEmpty(before);
      CompletionIsFinal(log, i + 1, id);
    } else {
      TakeAll(log);
    }
  }

  lemma CompletedAt(sha: seq<byte> -> string, log: seq<StreamEvent>, i: nat)
    requires Ordered(sha, log) && i < |log| && log[i].Completed?
    ensures var id := log[i].messageId;
            log[i].totalBytes == |Content(log, id)| && log[i].sha256 == sha(Content(log, id))
  {
    forall j | i <= j < |log| ensures !log[j].Chunk? {
      CompletionsAreLast(sha, log, i, j);
    }
    CompletionIsFinal(log, i, log[i].messageId);
    OrderedAt(sha, log, i);
  }
}
