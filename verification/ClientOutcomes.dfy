/** Exactly what one event, or one snapshot, changes in the web client. */
module ClientOutcomes {
  import opened Wrappers
  import opened Identifiers
  import opened StreamWire
  import opened ClientRules

  /** An event of the session and the turn the client is looking at, of the form and size it expects. */
  predicate Addressed(c: Client, e: StreamEvent) {
    && c.snapshot.Some? && c.snapshot.value.sessionId == Some(e.sessionId)
    && c.snapshot.value.turn.Some? && c.snapshot.value.turn.value.id == e.turnId
    && ValidResourceId(e.messageId) && ValidResourceId(e.sessionId) && ValidResourceId(e.turnId)
    && match e
       case Started(_, _, _) => true
       case Chunk(_, _, _, data, rawBytes, _) => |data| <= 49152 && 1 <= rawBytes <= 32768
       case Completed(_, _, _, digest, total) => IsHexDigest(digest) && total <= 524288
  }

  /** The displays of a message, one by one, are `change` of what they were; all others stay. */
  predicate Redrawn(before: seq<Shown>, after: seq<Shown>, key: Key, change: Shown -> Shown) {
    |after| == |before| && forall i | 0 <= i < |before| ::
        after[i] == if before[i].key == key then change(before[i]) else before[i]
  }

  predicate Failing(before: seq<Shown>, after: seq<Shown>, key: Key) {
    Redrawn(before, after, key, (s: Shown) => Shown(s.key, Failed, []))
  }

  /** The chunk carries what it says, and the message stays within 512 KiB. */
  predicate ChunkFits(c: Client, key: Key, e: StreamEvent)
    requires e.Chunk? && key in c.streams
  {
    && DecodeBase64(e.dataBase64).Some? && |DecodeBase64(e.dataBase64).value| == e.rawBytes
    && |c.streams[key].bytes| + e.rawBytes <= 524288
  }

  /** Only an event that is addressed to this turn and well formed has any effect, and the snapshot stays. */
  lemma OtherEventsChangeNothing(checks: Checks, c: Client, e: StreamEvent)
    ensures !Addressed(c, e) ==> ApplyEvent(checks, c, e) == c
    ensures ApplyEvent(checks, c, e).snapshot == c.snapshot
  {
  }

  /** A message is started once; starting it opens an empty stream and displays it at the end. */
  lemma StartIsExact(checks: Checks, c: Client, e: StreamEvent)
    requires Addressed(c, e) && e.Started?
    ensures var (after, key) := (ApplyEvent(checks, c, e), Key(e.turnId, e.messageId));
            && (key in c.streams ==> after == c)
            && (key !in c.streams ==>
                  after.streams == c.streams[key := Stream([], 0)]
                  && after.shown == c.shown + [Shown(key, Streaming, [])])
  {
  }

  /** The chunk that is next is appended and displayed if it carries what it says and fits, and else fails the message
      for good. A chunk that is not next changes nothing. */
  lemma ChunkIsExact(checks: Checks, c: Client, e: StreamEvent)
    requires Addressed(c, e) && e.Chunk?
    ensures var (after, key) := (ApplyEvent(checks, c, e), Key(e.turnId, e.messageId));
            var next := key in c.streams && c.streams[key].nextSequence == e.sequence;
            && (!next ==> after == c)
            && (next && ChunkFits(c, key, e) ==>
                  var bytes := c.streams[key].bytes + DecodeBase64(e.dataBase64).value;
                  && after.streams == c.streams[key := Stream(bytes, e.sequence + 1)]
                  && Redrawn(c.shown, after.shown, key, (s: Shown) => Shown(s.key, s.status, bytes)))
            && (next && !ChunkFits(c, key, e) ==>
                  after.streams == c.streams - {key} && Failing(c.shown, after.shown, key))
  {
  }

  /** A completion settles a message: as complete exactly if the client holds as many bytes as it says, valid and with
      its digest. A wrong length, as for a message the client does not hold, also takes the text away. */
  lemma CompletionIsExact(checks: Checks, c: Client, e: StreamEvent)
    requires Addressed(c, e) && e.Completed?
    ensures var (after, key) := (ApplyEvent(checks, c, e), Key(e.turnId, e.messageId));
            if key !in c.streams || |c.streams[key].bytes| != e.totalBytes then
              after.streams == c.streams && Failing(c.shown, after.shown, key)
            else
              var bytes := c.streams[key].bytes;
              && after.streams == c.streams - {key}
              && (checks.utf8(bytes) && checks.sha(bytes) == e.sha256 ==>
                    Redrawn(c.shown, after.shown, key, (s: Shown) => Shown(s.key, Complete, s.text)))
              && (!checks.utf8(bytes) || checks.sha(bytes) != e.sha256 ==>
                    Redrawn(c.shown, after.shown, key, (s: Shown) => Shown(s.key, Failed, s.text)))
  {
  }

  /** A display turns complete only when a completion of its message arrives whose length and digest are those of the
      bytes held for it, and nothing leaves a display of another message different. */
  lemma OnlyVerifiedIsComplete(checks: Checks, c: Client, e: StreamEvent, i: nat)
    requires i < |ApplyEvent(checks, c, e).shown|
    ensures var after := ApplyEvent(checks, c, e).shown[i];
            && (after.status == Complete ==>
                  || (i < |c.shown| && c.shown[i].status == Complete)
                  || (&& e.Completed? && after.key == Key(e.turnId, e.messageId) && after.key in c.streams
                      && |c.streams[after.key].bytes| == e.totalBytes
                      && checks.sha(c.streams[after.key].bytes) == e.sha256))
            && (i < |c.shown| && c.shown[i].key != Key(e.turnId, e.messageId) ==> after == c.shown[i])
  {
  }

  /** A snapshot is kept whatever it says. If its turn is over, the streams of that turn are dropped and their messages
      shown as failed and empty; everything else stays. */
  lemma SnapshotIsExact(c: Client, next: Snapshot)
    ensures var after := SetSnapshot(c, next);
            var over := (turnId: string) => next.turn.Some? && !next.turn.value.active && next.turn.value.id == turnId;
            && after.snapshot == Some(next) && |after.shown| == |c.shown|
            && (forall key :: key in after.streams <==> key in c.streams && !over(key.turnId))
            && (forall key | key in after.streams :: after.streams[key] == c.streams[key])
            && (forall i | 0 <= i < |c.shown| ::
                  after.shown[i] == if c.shown[i].key in c.streams && over(c.shown[i].key.turnId)
                                    then Shown(c.shown[i].key, Failed, []) else c.shown[i])
  {
  }
}
