/** The web client's streams and displayed messages, updated in place. */
module FinanceAssistant {
  import opened Wrappers
  import opened StreamWire
  import opened ClientRules

  class FinanceAssistant {
    const checks: Checks
    var snapshot: Option<Snapshot>
    var streams: map<Key, Stream>
    var shown: seq<Shown>

    function Model(): Client
      reads this
    {
      Client(snapshot, streams, shown)
    }

    constructor (checks: Checks)
      ensures Model() == Client(None, map[], []) && this.checks == checks
    {
      this.checks := checks;
      snapshot, streams, shown := None, map[], [];
    }

    method ApplyEvent(e: StreamEvent)
      modifies this
      ensures Model() == ClientRules.ApplyEvent(checks, old(Model()), e)
    {
      if snapshot.None? || snapshot.value.sessionId != Some(e.sessionId) || snapshot.value.turn.None?
         || snapshot.value.turn.value.id != e.turnId || !PassesGuard(e) {
        return;
      }
      var key := KeyOf(e);
      match e
      case Started(_, _, _) =>
        if key in streams { return; }
        streams := streams[key := Stream([], 0)];
        shown := shown + [Shown(key, Streaming, [])];
      case Chunk(_, _, _, data, rawBytes, sequence) =>
        if key !in streams || streams[key].nextSequence != sequence { return; }
        var chunk := DecodeBase64(data);
        if chunk.None? || |chunk.value| != rawBytes || |streams[key].bytes| + |chunk.value| > MAX_MESSAGE_BYTES {
          shown := FailMessage(shown, key);
          streams := streams - {key};
          return;
        }
        var bytes := streams[key].bytes + chunk.value;
        streams := streams[key := Stream(bytes, streams[key].nextSequence + 1)];
        shown := ShowText(shown, key, bytes);
      case Completed(_, _, _, digest, totalBytes) =>
        if key !in streams || |streams[key].bytes| != totalBytes {
          shown := FailMessage(shown, key);
          return;
        }
        var valid := VerifyDigest(checks, streams[key].bytes, digest);
        streams := streams - {key};
        shown := ShowStatus(shown, key, if valid then Complete else Failed);
    }

    /** Takes a snapshot; the streams of a turn that is over are deleted one by one and their messages failed. */
    method SetSnapshot(next: Snapshot)
      modifies this
      ensures Model() == ClientRules.SetSnapshot(old(Model()), next)
    {
      if next.turn.Some? && !next.turn.value.active {
        var over := next.turn.value.id;
        var todo := set key | key in streams && key.turnId == over;
        while todo != {}
          invariant forall key | key in todo :: key in old(streams) && key.turnId == over
          invariant streams == map key | key in old(streams) && (key.turnId != over || key in todo) :: old(streams)[key]
          invariant |shown| == |old(shown)|
          invariant forall i | 0 <= i < |shown| ::
                      shown[i] == if old(shown)[i].key in old(streams) && old(shown)[i].key.turnId == over
                        && old(shown)[i].key !in todo
                                  then old(shown)[i].(status := Failed, text := []) else old(shown)[i]
        {
          var key :| key in todo;
          streams := streams - {key};
          shown := FailMessage(shown, key);
          todo := todo - {key};
        }
      }
      snapshot := Some(next);
    }
  }
}
