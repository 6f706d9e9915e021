/** The gateway's replay buffer and subscribers, updated in place. */
module FinanceGateway {
  import opened Wrappers
  import opened Sequences
  import opened GatewayRules

  class FinanceGateway {
    var replay: seq<ReplayEvent>
    var replayBytes: nat
    var nextEventId: EventId
    var subscribers: set<nat>
    var sent: map<nat, seq<Frame>>
    /** History for the specification: every numbered event, and where each regular stream starts. */
    ghost var accepted: seq<ReplayEvent>
    ghost var since: map<nat, nat>

    ghost function Model(): Gateway
      reads this
    {
      Gateway(replay, replayBytes, nextEventId, subscribers, sent, accepted, since)
    }

    ghost predicate Valid()
      reads this
    {
      BufferInv(Model()) && StreamInv(Model())
    }

    constructor ()
      ensures Valid() && Model() == INITIAL_GATEWAY
    {
      replay, replayBytes, nextEventId, subscribers, sent := [], 0, 1, {}, map[];
      accepted, since := [], map[];
    }

    method Publish(event: string, bytes: nat, slow: set<nat>)
      requires Valid()
      modifies this
      ensures Valid() && Model() == GatewayRules.Publish(old(Model()), event, bytes, slow)
    {
      NextKeepsBuffer(Model(), DoPublish(event, bytes, slow));
      NextKeepsStream(Model(), DoPublish(event, bytes, slow));
      if bytes > MAX_EVENT_BYTES {
        subscribers := {};
        return;
      }
      var numbered := ReplayEvent(bytes, event, nextEventId);
      nextEventId := nextEventId + 1;
      accepted := accepted + [numbered];
      Keep(numbered);
      Broadcast(EventFrame(numbered), slow);
    }

    /** Appends an event and evicts the oldest ones until the buffer fits again. */
    method Keep(numbered: ReplayEvent)
      requires replayBytes == Total(replay)
      modifies this`replay, this`replayBytes
      ensures replay == Evict(old(replay) + [numbered]) && replayBytes == Total(replay)
    {
      TotalAppend(replay, numbered);
      replay := replay + [numbered];
      replayBytes := replayBytes + numbered.bytes;
      while replayBytes > MAX_REPLAY_BYTES && |replay| > 0
        invariant replayBytes == Total(replay)
        invariant Evict(replay) == Evict(old(replay) + [numbered])
        decreases |replay|
      {
        replayBytes := replayBytes - replay[0].bytes;
        replay := replay[1..];
      }
    }

    /** Writes a frame to every subscriber and drops those that cannot keep up. */
    method Broadcast(frame: Frame, slow: set<nat>)
      modifies this`subscribers, this`sent
      ensures subscribers == old(subscribers) - slow
      ensures sent == Written(old(sent), old(subscribers), frame)
    {
      var todo := subscribers;
      while todo != {}
        invariant todo <= old(subscribers)
        invariant subscribers == old(subscribers) - (slow - todo)
        invariant sent == Written(old(sent), old(subscribers) - todo, frame)
      {
        var r :| r in todo;
        sent := sent[r := SentTo(sent, r) + [frame]];
        if r in slow { subscribers := subscribers - {r}; }
        todo := todo - {r};
      }
    }

    /** Opens a subscription on a response not seen before. */
    method Subscribe(r: nat, cursor: Option<nat>) returns (accepts: bool)
      requires Valid() && r !in sent
      modifies this
      ensures Valid() && (accepts <==> GatewayRules.Subscribe(old(Model()), r, cursor).Some?)
      ensures Model() == if accepts then GatewayRules.Subscribe(old(Model()), r, cursor).value else old(Model())
    {
      if |subscribers| >= MAX_SUBSCRIBERS { return false; }
      ghost var before := Model();
      SubscribeKeepsStream(before, r, cursor);
      var opening := OpenStream(cursor);
      sent := sent[r := opening];
      subscribers := subscribers + {r};
      since := GatewayRules.Subscribe(before, r, cursor).value.since;
      accepts := true;
    }

    /** The snapshot under the newest identifier when the client is new or too far behind, else what it missed. */
    method OpenStream(cursor: Option<nat>) returns (opening: seq<Frame>)
      ensures opening == Opening(Model(), cursor)
    {
      var after := if cursor.None? then 0 else cursor.value;
      var firstAvailable := if |replay| == 0 then nextEventId else replay[0].id;
      if cursor.None? || (after > 0 && after < firstAvailable - 1) {
        opening := [ResetFrame(nextEventId - 1)];
      } else {
        opening := ReplayAfter(after);
      }
    }

    method ReplayAfter(after: nat) returns (frames: seq<Frame>)
      ensures frames == After(replay, after)
    {
      frames := [];
      var i := 0;
      assert replay[0..] == replay;
      while i < |replay|
        invariant 0 <= i <= |replay|
        invariant After(replay, after) == frames + After(replay[i..], after)
      {
        AfterNext(replay, i, after);
        if replay[i].id > after {
          AppendAssoc(frames, [EventFrame(replay[i])], After(replay[i + 1..], after));
          frames := frames + [EventFrame(replay[i])];
        } else {
          assert [] + After(replay[i + 1..], after) == After(replay[i + 1..], after);
        }
        i := i + 1;
      }
    }

    method Drop(r: nat)
      requires Valid()
      modifies this`subscribers
      ensures Valid() && Model() == GatewayRules.Drop(old(Model()), r)
    {
      subscribers := subscribers - {r};
    }
  }
}
