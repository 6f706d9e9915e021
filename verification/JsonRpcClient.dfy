/** The JSON-RPC client's request table, updated in place. */
module JsonRpcClient {
  import opened Wrappers
  import opened RpcRules

  class JsonRpcClient {
    const limit: nat
    var closed: bool
    var nextId: nat
    var pending: set<nat>
    var timers: set<nat>
    var issued: seq<nat>
    var settled: seq<Settlement>

    function Model(): Client
      reads this
    {
      Client(limit, closed, nextId, pending, timers, issued, settled)
    }

    predicate Valid()
      reads this
    {
      forall id | id in pending :: id < nextId
    }

    constructor (limit: nat)
      ensures Valid() && Model() == Initial(limit)
    {
      this.limit := limit;
      closed, nextId, pending, timers, issued, settled := false, 1, {}, {}, [], [];
    }

    method Request(name: string, timeoutMs: int) returns (r: Requested)
      requires Valid()
      modifies this
      ensures Valid() && (Model(), r) == RpcRules.Request(old(Model()), name, timeoutMs)
    {
      if closed { return Refused(RefusedByTransport(ClosedError)); }
      if |pending| >= limit { return Refused(RefusedByTransport(QueueFull)); }
      if !ValidMethod(name) { return Refused(InvalidMethod); }
      var id := nextId;
      nextId := nextId + 1;
      if timeoutMs < 1 { return Refused(InvalidTimeout); }
      timers := timers + {id};
      pending := pending + {id};
      issued := issued + [id];
      r := Issued(id);
    }

    method Settle(id: nat, outcome: Outcome)
      requires Valid()
      modifies this`pending, this`timers, this`settled
      ensures Valid() && Model() == RpcRules.Settle(old(Model()), id, outcome)
    {
      timers := timers - {id};
      pending := pending - {id};
      settled := settled + [Settlement(id, outcome)];
    }

    method ReceiveResponse(id: Option<nat>, body: Body)
      requires Valid()
      modifies this
      ensures Valid() && Model() == Respond(old(Model()), id, body)
    {
      if id.None? || id.value !in pending {
        Fail(InvalidFrame);
        return;
      }
      match body
      case ResultBody(result) => Settle(id.value, Resolved(result));
      case ErrorBody => Settle(id.value, Rejected(TransportFailed));
      case MalformedErrorBody => Fail(InvalidFrame);
    }

    method TimerFired(id: nat)
      requires Valid()
      modifies this
      ensures Valid() && Model() == Timeout(old(Model()), id)
    {
      if id in timers { Settle(id, Rejected(TimedOut)); }
    }

    method WriteFailed(id: nat, error: TransportError)
      requires Valid()
      modifies this
      ensures Valid() && Model() == RpcRules.WriteFailed(old(Model()), id, error)
    {
      if id in pending { Settle(id, Rejected(error)); }
    }

    method Close(error: TransportError)
      requires Valid()
      modifies this
      ensures Valid() && Model() == RpcRules.Close(old(Model()), error)
    {
      if closed { return; }
      closed := true;
      RejectPending(error);
    }

    method Fail(error: TransportError)
      requires Valid()
      modifies this
      ensures Valid() && Model() == RpcRules.Fail(old(Model()), error)
    {
      if closed { return; }
      Close(error);
    }

    /** Rejects every pending request, in the order they were issued. */
    method RejectPending(error: TransportError)
      requires Valid()
      modifies this`pending, this`timers, this`settled
      ensures pending == {} && timers == old(timers) - old(pending)
      ensures settled == old(settled) + Rejections(old(pending), nextId, error)
    {
      for id := 0 to nextId
        invariant pending == old(pending)
        invariant timers == old(timers) - set k | k in old(pending) && k < id
        invariant settled == old(settled) + Rejections(old(pending), id, error)
      {
        if id in pending {
          timers := timers - {id};
          settled := settled + [Settlement(id, Rejected(error))];
        }
      }
      pending := {};
    }
  }
}
