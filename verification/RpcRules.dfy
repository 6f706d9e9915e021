/** The request table of the JSON-RPC client as functions on its state. */
module RpcRules {
  import opened Wrappers
  import opened Sequences

  datatype TransportError = ClosedError | FrameTooLarge | InvalidFrame | TimedOut | QueueFull | TransportFailed

  datatype Outcome = Resolved(result: string) | Rejected(error: TransportError)

  /** One call of a request's `resolve` or `reject`. */
  datatype Settlement = Settlement(id: nat, outcome: Outcome)

  datatype Refusal = RefusedByTransport(error: TransportError) | InvalidMethod | InvalidTimeout

  datatype Requested = Refused(refusal: Refusal) | Issued(id: nat)

  /** The body of a response: a result, a well-formed error, or an error object of the wrong shape. */
  datatype Body = ResultBody(result: string) | ErrorBody | MalformedErrorBody

  /** `timers` are the armed timeouts; `issued` and `settled` record what has happened. */
  datatype Client = Client(
    limit: nat,
    closed: bool,
    nextId: nat,
    pending: set<nat>,
    timers: set<nat>,
    issued: seq<nat>,
    settled: seq<Settlement>)

  predicate ValidMethod(name: string) {
    1 <= |name| <= 256
  }

  function Request(c: Client, name: string, timeoutMs: int): (Client, Requested) {
    if c.closed then (c, Refused(RefusedByTransport(ClosedError)))
    else if |c.pending| >= c.limit then (c, Refused(RefusedByTransport(QueueFull)))
    else if !ValidMethod(name) then (c, Refused(InvalidMethod))
    else
      var id := c.nextId;
      var taken := c.(nextId := id + 1);
      if timeoutMs < 1 then (taken, Refused(InvalidTimeout))
      else (taken.(pending := c.pending + {id}, timers := c.timers + {id}, issued := c.issued + [id]), Issued(id))
  }

  /** Removes a request from the table, disarms its timeout and calls one of its callbacks. */
  function Settle(c: Client, id: nat, outcome: Outcome): Client {
    c.(pending := c.pending - {id}, timers := c.timers - {id}, settled := c.settled + [Settlement(id, outcome)])
  }

  function Respond(c: Client, id: Option<nat>, body: Body): Client {
    if id.None? || id.value !in c.pending then Fail(c, InvalidFrame)
    else
      match body
      case ResultBody(result) => Settle(c, id.value, Resolved(result))
      case ErrorBody => Settle(c, id.value, Rejected(TransportFailed))
      case MalformedErrorBody => Fail(c, InvalidFrame)
  }

  /** Only an armed timeout can fire; it rejects whether or not the request is still in the table. */
  function Timeout(c: Client, id: nat): Client {
    if id in c.timers then Settle(c, id, Rejected(TimedOut)) else c
  }

  function WriteFailed(c: Client, id: nat, error: TransportError): Client {
    if id in c.pending then Settle(c, id, Rejected(error)) else c
  }

  /** The rejections of every request below `n`, oldest first. */
  function Rejections(pending: set<nat>, n: nat, error: TransportError): seq<Settlement> {
    if n == 0 then []
    else Rejections(pending, n - 1, error) + if n - 1 in pending then [Settlement(n - 1, Rejected(error))] else []
  }

  function Close(c: Client, error: TransportError): Client {
    if c.closed then c
    else c.(closed := true, pending := {}, timers := c.timers - c.pending,
            settled := c.settled + Rejections(c.pending, c.nextId, error))
  }

  function Fail(c: Client, error: TransportError): Client {
    Close(c, error)
  }

  // ---------------------------------------------------------------- runs

  datatype Step =
    | DoRequest(name: string, timeoutMs: int)
    | DoRespond(id: Option<nat>, body: Body)
    | DoTimeout(timer: nat)
    | DoWriteFailed(request: nat, cause: TransportError)
    | DoClose(reason: TransportError)

  function Initial(limit: nat): Client {
    Client(limit, false, 1, {}, {}, [], [])
  }

  function Next(c: Client, step: Step): Client {
    match step
    case DoRequest(name, timeoutMs) => Request(c, name, timeoutMs).0
    case DoRespond(id, body) => Respond(c, id, body)
    case DoTimeout(id) => Timeout(c, id)
    case DoWriteFailed(id, error) => WriteFailed(c, id, error)
    case DoClose(error) => Close(c, error)
  }

  function Run(c: Client, steps: seq<Step>): Client
    decreases |steps|
  {
    if steps == [] then c else Run(Next(c, steps[0]), steps[1..])
  }

  // ---------------------------------------------------------------- the invariant

  predicate IsSettled(c: Client, id: nat) {
    exists i | 0 <= i < |c.settled| :: c.settled[i].id == id
  }

  ghost predicate Inv(c: Client) {
    && c.timers == c.pending
    && |c.pending| <= c.limit
    && (c.closed ==> c.pending == {})
    // identifiers are issued in increasing order and never again
    && (forall i | 0 <= i < |c.issued| :: c.issued[i] < c.nextId)
    && (forall i, j | 0 <= i < j < |c.issued| :: c.issued[i] < c.issued[j])
    // pending is what was issued and is not settled yet; nothing is settled twice
    && (forall id: nat :: id in c.pending <==> id in c.issued && !IsSettled(c, id))
    && (forall i | 0 <= i < |c.settled| :: c.settled[i].id in c.issued)
    && (forall i, j | 0 <= i < j < |c.settled| :: c.settled[i].id != c.settled[j].id)
  }

  predicate Listed(all: seq<Settlement>, id: nat) {
    exists i | 0 <= i < |all| :: all[i].id == id
  }

  /** `all` settles exactly the pending requests below `n`, in increasing order. */
  ghost predicate Covers(pending: set<nat>, n: nat, all: seq<Settlement>) {
    && (forall i | 0 <= i < |all| :: all[i].id in pending && all[i].id < n)
    && (forall id: nat {:trigger Listed(all, id)} | id in pending && id < n :: Listed(all, id))
    && (forall i, j | 0 <= i < j < |all| :: all[i].id < all[j].id)
  }

  lemma CoversNext(pending: set<nat>, n: nat, all: seq<Settlement>, last: Settlement)
    requires Covers(pending, n, all) && last.id == n
    ensures Covers(pending, n + 1, if n in pending then all + [last] else all)
  {
    if n in pending {
      var more := all + [last];
      forall id: nat | id in pending && id < n + 1 ensures Listed(more, id) {
        if id < n {
          assert Listed(all, id);
          var i :| 0 <= i < |all| && all[i].id == id;
          assert more[i].id == id;
        } else {
          assert more[|all|].id == id;
        }
      }
    }
  }

  lemma {:induction false} RejectionsCoverPending(pending: set<nat>, n: nat, error: TransportError)
    ensures Covers(pending, n, Rejections(pending, n, error))
  {
    if n > 0 {
      RejectionsCoverPending(pending, n - 1, error);
      RejectionsCoverNext(pending, n - 1, error);
    }
  }

  lemma RejectionsCoverNext(pending: set<nat>, n: nat, error: TransportError)
    requires Covers(pending, n, Rejections(pending, n, error))
    ensures Covers(pending, n + 1, Rejections(pending, n + 1, error))
  {
    var before := Rejections(pending, n, error);
    CoversNext(pending, n, before, Settlement(n, Rejected(error)));
    if n in pending {
      assert Rejections(pending, n + 1, error) == before + [Settlement(n, Rejected(error))];
    } else {
      assert Rejections(pending, n + 1, error) == before + [];
      AppendEmpty(before);
    }
  }

  lemma CloseSettlesAll(c: Client, error: TransportError, id: nat)
    requires Inv(c) && !c.closed && id in c.issued
    ensures IsSettled(Close(c, error), id)
  {
    var all, after := Rejections(c.pending, c.nextId, error), Close(c, error);
    RejectionsCoverPending(c.pending, c.nextId, error);
    if id in c.pending {
      assert Listed(all, id);
      var i :| 0 <= i < |all| && all[i].id == id;
      assert after.settled[|c.settled| + i].id == id;
    } else {
      var i :| 0 <= i < |c.settled| && c.settled[i].id == id;
      assert after.settled[i].id == id;
    }
  }

  lemma CloseSettlesOnce(c: Client, error: TransportError)
    requires Inv(c) && !c.closed
    ensures var settled := Close(c, error).settled;
            && (forall i | 0 <= i < |settled| :: settled[i].id in c.issued)
            && (forall i, j | 0 <= i < j < |settled| :: settled[i].id != settled[j].id)
  {
    var all := Rejections(c.pending, c.nextId, error);
    RejectionsCoverPending(c.pending, c.nextId, error);
    forall i | 0 <= i < |c.settled| ensures c.settled[i].id !in c.pending {
      assert IsSettled(c, c.settled[i].id);
    }
    JoinDistinct(c.settled, all, c.pending);
  }

  lemma JoinDistinct(a: seq<Settlement>, b: seq<Settlement>, ids: set<nat>)
    requires forall i, j | 0 <= i < j < |a| :: a[i].id != a[j].id
    requires forall i, j | 0 <= i < j < |b| :: b[i].id < b[j].id
    requires (forall i | 0 <= i < |a| :: a[i].id !in ids) && (forall i | 0 <= i < |b| :: b[i].id in ids)
    ensures forall i, j | 0 <= i < j < |a + b| :: (a + b)[i].id != (a + b)[j].id
  {
  }

  lemma CloseKeepsInv(c: Client, error: TransportError)
    requires Inv(c)
    ensures Inv(Close(c, error)) && Close(c, error).closed
  {
    if !c.closed {
      CloseSettlesOnce(c, error);
      forall id: nat | id in c.issued ensures IsSettled(Close(c, error), id) {
        CloseSettlesAll(c, error, id);
      }
    }
  }

  lemma SettleKeepsInv(c: Client, id: nat, outcome: Outcome)
    requires Inv(c) && id in c.pending
    ensures Inv(Settle(c, id, outcome))
  {
    var after := Settle(c, id, outcome);
    forall other: nat ensures IsSettled(after, other) <==> IsSettled(c, other) || other == id {
      if IsSettled(c, other) {
        var i :| 0 <= i < |c.settled| && c.settled[i].id == other;
        assert after.settled[i].id == other;
      }
      assert after.settled[|c.settled|].id == id;
    }
  }

  lemma RequestKeepsInv(c: Client, name: string, timeoutMs: int)
    requires Inv(c)
    ensures Inv(Request(c, name, timeoutMs).0)
  {
    var after := Request(c, name, timeoutMs).0;
    assert c.nextId !in c.issued;
    assert forall id: nat :: IsSettled(after, id) <==> IsSettled(c, id);
  }

  lemma NextKeepsInv(c: Client, step: Step)
    requires Inv(c)
    ensures Inv(Next(c, step))
    ensures c.closed ==> Next(c, step).closed
  {
    match step
    case DoRequest(name, timeoutMs) => RequestKeepsInv(c, name, timeoutMs);
    case DoRespond(id, body) =>
      CloseKeepsInv(c, InvalidFrame);
      if id.Some? && id.value in c.pending {
        SettleKeepsInv(c, id.value, if body.ResultBody? then Resolved(body.result) else Rejected(TransportFailed));
      }
    case DoTimeout(id) => if id in c.pending { SettleKeepsInv(c, id, Rejected(TimedOut)); }
    case DoWriteFailed(id, error) => if id in c.pending { SettleKeepsInv(c, id, Rejected(error)); }
    case DoClose(error) => CloseKeepsInv(c, error);
  }

  lemma {:induction false} RunKeepsInv(c: Client, steps: seq<Step>)
    requires Inv(c)
    ensures Inv(Run(c, steps))
    ensures c.closed ==> Run(c, steps).closed
    decreases |steps|
  {
    if steps != [] {
      NextKeepsInv(c, steps[0]);
      RunKeepsInv(Next(c, steps[0]), steps[1..]);
    }
  }

  /** Under any interleaving every issued request is either pending or settled exactly once, never both; at most the
      configured number are pending; and once the client is closed nothing is ever pending again. */
  lemma ExactlyOnceSettlement(limit: nat, before: seq<Step>, after: seq<Step>, id: nat)
    ensures var c := Run(Run(Initial(limit), before), after);
            && (id in c.issued <==> id in c.pending || IsSettled(c, id))
            && !(id in c.pending && IsSettled(c, id))
            && (forall i, j | 0 <= i < |c.settled| && 0 <= j < |c.settled| && c.settled[i].id == c.settled[j].id ::
                  i == j)
            && (forall i, j | 0 <= i < j < |c.issued| :: c.issued[i] < c.issued[j])
            && |c.pending| <= limit && c.timers == c.pending
            && (Run(Initial(limit), before).closed ==> c.closed && c.pending == {})
  {
    var start := Initial(limit);
    assert Inv(start);
    RunKeepsInv(start, before);
    RunKeepsInv(Run(start, before), after);
    RunKeepsLimit(start, before);
    RunKeepsLimit(Run(start, before), after);
  }

  lemma {:induction false} RunKeepsLimit(c: Client, steps: seq<Step>)
    ensures Run(c, steps).limit == c.limit
    decreases |steps|
  {
    if steps != [] { RunKeepsLimit(Next(c, steps[0]), steps[1..]); }
  }

  lemma StepResolvesItsOwn(c: Client, step: Step, i: nat)
    requires |c.settled| <= i < |Next(c, step).settled| && Next(c, step).settled[i].outcome.Resolved?
    ensures var s := Next(c, step).settled[i]; step == DoRespond(Some(s.id), ResultBody(s.outcome.result))
  {
    if !c.closed {
      RejectionsReject(c.pending, c.nextId, InvalidFrame);
    }
    if !c.closed && step.DoClose? {
      RejectionsReject(c.pending, c.nextId, step.reason);
    }
  }

  /** A request is resolved only by a response that names it, and with that response's result. */
  lemma {:induction false} ResolvedByItsOwnResponse(c: Client, steps: seq<Step>, i: nat)
    requires |c.settled| <= i < |Run(c, steps).settled| && Run(c, steps).settled[i].outcome.Resolved?
    ensures var s := Run(c, steps).settled[i]; DoRespond(Some(s.id), ResultBody(s.outcome.result)) in steps
    decreases |steps|
  {
    if steps != [] {
      var next := Next(c, steps[0]);
      RunExtendsLog(next, steps[1..]);
      if i < |next.settled| {
        assert next.settled[i] == Run(c, steps).settled[i];
        StepResolvesItsOwn(c, steps[0], i);
      } else {
        ResolvedByItsOwnResponse(next, steps[1..], i);
      }
    }
  }

  lemma {:induction false} RunExtendsLog(c: Client, steps: seq<Step>)
    ensures c.settled <= Run(c, steps).settled
    decreases |steps|
  {
    if steps != [] { RunExtendsLog(Next(c, steps[0]), steps[1..]); }
  }

  lemma {:induction false} RejectionsReject(pending: set<nat>, n: nat, error: TransportError)
    ensures forall i | 0 <= i < |Rejections(pending, n, error)| ::
              Rejections(pending, n, error)[i].outcome == Rejected(error)
  {
    if n > 0 { RejectionsReject(pending, n - 1, error); }
  }
}
