/** What becomes of a request: which are issued, and which of the things that can happen to a pending one decides it. */
module RpcOutcomes {
  import opened Wrappers
  import opened RpcRules

  function Reach(limit: nat, steps: seq<Step>): Client {
    Run(Initial(limit), steps)
  }

  lemma ReachableInv(limit: nat, steps: seq<Step>)
    ensures Inv(Reach(limit, steps)) && Reach(limit, steps).limit == limit
  {
    assert Inv(Initial(limit));
    RunKeepsInv(Initial(limit), steps);
    RunKeepsLimit(Initial(limit), steps);
  }

  /** After every run a request is issued exactly when the client is open, the table has room, and the method and the
      timeout are valid; it gets an identifier that was never issued, and its timeout is armed. Otherwise the first of
      these that fails is the reason, and nothing is pending that was not before. */
  lemma RequestIsExact(limit: nat, steps: seq<Step>, name: string, timeoutMs: int)
    ensures var c := Reach(limit, steps);
            var (after, answer) := Request(c, name, timeoutMs);
            && (answer.Issued? <==> !c.closed && |c.pending| < limit && 1 <= |name| <= 256 && timeoutMs >= 1)
            && (answer.Issued? ==>
                  && answer.id !in c.issued && after.issued == c.issued + [answer.id]
                  && after.pending == c.pending + {answer.id} && answer.id in after.timers)
            && (answer.Refused? ==>
                  && answer.refusal == (if c.closed then RefusedByTransport(ClosedError)
                                        else if |c.pending| >= limit then RefusedByTransport(QueueFull)
                                        else if !(1 <= |name| <= 256) then InvalidMethod
                                        else InvalidTimeout)
                  && after.issued == c.issued && after.pending == c.pending)
            && after.settled == c.settled && after.closed == c.closed
  {
    ReachableInv(limit, steps);
  }

  // ---------------------------------------------------------------- what settles a request

  /** What one step does to a pending request: a response of its own resolves or rejects it, its timeout and a failed
      write of it reject it, and whatever ends the transport rejects it with everything else. */
  function Fate(c: Client, step: Step, id: nat): Option<Outcome> {
    match step
    case DoRequest(_, _) => None
    case DoRespond(named, body) =>
      if named == Some(id) && body.ResultBody? then Some(Resolved(body.result))
      else if named == Some(id) && body.ErrorBody? then Some(Rejected(TransportFailed))
      else if named.Some? && named.value in c.pending && !body.MalformedErrorBody? then None
      else Some(Rejected(InvalidFrame))
    case DoTimeout(timer) => if timer == id then Some(Rejected(TimedOut)) else None
    case DoWriteFailed(request, cause) => if request == id then Some(Rejected(cause)) else None
    case DoClose(reason) => Some(Rejected(reason))
  }

  /** The first step that settles the request decides it. */
  function FateOver(c: Client, steps: seq<Step>, id: nat): Option<Outcome>
    decreases |steps|
  {
    if steps == [] then None
    else if Fate(c, steps[0], id).Some? then Fate(c, steps[0], id)
    else FateOver(Next(c, steps[0]), steps[1..], id)
  }

  lemma SettleIsExact(c: Client, id: nat, outcome: Outcome, other: nat)
    ensures Settlement(id, outcome) in Settle(c, id, outcome).settled
    ensures other in Settle(c, id, outcome).pending <==> other in c.pending && other != id
  {
    assert Settle(c, id, outcome).settled[|c.settled|] == Settlement(id, outcome);
  }

  lemma {:induction false} RejectedByClosing(pending: set<nat>, n: nat, error: TransportError, id: nat)
    requires id in pending && id < n
    ensures Settlement(id, Rejected(error)) in Rejections(pending, n, error)
    decreases n
  {
    if id < n - 1 {
      RejectedByClosing(pending, n - 1, error, id);
    }
  }

  lemma CloseIsExact(c: Client, error: TransportError, id: nat)
    requires Inv(c) && !c.closed && id in c.pending
    ensures Close(c, error).pending == {} && Settlement(id, Rejected(error)) in Close(c, error).settled
  {
    assert id in c.issued;
    RejectedByClosing(c.pending, c.nextId, error, id);
  }

  lemma StepSettlesExactly(c: Client, step: Step, id: nat)
    requires Inv(c) && id in c.pending
    ensures Fate(c, step, id).None? ==> id in Next(c, step).pending
    ensures Fate(c, step, id).Some? ==>
              id !in Next(c, step).pending && Settlement(id, Fate(c, step, id).value) in Next(c, step).settled
  {
    assert !c.closed;
    match step
    case DoRequest(_, _) =>
    case DoRespond(named, body) =>
      CloseIsExact(c, InvalidFrame, id);
      if named.Some? {
        SettleIsExact(c, named.value, if body.ResultBody? then Resolved(body.result) else Rejected(TransportFailed),
                      id);
      }
    case DoTimeout(timer) => SettleIsExact(c, timer, Rejected(TimedOut), id);
    case DoWriteFailed(request, cause) => SettleIsExact(c, request, Rejected(cause), id);
    case DoClose(reason) => CloseIsExact(c, reason, id);
  }

  lemma SettledStays(c: Client, steps: seq<Step>, s: Settlement)
    requires s in c.settled
    ensures s in Run(c, steps).settled
  {
    RunExtendsLog(c, steps);
    var i :| 0 <= i < |c.settled| && c.settled[i] == s;
    assert Run(c, steps).settled[i] == s;
  }

  /** Whatever happens to the client, a pending request stays pending until the first step that concerns it, and is then
      settled for good as that step says: its own response resolves it with its result. */
  lemma {:induction false} FirstEventDecides(c: Client, steps: seq<Step>, id: nat)
    requires Inv(c) && id in c.pending
    ensures FateOver(c, steps, id).None? ==> id in Run(c, steps).pending
    ensures FateOver(c, steps, id).Some? ==>
              && id !in Run(c, steps).pending
              && Settlement(id, FateOver(c, steps, id).value) in Run(c, steps).settled
    decreases |steps|
  {
    if steps != [] {
      var next := Next(c, steps[0]);
      StepSettlesExactly(c, steps[0], id);
      NextKeepsInv(c, steps[0]);
      if Fate(c, steps[0], id).None? {
        FirstEventDecides(next, steps[1..], id);
      } else {
        var s := Settlement(id, Fate(c, steps[0], id).value);
        SettledStays(next, steps[1..], s);
        RunKeepsInv(next, steps[1..]);
        SettledIsNotPending(Run(next, steps[1..]), s);
      }
    }
  }

  lemma SettledIsNotPending(c: Client, s: Settlement)
    requires Inv(c) && s in c.settled
    ensures s.id !in c.pending
  {
    var i :| 0 <= i < |c.settled| && c.settled[i] == s;
    assert IsSettled(c, s.id);
  }
}
