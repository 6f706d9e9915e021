/** The finance tool dispatcher, updated in place; every method does what the rules say. */
module ToolDispatcher {
  import opened Wrappers
  import opened Identifiers
  import opened DispatcherRules

  class FinanceToolDispatcher {
    var activeCall: bool
    var session: Option<SessionRef>
    var turn: Option<TurnRef>
    var sessionUsage: Usage
    var turnUsage: Usage
    var turnCorrections: nat
    var ledger: map<string, LedgerEntry>
    var sessionsStarted: nat
    var turnsStarted: nat

    function Model(): Dispatcher
      reads this
    {
      Dispatcher(activeCall, session, turn, sessionUsage, turnUsage, turnCorrections, ledger, sessionsStarted,
                 turnsStarted)
    }

    constructor ()
      ensures Model() == INITIAL_DISPATCHER
    {
      activeCall, session, turn := false, None, None;
      sessionUsage, turnUsage, turnCorrections, ledger := EMPTY_USAGE, EMPTY_USAGE, 0, map[];
      sessionsStarted, turnsStarted := 0, 0;
    }

    method StartSession(b: SessionBinding) returns (r: Result<(), DispatchError>)
      modifies this
      ensures r.Ok? <==> DispatcherRules.StartSession(old(Model()), b).Ok?
      ensures r.Err? ==> r.error == DispatcherRules.StartSession(old(Model()), b).error && Model() == old(Model())
      ensures r.Ok? ==> Model() == DispatcherRules.StartSession(old(Model()), b).value
    {
      if session.Some? || activeCall { return Err(InvalidState); }
      if !ValidBinding(b) { return Err(InvalidIdentifier); }
      sessionsStarted := sessionsStarted + 1;
      session := Some(SessionRef(sessionsStarted, b));
      sessionUsage := EMPTY_USAGE;
      turnUsage := EMPTY_USAGE;
      ledger := map[];
      r := Ok(());
    }

    method StartTurn(providerTurnId: string) returns (r: Result<(), DispatchError>)
      modifies this
      ensures r.Ok? <==> DispatcherRules.StartTurn(old(Model()), providerTurnId).Ok?
      ensures r.Err? ==>
                r.error == DispatcherRules.StartTurn(old(Model()), providerTurnId).error && Model() == old(Model())
      ensures r.Ok? ==> Model() == DispatcherRules.StartTurn(old(Model()), providerTurnId).value
    {
      if session.None? || turn.Some? || activeCall { return Err(InvalidState); }
      if !ValidResourceId(providerTurnId) { return Err(InvalidIdentifier); }
      turnsStarted := turnsStarted + 1;
      turn := Some(TurnRef(turnsStarted, providerTurnId, false));
      turnUsage := EMPTY_USAGE;
      turnCorrections := 0;
      r := Ok(());
    }

    method InterruptTurn()
      modifies this`turn
      ensures Model() == DispatcherRules.InterruptTurn(old(Model()))
    {
      if turn.Some? { turn := Some(turn.value.(aborted := true)); }
    }

    method FinishTurn() returns (r: Result<(), DispatchError>)
      modifies this
      ensures r.Ok? <==> DispatcherRules.FinishTurn(old(Model())).Ok?
      ensures r.Err? ==> r.error == DispatcherRules.FinishTurn(old(Model())).error
      ensures Model() == if r.Ok? then DispatcherRules.FinishTurn(old(Model())).value else old(Model())
    {
      if turn.None? || activeCall { return Err(InvalidState); }
      turn := None;
      turnUsage := EMPTY_USAGE;
      turnCorrections := 0;
      r := Ok(());
    }

    method CloseSession() returns (r: Result<(), DispatchError>)
      modifies this
      ensures r.Ok? <==> DispatcherRules.CloseSession(old(Model())).Ok?
      ensures r.Err? ==> r.error == DispatcherRules.CloseSession(old(Model())).error
      ensures Model() == if r.Ok? then DispatcherRules.CloseSession(old(Model())).value else old(Model())
    {
      if session.None? || turn.Some? || activeCall { return Err(InvalidState); }
      session := None;
      sessionUsage := EMPTY_USAGE;
      ledger := map[];
      r := Ok(());
    }

    method AbandonSession()
      modifies this
      ensures Model() == DispatcherRules.AbandonSession(old(Model()))
    {
      turn := None;
      session := None;
      turnUsage := EMPTY_USAGE;
      turnCorrections := 0;
      sessionUsage := EMPTY_USAGE;
      ledger := map[];
    }

    method ReserveCall(isProposal: bool) returns (reserved: bool)
      modifies this`turnUsage, this`sessionUsage
      ensures reserved == DispatcherRules.ReserveCall(old(Model()), isProposal).Some?
      ensures Model() == if reserved then DispatcherRules.ReserveCall(old(Model()), isProposal).value else old(Model())
    {
      if Used(turnUsage, isProposal) >= TurnLimit(isProposal)
        || Used(sessionUsage, isProposal) >= SessionLimit(isProposal) {
        return false;
      }
      turnUsage := WithUsed(turnUsage, isProposal, Used(turnUsage, isProposal) + 1);
      sessionUsage := WithUsed(sessionUsage, isProposal, Used(sessionUsage, isProposal) + 1);
      reserved := true;
    }

    method CorrectableFailure(code: string) returns (answer: Answer)
      modifies this`turnCorrections
      ensures (Model(), answer) == DispatcherRules.CorrectableFailure(old(Model()), code)
    {
      if turnCorrections >= TURN_CORRECTION_LIMIT {
        return Failure(Diagnostic(code + "_retry_exhausted"), true);
      }
      turnCorrections := turnCorrections + 1;
      answer := Failure(Diagnostic(code), false);
    }

    method Remember(callId: string, digest: Digest, answer: Answer)
      modifies this`ledger
      ensures Model() == DispatcherRules.Remember(old(Model()), callId, digest, answer)
    {
      if |ledger| < MAX_LEDGER_ENTRIES { ledger := ledger[callId := LedgerEntry(digest, answer)]; }
    }

    method BeginDispatch(call: ToolCall, verdict: Verdict) returns (begun: Begun)
      modifies this
      ensures (Model(), begun) == Begin(old(Model()), call, verdict)
    {
      if session.None? || turn.None? || call.threadId != session.value.binding.providerThreadId
         || call.turnId != turn.value.providerTurnId {
        return Answered(Failure(NotActive, true));
      }
      if !ValidResourceId(call.callId) { return Answered(Failure(InvalidCallId, true)); }
      var digest := DigestOf(call);
      if call.callId in ledger {
        var prior := ledger[call.callId];
        return Answered(if prior.digest == digest then prior.answer else Failure(Contradiction, true));
      }
      if |ledger| >= MAX_LEDGER_ENTRIES || activeCall { return Answered(Failure(TooManyCalls, true)); }
      var answer: Answer;
      match verdict
      case InvalidArguments =>
        answer := CorrectableFailure("invalid_arguments");
        Remember(call.callId, digest, answer);
        begun := Answered(answer);
      case ContractRefused(code) =>
        answer := Failure(Diagnostic(code), true);
        Remember(call.callId, digest, answer);
        begun := Answered(answer);
      case ValidCall(isProposal) =>
        var reserved := ReserveCall(isProposal);
        if !reserved {
          answer := Failure(BudgetReached, true);
          Remember(call.callId, digest, answer);
          return Answered(answer);
        }
        activeCall := true;
        begun := Suspended(Frame(session.value, turn.value.serial, call.callId, digest, call.tool, isProposal));
    }

    method FinishDispatch(f: Frame, outcome: Outcome) returns (answer: Answer)
      modifies this
      ensures (Model(), answer) == Finish(old(Model()), f, outcome)
    {
      if outcome.ApiData? {
        if session != Some(f.session) || turn.None? || turn.value.serial != f.turnSerial || turn.value.aborted {
          answer := Failure(CallInterrupted, true);
        } else if turnUsage.outputBytes + outcome.bytes > TURN_OUTPUT_LIMIT
                  || sessionUsage.outputBytes + outcome.bytes > SESSION_OUTPUT_LIMIT {
          answer := Failure(OutputLimitReached, true);
        } else {
          turnUsage := turnUsage.(outputBytes := turnUsage.outputBytes + outcome.bytes);
          sessionUsage := sessionUsage.(outputBytes := sessionUsage.outputBytes + outcome.bytes);
          answer := Success(f.tool, outcome.data, f.isProposal, outcome.bytes);
        }
      } else if outcome.ApiError? && outcome.code == ApiInvalidRequest {
        turnUsage := WithUsed(turnUsage, f.isProposal, Decrement(Used(turnUsage, f.isProposal)));
        sessionUsage := WithUsed(sessionUsage, f.isProposal, Decrement(Used(sessionUsage, f.isProposal)));
        answer := CorrectableFailure(ApiRejectionCode(outcome.httpStatus));
      } else {
        answer := MapFailure(outcome);
      }
      activeCall := false;
      Remember(f.callId, f.digest, answer);
    }
  }
}
