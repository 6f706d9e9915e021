/** What the dispatcher answers, told by the history of calls: which calls are admitted, why the others are refused, and
    what each outcome of the API comes to. */
module DispatcherOutcomes {
  import opened Wrappers
  import opened Identifiers
  import opened DispatcherRules
  import opened DispatcherRuns

  predicate NoCallInFlight(s: Sys) {
    forall i | 0 <= i < |s.calls| :: s.calls[i].phase.Settled?
  }

  /** The call names the provider thread of the open session and the provider turn of the open turn. */
  predicate ForThisTurn(s: Sys, call: ToolCall) {
    && s.d.session.Some? && s.d.turn.Some?
    && call.threadId == s.d.session.value.binding.providerThreadId && call.turnId == s.d.turn.value.providerTurnId
  }

  /** Neither the turn nor the session has used up its calls of this kind: 1 proposal or 12 readings a turn, 5 or 60 a
      session, not counting those that the API answered with `invalid_request`. */
  predicate WithinBudget(s: Sys, isProposal: bool)
    requires s.d.session.Some? && s.d.turn.Some?
  {
    && Charges(s.calls, OfTurn(s.d.turn.value.serial, isProposal)) < (if isProposal then 1 else 12)
    && Charges(s.calls, OfSession(s.d.session.value.serial, isProposal)) < (if isProposal then 5 else 60)
  }

  predicate Admissible(s: Sys, call: ToolCall, verdict: Verdict) {
    && ForThisTurn(s, call) && ValidResourceId(call.callId) && call.callId !in s.d.ledger
    && |s.d.ledger| < 65 && NoCallInFlight(s)
    && verdict.ValidCall? && WithinBudget(s, verdict.isProposal)
  }

  /** The first failure of a turn that the model may correct invites a correction; the next one ends the turn. */
  function Correction(s: Sys, code: string): Answer {
    if s.d.turnCorrections == 0 then Failure(Diagnostic(code), false)
    else Failure(Diagnostic(code + "_retry_exhausted"), true)
  }

  /** What a call that is not admitted is told. */
  function Refusal(s: Sys, call: ToolCall, verdict: Verdict): Answer {
    if !ForThisTurn(s, call) then Failure(NotActive, true)
    else if !ValidResourceId(call.callId) then Failure(InvalidCallId, true)
    else if call.callId in s.d.ledger then
      if s.d.ledger[call.callId].digest == DigestOf(call) then s.d.ledger[call.callId].answer
      else Failure(Contradiction, true)
    else if |s.d.ledger| >= 65 || !NoCallInFlight(s) then Failure(TooManyCalls, true)
    else
      match verdict
      case InvalidArguments => Correction(s, "invalid_arguments")
      case ContractRefused(code) => Failure(Diagnostic(code), true)
      case ValidCall(_) => Failure(BudgetReached, true)
  }

  lemma FlagIsFlight(s: Sys)
    requires FlightInv(s)
    ensures s.d.activeCall <==> !NoCallInFlight(s)
  {
    if s.d.activeCall {
      assert !s.calls[|s.calls| - 1].phase.Settled?;
    }
  }

  lemma BudgetIsCounted(s: Sys, isProposal: bool)
    requires Inv(s) && s.d.session.Some? && s.d.turn.Some?
    ensures WithinBudget(s, isProposal) <==> ReserveCall(s.d, isProposal).Some?
  {
    assert Used(s.d.turnUsage, isProposal) == Charges(s.calls, OfTurn(s.d.turn.value.serial, isProposal));
    assert Used(s.d.sessionUsage, isProposal) == Charges(s.calls, OfSession(s.d.session.value.serial, isProposal));
  }

  lemma BeginIsExact(s: Sys, call: ToolCall, verdict: Verdict)
    requires Inv(s)
    ensures Begin(s.d, call, verdict).1 ==
            if Admissible(s, call, verdict) then
              Suspended(Frame(s.d.session.value, s.d.turn.value.serial, call.callId, DigestOf(call), call.tool,
                              verdict.isProposal))
            else Answered(Refusal(s, call, verdict))
  {
    FlagIsFlight(s);
    if ForThisTurn(s, call) && verdict.ValidCall? {
      BudgetIsCounted(s, verdict.isProposal);
    }
  }

  /** After every run of any interleaving a call is admitted exactly when it is for the open session and turn, its
      identifier is valid and new, the ledger has room, no call is in flight, the contract lets it through, and the
      budgets are not used up; and each other call gets the answer that its first defect calls for. */
  lemma AdmissionIsExact(steps: seq<Step>, call: ToolCall, verdict: Verdict)
    ensures var s := Reach(steps);
            && (Begin(s.d, call, verdict).1.Suspended? <==> Admissible(s, call, verdict))
            && (Admissible(s, call, verdict) ==>
                  Next(s, DoBegin(call, verdict)).calls
                  == s.calls + [CallRecord(Frame(s.d.session.value, s.d.turn.value.serial, call.callId, DigestOf(call),
                                                 call.tool, verdict.isProposal), Admitted)])
            && (!Admissible(s, call, verdict) ==>
                  && Begin(s.d, call, verdict).1 == Answered(Refusal(s, call, verdict))
                  && Next(s, DoBegin(call, verdict)).calls == s.calls)
  {
    ReachableInv(steps);
    BeginIsExact(Reach(steps), call, verdict);
  }

  // ---------------------------------------------------------------- outcomes

  /** What an error of the API comes to: the message and whether it ends the turn. */
  function ErrorAnswer(s: Sys, code: ApiErrorCode, httpStatus: Option<nat>): Answer {
    match code
    case ApiStale => Failure(Stale, false)
    case ApiRejected => Failure(Rejected, false)
    case ApiInvalidRequest =>
      Correction(s, if httpStatus == Some(400) then "api_rejected_400" else "api_rejected_422")
    case ApiUnauthorized => Failure(Diagnostic("api_unauthorized"), true)
    case ApiUnavailable => Failure(Unavailable, false)
    case ApiInvalidResponse => Failure(Unavailable, false)
    case ApiResponseTooLarge => Failure(Unavailable, false)
    case ApiInvalidConfiguration => Failure(NotConfigured, true)
    case ApiInvalidState => Failure(NotConfigured, true)
  }

  /** The turn the call was made in is still open and was not interrupted. */
  predicate StillWanted(s: Sys, f: Frame) {
    && s.d.session == Some(f.session) && s.d.turn.Some? && s.d.turn.value.serial == f.turnSerial
    && !s.d.turn.value.aborted
  }

  /** The output of the turn stays within 256 KiB and that of the session within 1 MiB. */
  predicate OutputFits(s: Sys, f: Frame, bytes: nat) {
    && OutputBytes(s.calls, OfTurn(f.turnSerial, false)) + bytes <= 262144
    && OutputBytes(s.calls, OfSession(f.session.serial, false)) + bytes <= 1048576
  }

  function OutcomeAnswer(s: Sys, f: Frame, outcome: Outcome): Answer {
    match outcome
    case ConsentDenied => Failure(ConsentMissing, true)
    case ApiError(code, httpStatus) => ErrorAnswer(s, code, httpStatus)
    case ApiData(data, bytes) =>
      if !StillWanted(s, f) then Failure(CallInterrupted, true)
      else if !OutputFits(s, f, bytes) then Failure(OutputLimitReached, true)
      else Success(f.tool, data, f.isProposal, bytes)
  }

  lemma FinishIsExact(s: Sys, f: Frame, outcome: Outcome)
    requires Inv(s)
    ensures Finish(s.d, f, outcome).1 == OutcomeAnswer(s, f, outcome)
  {
    if outcome.ApiError? {
      assert ApiRejectionCode(outcome.httpStatus)
          == if outcome.httpStatus == Some(400) then "api_rejected_400" else "api_rejected_422";
    }
  }

  /** After every run, a call in flight that may settle is answered exactly as its outcome calls for, the answer is
      stored under its identifier, and the next call may begin. */
  lemma SettlementIsExact(steps: seq<Step>, i: nat, outcome: Outcome)
    requires i < |Reach(steps).calls| && MaySettle(Reach(steps).calls[i].phase, outcome)
    ensures var s := Reach(steps);
            var (after, f) := (Next(s, DoSettle(i, outcome)), s.calls[i].frame);
            && after.calls == s.calls[i := CallRecord(f, Settled(s.calls[i].phase.AtApi?, outcome,
                                                                 OutcomeAnswer(s, f, outcome)))]
            && f.callId in after.d.ledger
            && after.d.ledger[f.callId] == LedgerEntry(f.digest, OutcomeAnswer(s, f, outcome))
            && NoCallInFlight(after)
  {
    var s := Reach(steps);
    ReachableInv(steps);
    FinishIsExact(s, s.calls[i].frame, outcome);
    SettledAnswerIsStored(steps, i, outcome);
    SettlingKeepsInv(s, i, outcome);
    FlagIsFlight(Next(s, DoSettle(i, outcome)));
  }

  // ---------------------------------------------------------------- corrections

  /** A step that leaves the turn open changes the count of its corrections only by using up the one there is. */
  lemma NextCorrections(s: Sys, step: Step)
    requires SerialInv(s) && s.d.turn.Some? && Next(s, step).d.turn.Some?
    requires Next(s, step).d.turn.value.serial == s.d.turn.value.serial
    ensures s.d.turnCorrections >= 1 ==> Next(s, step).d.turnCorrections == s.d.turnCorrections
    ensures s.d.turnCorrections == 0 ==> Next(s, step).d.turnCorrections <= 1
  {
  }

  lemma TurnsAreNumbered(s: Sys, step: Step)
    requires SerialInv(s)
    ensures var after := Next(s, step).d;
            && s.d.turnsStarted <= after.turnsStarted
            && (after.turn.None? || after.turn.value.serial > s.d.turnsStarted
                || (s.d.turn.Some? && after.turn.value.serial == s.d.turn.value.serial))
  {
    if step.DoSettle? && step.i < |s.calls| {
      FinishUsage(s.d, s.calls[step.i].frame, step.outcome);
    }
  }

  lemma {:induction false} TurnStaysAway(s: Sys, steps: seq<Step>, serial: nat)
    requires Inv(s) && serial <= s.d.turnsStarted && !(s.d.turn.Some? && s.d.turn.value.serial == serial)
    ensures var end := Run(s, steps).d; !(end.turn.Some? && end.turn.value.serial == serial)
    decreases |steps|
  {
    if steps != [] {
      TurnsAreNumbered(s, steps[0]);
      NextKeepsInv(s, steps[0]);
      TurnStaysAway(Next(s, steps[0]), steps[1..], serial);
    }
  }

  /** A turn has one correction: once it is used up, every later failure of the turn that could be corrected ends it. */
  lemma {:induction false} OneCorrectionATurn(s: Sys, steps: seq<Step>, code: string)
    requires Inv(s) && s.d.turn.Some? && s.d.turnCorrections >= 1
    requires Run(s, steps).d.turn.Some? && Run(s, steps).d.turn.value.serial == s.d.turn.value.serial
    ensures Correction(Run(s, steps), code) == Failure(Diagnostic(code + "_retry_exhausted"), true)
    decreases |steps|
  {
    if steps != [] {
      var next := Next(s, steps[0]);
      NextKeepsInv(s, steps[0]);
      TurnsAreNumbered(s, steps[0]);
      if next.d.turn.Some? && next.d.turn.value.serial == s.d.turn.value.serial {
        NextCorrections(s, steps[0]);
        OneCorrectionATurn(next, steps[1..], code);
      } else {
        TurnStaysAway(next, steps[1..], s.d.turn.value.serial);
      }
    }
  }

  /** Using the correction uses it up: the same failure again ends the turn. */
  lemma CorrectionIsUsedUp(s: Sys, call: ToolCall)
    requires Inv(s) && Begin(s.d, call, InvalidArguments).1 == Answered(Failure(Diagnostic("invalid_arguments"), false))
    requires call.callId !in s.d.ledger
    ensures s.d.turnCorrections == 0 && Begin(s.d, call, InvalidArguments).0.turnCorrections == 1
  {
    BeginIsExact(s, call, InvalidArguments);
  }

  // ---------------------------------------------------------------- sessions and turns

  /** A session opens exactly when none is open, no call is in flight and all its identifiers are valid, and it opens
      under a new serial number with an empty ledger and nothing charged. */
  lemma SessionOpensExactly(steps: seq<Step>, b: SessionBinding)
    ensures var s := Reach(steps);
            && (StartSession(s.d, b).Ok? <==>
                  && s.d.session.None? && NoCallInFlight(s)
                  && ValidConsentVersion(b.consentVersion) && ValidResourceId(b.hostEpoch)
                  && ValidResourceId(b.providerThreadId) && ValidResourceId(b.sessionId))
            && (StartSession(s.d, b).Ok? ==>
                  var d := Next(s, DoStartSession(b)).d;
                  && d.session.Some? && d.session.value.binding == b && d.session.value.serial > s.d.sessionsStarted
                  && d.turn.None? && d.ledger == map[] && !d.activeCall
                  && d.sessionUsage == Usage(0, 0, 0) && d.turnUsage == Usage(0, 0, 0))
            && (StartSession(s.d, b).Err? ==>
                  && Next(s, DoStartSession(b)) == s
                  && StartSession(s.d, b).error
                     == if s.d.session.None? && NoCallInFlight(s) then InvalidIdentifier else InvalidState)
  {
    ReachableInv(steps);
    FlagIsFlight(Reach(steps));
  }

  /** A turn opens exactly in an open session without a turn or a call in flight, under a new serial number, not
      interrupted and with its correction unused. */
  lemma TurnOpensExactly(steps: seq<Step>, providerTurnId: string)
    ensures var s := Reach(steps);
            && (StartTurn(s.d, providerTurnId).Ok? <==>
                  s.d.session.Some? && s.d.turn.None? && NoCallInFlight(s) && ValidResourceId(providerTurnId))
            && (StartTurn(s.d, providerTurnId).Ok? ==>
                  var d := Next(s, DoStartTurn(providerTurnId)).d;
                  && d.turn == Some(TurnRef(d.turnsStarted, providerTurnId, false))
                  && d.turnsStarted > s.d.turnsStarted && d.turnCorrections == 0
                  && d.session == s.d.session && d.ledger == s.d.ledger && !d.activeCall
                  && d.sessionUsage == s.d.sessionUsage && d.turnUsage == Usage(0, 0, 0))
            && (StartTurn(s.d, providerTurnId).Err? ==>
                  && Next(s, DoStartTurn(providerTurnId)) == s
                  && StartTurn(s.d, providerTurnId).error
                     == if ValidResourceId(providerTurnId) then InvalidState
                        else if s.d.session.Some? && s.d.turn.None? && NoCallInFlight(s) then InvalidIdentifier
                        else InvalidState)
  {
    ReachableInv(steps);
    FlagIsFlight(Reach(steps));
  }

  /** A turn ends, and a session closes, exactly when nothing within it is still open; interrupting marks the turn and
      abandoning drops both, whatever is in flight. */
  lemma EndingsAreExact(steps: seq<Step>)
    ensures var s := Reach(steps);
            && (FinishTurn(s.d).Ok? <==> s.d.turn.Some? && NoCallInFlight(s))
            && (FinishTurn(s.d).Err? ==> FinishTurn(s.d) == Err(InvalidState) && Next(s, DoFinishTurn) == s)
            && (CloseSession(s.d).Err? ==> CloseSession(s.d) == Err(InvalidState) && Next(s, DoCloseSession) == s)
            && (FinishTurn(s.d).Ok? ==>
                  var d := Next(s, DoFinishTurn).d; d.turn.None? && d.session == s.d.session && d.ledger == s.d.ledger)
            && (CloseSession(s.d).Ok? <==> s.d.session.Some? && s.d.turn.None? && NoCallInFlight(s))
            && (CloseSession(s.d).Ok? ==> var d := Next(s, DoCloseSession).d; d.session.None? && d.ledger == map[])
            && (var d := Next(s, DoAbandon).d;
                d.session.None? && d.turn.None? && d.ledger == map[] && d.activeCall == s.d.activeCall)
            && Next(s, DoInterrupt).d
               == s.d.(turn := if s.d.turn.Some? then Some(s.d.turn.value.(aborted := true)) else None)
  {
    ReachableInv(steps);
    FlagIsFlight(Reach(steps));
  }

  // ---------------------------------------------------------------- a call from start to finish

  lemma OutputWhileCalling(s: Sys, f: Frame, b: Budget)
    ensures OutputBytes(s.calls + [CallRecord(f, AtApi)], b) == OutputBytes(s.calls, b)
  {
    AppendCounts(s.calls, CallRecord(f, AtApi), b);
  }

  lemma CallIsAdmitted(s: Sys, call: ToolCall, isProposal: bool)
    requires Inv(s) && Admissible(s, call, ValidCall(isProposal))
    ensures var f := Frame(s.d.session.value, s.d.turn.value.serial, call.callId, DigestOf(call), call.tool,
                           isProposal);
            var admitted := Next(s, DoBegin(call, ValidCall(isProposal)));
            && Inv(admitted) && admitted.calls == s.calls + [CallRecord(f, Admitted)]
            && admitted.d.session == s.d.session && admitted.d.turn == s.d.turn
  {
    BeginIsExact(s, call, ValidCall(isProposal));
    NextKeepsInv(s, DoBegin(call, ValidCall(isProposal)));
    AdmittingSuspends(s, call, ValidCall(isProposal));
  }

  lemma CallReachesApi(s: Sys, calls: seq<CallRecord>, f: Frame)
    requires Inv(s) && s.calls == calls + [CallRecord(f, Admitted)]
    ensures var atApi := Next(s, DoReachApi(|calls|));
            Inv(atApi) && atApi == s.(calls := calls + [CallRecord(f, AtApi)])
  {
    NextKeepsInv(s, DoReachApi(|calls|));
    assert s.calls[|calls| := CallRecord(f, AtApi)] == calls + [CallRecord(f, AtApi)];
  }

  /** An admissible call that the API answers with data that fits, in a turn that is not interrupted, succeeds with that
      data: the limits are not kept by refusing everything. */
  lemma CallGoesThrough(steps: seq<Step>, call: ToolCall, isProposal: bool, data: string, bytes: nat)
    requires var s := Reach(steps);
             && Admissible(s, call, ValidCall(isProposal)) && !s.d.turn.value.aborted
             && OutputBytes(s.calls, OfTurn(s.d.turn.value.serial, false)) + bytes <= 262144
             && OutputBytes(s.calls, OfSession(s.d.session.value.serial, false)) + bytes <= 1048576
    ensures var s := Reach(steps);
            var n := |s.calls|;
            var atApi := Next(Next(s, DoBegin(call, ValidCall(isProposal))), DoReachApi(n));
            && n < |atApi.calls|
            && Finish(atApi.d, atApi.calls[n].frame, ApiData(data, bytes)).1
               == Success(call.tool, data, isProposal, bytes)
  {
    var s := Reach(steps);
    var f := Frame(s.d.session.value, s.d.turn.value.serial, call.callId, DigestOf(call), call.tool, isProposal);
    var admitted := Next(s, DoBegin(call, ValidCall(isProposal)));
    ReachableInv(steps);
    CallIsAdmitted(s, call, isProposal);
    CallReachesApi(admitted, s.calls, f);
    OutputWhileCalling(s, f, OfTurn(f.turnSerial, false));
    OutputWhileCalling(s, f, OfSession(f.session.serial, false));
    FinishIsExact(Next(admitted, DoReachApi(|s.calls|)), f, ApiData(data, bytes));
  }
}
