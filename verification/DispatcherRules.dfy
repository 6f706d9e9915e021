/** The rules of the finance tool dispatcher as functions on its state. One asynchronous `dispatch` is split where
    it awaits: `Begin` runs up to the consent check, `Finish` when the API call has settled, and anything may
    happen in between. */
module DispatcherRules {
  import opened Wrappers
  import opened Identifiers

  const TURN_READ_LIMIT := 12
  const TURN_PROPOSAL_LIMIT := 1
  const TURN_OUTPUT_LIMIT := 256 * 1024
  const SESSION_READ_LIMIT := 60
  const SESSION_PROPOSAL_LIMIT := 5
  const SESSION_OUTPUT_LIMIT := 1024 * 1024
  const TURN_CORRECTION_LIMIT := 1
  const MAX_LEDGER_ENTRIES := SESSION_READ_LIMIT + SESSION_PROPOSAL_LIMIT

  datatype SessionBinding = SessionBinding(consentVersion: string, hostEpoch: string, providerThreadId: string,
                                           sessionId: string)

  /** Serial numbers stand for the identity of the session and turn objects. */
  datatype SessionRef = SessionRef(serial: nat, binding: SessionBinding)
  datatype TurnRef = TurnRef(serial: nat, providerTurnId: string, aborted: bool)

  datatype Usage = Usage(outputBytes: nat, proposals: nat, readings: nat)

  const EMPTY_USAGE := Usage(0, 0, 0)

  datatype ToolCall = ToolCall(
    threadId: string, turnId: string, callId: string,
    namespace: Option<string>, tool: string, arguments: string)

  /** What the call digest covers: everything but the call identifier. */
  datatype Digest = Digest(threadId: string, turnId: string, namespace: Option<string>, tool: string, arguments: string)

  /** What the tool contract says about a call. */
  datatype Verdict = ValidCall(isProposal: bool) | InvalidArguments | ContractRefused(code: string)

  datatype ApiErrorCode =
    | ApiStale | ApiRejected | ApiInvalidRequest | ApiUnauthorized | ApiUnavailable
    | ApiInvalidResponse | ApiResponseTooLarge | ApiInvalidConfiguration | ApiInvalidState

  /** How the awaited part of a dispatch ends; `bytes` is the size of the encoded success answer. */
  datatype Outcome =
    | ConsentDenied
    | ApiData(data: string, bytes: nat)
    | ApiError(code: ApiErrorCode, httpStatus: Option<nat>)

  datatype Reason =
    | NotActive | InvalidCallId | Contradiction | TooManyCalls | BudgetReached | CallInterrupted | OutputLimitReached
    | Diagnostic(code: string) | Stale | Rejected | Unavailable | NotConfigured | ConsentMissing

  datatype Answer =
    | Success(tool: string, data: string, isProposal: bool, bytes: nat)
    | Failure(reason: Reason, abortTurn: bool)

  datatype LedgerEntry = LedgerEntry(digest: Digest, answer: Answer)

  datatype DispatchError = InvalidState | InvalidIdentifier

  /** What a suspended dispatch holds on to. */
  datatype Frame = Frame(session: SessionRef, turnSerial: nat, callId: string, digest: Digest, tool: string,
                         isProposal: bool)

  datatype Begun = Answered(answer: Answer) | Suspended(frame: Frame)

  datatype Dispatcher = Dispatcher(
    activeCall: bool,
    session: Option<SessionRef>,
    turn: Option<TurnRef>,
    sessionUsage: Usage,
    turnUsage: Usage,
    turnCorrections: nat,
    ledger: map<string, LedgerEntry>,
    sessionsStarted: nat,
    turnsStarted: nat)

  const INITIAL_DISPATCHER := Dispatcher(false, None, None, EMPTY_USAGE, EMPTY_USAGE, 0, map[], 0, 0)

  predicate ValidBinding(b: SessionBinding) {
    ValidConsentVersion(b.consentVersion) && ValidResourceId(b.hostEpoch)
    && ValidResourceId(b.providerThreadId) && ValidResourceId(b.sessionId)
  }

  function StartSession(d: Dispatcher, b: SessionBinding): Result<Dispatcher, DispatchError> {
    if d.session.Some? || d.activeCall then Err(InvalidState)
    else if !ValidBinding(b) then Err(InvalidIdentifier)
    else Ok(d.(session := Some(SessionRef(d.sessionsStarted + 1, b)), sessionsStarted := d.sessionsStarted + 1,
               sessionUsage := EMPTY_USAGE, turnUsage := EMPTY_USAGE, ledger := map[]))
  }

  function StartTurn(d: Dispatcher, providerTurnId: string): Result<Dispatcher, DispatchError> {
    if d.session.None? || d.turn.Some? || d.activeCall then Err(InvalidState)
    else if !ValidResourceId(providerTurnId) then Err(InvalidIdentifier)
    else Ok(d.(turn := Some(TurnRef(d.turnsStarted + 1, providerTurnId, false)), turnsStarted := d.turnsStarted + 1,
               turnUsage := EMPTY_USAGE, turnCorrections := 0))
  }

  function InterruptTurn(d: Dispatcher): Dispatcher {
    if d.turn.Some? then d.(turn := Some(d.turn.value.(aborted := true))) else d
  }

  function FinishTurn(d: Dispatcher): Result<Dispatcher, DispatchError> {
    if d.turn.None? || d.activeCall then Err(InvalidState)
    else Ok(d.(turn := None, turnUsage := EMPTY_USAGE, turnCorrections := 0))
  }

  function CloseSession(d: Dispatcher): Result<Dispatcher, DispatchError> {
    if d.session.None? || d.turn.Some? || d.activeCall then Err(InvalidState)
    else Ok(d.(session := None, sessionUsage := EMPTY_USAGE, ledger := map[]))
  }

  function AbandonSession(d: Dispatcher): Dispatcher {
    d.(session := None, turn := None, sessionUsage := EMPTY_USAGE, turnUsage := EMPTY_USAGE,
       turnCorrections := 0, ledger := map[])
  }

  function Used(u: Usage, isProposal: bool): nat {
    if isProposal then u.proposals else u.readings
  }

  function WithUsed(u: Usage, isProposal: bool, n: nat): Usage {
    if isProposal then u.(proposals := n) else u.(readings := n)
  }

  function TurnLimit(isProposal: bool): nat {
    if isProposal then TURN_PROPOSAL_LIMIT else TURN_READ_LIMIT
  }

  function SessionLimit(isProposal: bool): nat {
    if isProposal then SESSION_PROPOSAL_LIMIT else SESSION_READ_LIMIT
  }

  function Decrement(n: nat): nat {
    if n == 0 then 0 else n - 1
  }

  function ReserveCall(d: Dispatcher, isProposal: bool): Option<Dispatcher> {
    if Used(d.turnUsage, isProposal) >= TurnLimit(isProposal)
      || Used(d.sessionUsage, isProposal) >= SessionLimit(isProposal)
    then None
    else Some(d.(turnUsage := WithUsed(d.turnUsage, isProposal, Used(d.turnUsage, isProposal) + 1),
                 sessionUsage := WithUsed(d.sessionUsage, isProposal, Used(d.sessionUsage, isProposal) + 1)))
  }

  function ReleaseCall(d: Dispatcher, isProposal: bool): Dispatcher {
    d.(turnUsage := WithUsed(d.turnUsage, isProposal, Decrement(Used(d.turnUsage, isProposal))),
       sessionUsage := WithUsed(d.sessionUsage, isProposal, Decrement(Used(d.sessionUsage, isProposal))))
  }

  function CorrectableFailure(d: Dispatcher, code: string): (Dispatcher, Answer) {
    if d.turnCorrections >= TURN_CORRECTION_LIMIT
    then (d, Failure(Diagnostic(code + "_retry_exhausted"), true))
    else (d.(turnCorrections := d.turnCorrections + 1), Failure(Diagnostic(code), false))
  }

  function BoundedSuccess(d: Dispatcher, tool: string, data: string, isProposal: bool, bytes: nat): (Dispatcher, Answer)
  {
    if d.turnUsage.outputBytes + bytes > TURN_OUTPUT_LIMIT || d.sessionUsage.outputBytes + bytes > SESSION_OUTPUT_LIMIT
    then (d, Failure(OutputLimitReached, true))
    else (d.(turnUsage := d.turnUsage.(outputBytes := d.turnUsage.outputBytes + bytes),
             sessionUsage := d.sessionUsage.(outputBytes := d.sessionUsage.outputBytes + bytes)),
          Success(tool, data, isProposal, bytes))
  }

  function Remember(d: Dispatcher, callId: string, digest: Digest, answer: Answer): Dispatcher {
    if |d.ledger| < MAX_LEDGER_ENTRIES then d.(ledger := d.ledger[callId := LedgerEntry(digest, answer)]) else d
  }

  function ApiRejectionCode(httpStatus: Option<nat>): string {
    if httpStatus == Some(400) then "api_rejected_400" else "api_rejected_422"
  }

  function MapFailure(outcome: Outcome): Answer
    requires !outcome.ApiData?
  {
    match outcome
    case ConsentDenied => Failure(ConsentMissing, true)
    case ApiError(code, httpStatus) =>
      match code
      case ApiStale => Failure(Stale, false)
      case ApiRejected => Failure(Rejected, false)
      case ApiInvalidRequest => Failure(Diagnostic(ApiRejectionCode(httpStatus)), true)
      case ApiUnauthorized => Failure(Diagnostic("api_unauthorized"), true)
      case ApiUnavailable => Failure(Unavailable, false)
      case ApiInvalidResponse => Failure(Unavailable, false)
      case ApiResponseTooLarge => Failure(Unavailable, false)
      case ApiInvalidConfiguration => Failure(NotConfigured, true)
      case ApiInvalidState => Failure(NotConfigured, true)
  }

  function DigestOf(call: ToolCall): Digest {
    Digest(call.threadId, call.turnId, call.namespace, call.tool, call.arguments)
  }

  /** The call names the thread and the turn that are active now. */
  predicate Addressed(d: Dispatcher, call: ToolCall) {
    d.session.Some? && d.turn.Some? && call.threadId == d.session.value.binding.providerThreadId
    && call.turnId == d.turn.value.providerTurnId
  }

  /** `dispatch` up to its first await. */
  function Begin(d: Dispatcher, call: ToolCall, verdict: Verdict): (Dispatcher, Begun) {
    var digest := DigestOf(call);
    if !Addressed(d, call) then (d, Answered(Failure(NotActive, true)))
    else if !ValidResourceId(call.callId) then (d, Answered(Failure(InvalidCallId, true)))
    else if call.callId in d.ledger then
      var prior := d.ledger[call.callId];
      (d, Answered(if prior.digest == digest then prior.answer else Failure(Contradiction, true)))
    else if |d.ledger| >= MAX_LEDGER_ENTRIES || d.activeCall then (d, Answered(Failure(TooManyCalls, true)))
    else
      match verdict
      case InvalidArguments =>
        var (corrected, answer) := CorrectableFailure(d, "invalid_arguments");
        (Remember(corrected, call.callId, digest, answer), Answered(answer))
      case ContractRefused(code) =>
        var answer := Failure(Diagnostic(code), true);
        (Remember(d, call.callId, digest, answer), Answered(answer))
      case ValidCall(isProposal) =>
        match ReserveCall(d, isProposal)
        case None =>
          var answer := Failure(BudgetReached, true);
          (Remember(d, call.callId, digest, answer), Answered(answer))
        case Some(reserved) =>
          (reserved.(activeCall := true),
           Suspended(Frame(d.session.value, d.turn.value.serial, call.callId, digest, call.tool, isProposal)))
  }

  /** The session and the turn a suspended dispatch started in are still the current ones. */
  predicate StillCurrent(d: Dispatcher, f: Frame) {
    d.session == Some(f.session) && d.turn.Some? && d.turn.value.serial == f.turnSerial
  }

  /** The awaited part is over: what the answer is, before it is remembered. */
  function Conclude(d: Dispatcher, f: Frame, outcome: Outcome): (Dispatcher, Answer) {
    match outcome
    case ApiData(data, bytes) =>
      if !StillCurrent(d, f) || d.turn.value.aborted then (d, Failure(CallInterrupted, true))
      else BoundedSuccess(d, f.tool, data, f.isProposal, bytes)
    case ApiError(code, httpStatus) =>
      if code == ApiInvalidRequest then CorrectableFailure(ReleaseCall(d, f.isProposal), ApiRejectionCode(httpStatus))
      else (d, MapFailure(outcome))
    case ConsentDenied => (d, MapFailure(outcome))
  }

  /** `dispatch` from its last await on. */
  function Finish(d: Dispatcher, f: Frame, outcome: Outcome): (Dispatcher, Answer) {
    var (concluded, answer) := Conclude(d, f, outcome);
    (Remember(concluded.(activeCall := false), f.callId, f.digest, answer), answer)
  }
}
