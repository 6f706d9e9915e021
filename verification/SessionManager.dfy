/** The finance chat reducer: one pure transition function over host, App Server, authentication,
    consent, session and turn, with a bounded ledger of every identifier seen in this host epoch. */
module SessionManager {
  import opened Wrappers
  import opened Identifiers

  const MAX_ISSUED_RESOURCE_IDS := 256

  datatype HostStatus = HostStarting | HostReady | HostDegraded | HostStopping | HostStopped
  datatype AppServerStatus = AppStopped | AppStarting | AppReady | AppStopping | AppCrashed
  datatype ConsentStatus = Unknown | Granted | RevokePending | Revoked
  datatype AuthStatus = AuthUnknown | LoggedOut | Authenticated
  datatype SessionStatus = SessionStarting | SessionReady | ContextLost | Closed
  datatype TurnStatus = Starting | Running | Interrupting | Interrupted | Completed | Failed

  datatype ResourceKind = ProviderThread | ProviderTurn | SessionId | TurnId
  datatype IssuedId = IssuedId(id: string, kind: ResourceKind)

  datatype Consent = Consent(status: ConsentStatus, version: Option<string>)
  datatype Session = Session(consentVersion: string, id: string, providerThreadId: Option<string>,
                             status: SessionStatus)
  datatype Turn = Turn(id: string, providerTurnId: Option<string>, sessionId: string, status: TurnStatus)

  datatype State = State(
    appServer: AppServerStatus,
    auth: AuthStatus,
    consent: Consent,
    host: HostStatus,
    issued: seq<IssuedId>,
    session: Option<Session>,
    turn: Option<Turn>)

  const INITIAL_STATE := State(AppStopped, AuthUnknown, Consent(Unknown, None), HostStarting, [], None, None)

  datatype Event =
    | HostChanged(host: HostStatus)
    | AppServerChanged(appServer: AppServerStatus)
    | AuthChanged(auth: AuthStatus)
    | ConsentLoaded(loaded: ConsentStatus, version: string)
    | ConsentGranted(version: string)
    | ConsentRevokePending(version: string)
    | ConsentRevoked(version: string)
    | SessionStart(consentVersion: string, sessionId: string)
    | SessionIsReady(providerThreadId: string, resumed: bool, sessionId: string)
    | SessionFail(sessionId: string)
    | SessionClose(sessionId: string)
    | TurnStart(sessionId: string, turnId: string)
    | TurnRunning(providerTurnId: string, turnId: string)
    | TurnInterrupt(turnId: string)
    | TurnFinish(finished: TurnStatus, turnId: string)
    | ChildExited
  {
    /** The payload types of the events: persisted consent is never `unknown`, a finished turn is never active. */
    predicate WellTyped() {
      match this
      case ConsentLoaded(status, _) => status != Unknown
      case TurnFinish(status, _) => !IsActive(status)
      case _ => true
    }
  }

  datatype ErrorCode =
    | AuthenticationRequired
    | ConsentRequired
    | ConsentVersionMismatch
    | IdentifierExhausted
    | IdentifierReused
    | InvalidStateTransition
    | ResourceNotFound

  type Outcome = Result<State, ErrorCode>

  function HostSuccessors(host: HostStatus): set<HostStatus> {
    match host
    case HostStarting => {HostReady, HostDegraded, HostStopping}
    case HostReady => {HostDegraded, HostStopping}
    case HostDegraded => {HostReady, HostStopping}
    case HostStopping => {HostStopped}
    case HostStopped => {}
  }

  function AppServerSuccessors(appServer: AppServerStatus): set<AppServerStatus> {
    match appServer
    case AppStopped => {AppStarting}
    case AppStarting => {AppReady, AppStopping, AppCrashed}
    case AppReady => {AppStopping, AppCrashed}
    case AppStopping => {AppStopped, AppCrashed}
    case AppCrashed => {AppStarting, AppStopping, AppStopped}
  }

  predicate IsActive(status: TurnStatus) {
    status in {Starting, Running, Interrupting}
  }

  predicate ActiveTurn(turn: Option<Turn>) {
    turn.Some? && IsActive(turn.value.status)
  }

  predicate LiveSession(session: Option<Session>) {
    session.Some? && session.value.status in {SessionStarting, SessionReady}
  }

  /** The role under which an identifier was first seen, if it was. */
  function IssuedKind(issued: seq<IssuedId>, id: string): (kind: Option<ResourceKind>)
    ensures kind.None? <==> forall i | 0 <= i < |issued| :: issued[i].id != id
    ensures kind.Some? ==> IssuedId(id, kind.value) in issued
  {
    if issued == [] then None
    else if issued[0].id == id then Some(issued[0].kind)
    else
      assert forall i | 1 <= i < |issued| :: issued[i] == issued[1..][i - 1];
      IssuedKind(issued[1..], id)
  }

  function RequireGranted(s: State, version: string): Option<ErrorCode> {
    if !ValidConsentVersion(version) then Some(ConsentVersionMismatch)
    else if s.consent.status != Granted then Some(ConsentRequired)
    else if s.consent.version != Some(version) then Some(ConsentVersionMismatch)
    else None
  }

  function RequireConsentVersion(s: State, version: string): Option<ErrorCode> {
    if ValidConsentVersion(version) && s.consent.version == Some(version) then None else Some(ConsentVersionMismatch)
  }

  function RequireAvailable(s: State, id: string): Option<ErrorCode> {
    if !ValidResourceId(id) then Some(ResourceNotFound)
    else if IssuedKind(s.issued, id).Some? then Some(IdentifierReused)
    else None
  }

  function RequireReattachable(s: State, id: string, kind: ResourceKind): Option<ErrorCode> {
    if !ValidResourceId(id) then Some(ResourceNotFound)
    else if IssuedKind(s.issued, id) !in {None, Some(kind)} then Some(IdentifierReused)
    else None
  }

  function Issue(s: State, id: string, kind: ResourceKind): Outcome {
    if |s.issued| + 1 > MAX_ISSUED_RESOURCE_IDS then Err(IdentifierExhausted)
    else Ok(s.(issued := s.issued + [IssuedId(id, kind)]))
  }

  function LoseActiveContext(s: State): State {
    s.(session := if LiveSession(s.session) then Some(s.session.value.(status := ContextLost)) else s.session,
       turn := if ActiveTurn(s.turn) then Some(s.turn.value.(status := Failed)) else s.turn)
  }

  function HandleChildExit(s: State): State {
    LoseActiveContext(s.(appServer := AppCrashed,
                         host := if s.host in {HostStopping, HostStopped} then s.host else HostDegraded))
  }

  function StartSession(s: State, sessionId: string, version: string): Outcome {
    if s.host != HostReady || s.appServer != AppReady then Err(InvalidStateTransition)
    else if s.auth != Authenticated then Err(AuthenticationRequired)
    else if RequireGranted(s, version).Some? then Err(RequireGranted(s, version).value)
    else if s.session.Some? && s.session.value.status != Closed then Err(InvalidStateTransition)
    else if RequireAvailable(s, sessionId).Some? then Err(RequireAvailable(s, sessionId).value)
    else Issue(s.(session := Some(Session(version, sessionId, None, SessionStarting)), turn := None), sessionId,
               SessionId)
  }

  function MarkSessionReady(s: State, sessionId: string, threadId: string, resumed: bool): Outcome {
    if !ValidResourceId(sessionId) || s.session.None? || s.session.value.id != sessionId
       || s.session.value.status != SessionStarting then Err(ResourceNotFound)
    else if s.auth != Authenticated then Err(AuthenticationRequired)
    else if RequireGranted(s, s.session.value.consentVersion).Some?
    then Err(RequireGranted(s, s.session.value.consentVersion).value)
    else
      var refused := if resumed then RequireReattachable(s, threadId, ProviderThread)
        else RequireAvailable(s, threadId);
      if refused.Some? then Err(refused.value)
      else
        var ready := s.(session := Some(s.session.value.(providerThreadId := Some(threadId), status := SessionReady)));
        if IssuedKind(s.issued, threadId).Some? then Ok(ready) else Issue(ready, threadId, ProviderThread)
  }

  function CloseSession(s: State, sessionId: string): Outcome {
    if !ValidResourceId(sessionId) || s.session.None? || s.session.value.id != sessionId
       || s.session.value.status == Closed then Err(ResourceNotFound)
    else if ActiveTurn(s.turn) then Err(InvalidStateTransition)
    else Ok(s.(session := Some(s.session.value.(status := Closed))))
  }

  function StartTurn(s: State, sessionId: string, turnId: string): Outcome {
    if !ValidResourceId(sessionId) || s.session.None? || s.session.value.id != sessionId
       || s.session.value.status != SessionReady then Err(ResourceNotFound)
    else if s.auth != Authenticated then Err(AuthenticationRequired)
    else if RequireGranted(s, s.session.value.consentVersion).Some?
    then Err(RequireGranted(s, s.session.value.consentVersion).value)
    else if ActiveTurn(s.turn) then Err(InvalidStateTransition)
    else if RequireAvailable(s, turnId).Some? then Err(RequireAvailable(s, turnId).value)
    else Issue(s.(turn := Some(Turn(turnId, None, sessionId, Starting))), turnId, TurnId)
  }

  function TurnToUpdate(s: State, turnId: string, expected: set<TurnStatus>): Result<Turn, ErrorCode> {
    if ValidResourceId(turnId) && s.turn.Some? && s.turn.value.id == turnId && s.turn.value.status in expected
    then Ok(s.turn.value)
    else Err(ResourceNotFound)
  }

  function MarkTurnRunning(s: State, turnId: string, providerTurnId: string): Outcome {
    if s.auth != Authenticated then Err(AuthenticationRequired)
    else if s.session.None? then Err(ResourceNotFound)
    else if RequireGranted(s, s.session.value.consentVersion).Some?
    then Err(RequireGranted(s, s.session.value.consentVersion).value)
    else if RequireAvailable(s, providerTurnId).Some? then Err(RequireAvailable(s, providerTurnId).value)
    else
      var turn :- TurnToUpdate(s, turnId, {Starting});
      Issue(s.(turn := Some(turn.(providerTurnId := Some(providerTurnId), status := Running))), providerTurnId,
            ProviderTurn)
  }

  function Reduce(s: State, e: Event): Outcome {
    match e
    case HostChanged(status) =>
      if status !in HostSuccessors(s.host) || (status == HostStopping && LiveSession(s.session))
      then Err(InvalidStateTransition)
      else Ok(s.(host := status))
    case AppServerChanged(status) =>
      if status !in AppServerSuccessors(s.appServer) then Err(InvalidStateTransition)
      else if status == AppCrashed then Ok(HandleChildExit(s))
      else if status == AppStopping && LiveSession(s.session) then Err(InvalidStateTransition)
      else Ok(s.(appServer := status))
    case AuthChanged(status) =>
      if status == s.auth then Err(InvalidStateTransition)
      else if status == LoggedOut then Ok(LoseActiveContext(s.(auth := status)))
      else Ok(s.(auth := status))
    case ConsentLoaded(status, version) =>
      if s.consent.status != Unknown || LiveSession(s.session) then Err(InvalidStateTransition)
      else if !ValidConsentVersion(version) then Err(ConsentVersionMismatch)
      else Ok(s.(consent := Consent(status, Some(version))))
    case ConsentGranted(version) =>
      if s.consent.status !in {Unknown, Revoked} then Err(InvalidStateTransition)
      else if !ValidConsentVersion(version) then Err(ConsentVersionMismatch)
      else Ok(s.(consent := Consent(Granted, Some(version))))
    case ConsentRevokePending(version) =>
      if RequireConsentVersion(s, version).Some? then Err(ConsentVersionMismatch)
      else if s.consent.status != Granted then Err(InvalidStateTransition)
      else Ok(s.(consent := s.consent.(status := RevokePending),
                 turn := if ActiveTurn(s.turn) then Some(s.turn.value.(status := Interrupting)) else s.turn))
    case ConsentRevoked(version) =>
      if RequireConsentVersion(s, version).Some? then Err(ConsentVersionMismatch)
      else if s.consent.status != RevokePending then Err(InvalidStateTransition)
      else Ok(s.(consent := s.consent.(status := Revoked)))
    case SessionStart(version, sessionId) => StartSession(s, sessionId, version)
    case SessionIsReady(threadId, resumed, sessionId) => MarkSessionReady(s, sessionId, threadId, resumed)
    case SessionFail(sessionId) =>
      if s.session.None? || !ValidResourceId(sessionId) || s.session.value.id != sessionId
         || s.session.value.status != SessionStarting then Err(ResourceNotFound)
      else Ok(s.(session := Some(s.session.value.(status := ContextLost))))
    case SessionClose(sessionId) => CloseSession(s, sessionId)
    case TurnStart(sessionId, turnId) => StartTurn(s, sessionId, turnId)
    case TurnRunning(providerTurnId, turnId) => MarkTurnRunning(s, turnId, providerTurnId)
    case TurnInterrupt(turnId) =>
      var turn :- TurnToUpdate(s, turnId, {Starting, Running});
      Ok(s.(turn := Some(turn.(status := Interrupting))))
    case TurnFinish(status, turnId) =>
      var turn :- TurnToUpdate(s, turnId, {Starting, Running, Interrupting});
      Ok(s.(turn := Some(turn.(status := status))))
    case ChildExited => Ok(HandleChildExit(s))
  }

  /** A refused event leaves the host state as it was. */
  function Next(s: State, e: Event): State {
    if Reduce(s, e).Ok? then Reduce(s, e).value else s
  }

  function Run(s: State, events: seq<Event>): State
    decreases |events|
  {
    if events == [] then s else Run(Next(s, events[0]), events[1..])
  }

  predicate AllWellTyped(events: seq<Event>) {
    forall i | 0 <= i < |events| :: events[i].WellTyped()
  }

  // ---------------------------------------------------------------- the inductive invariant

  predicate SessionInv(s: State) {
    && (LiveSession(s.session) ==>
          s.appServer == AppReady && s.host in {HostReady, HostDegraded} && s.auth != LoggedOut)
    && (s.session.Some? ==>
          && ValidResourceId(s.session.value.id)
          && ValidConsentVersion(s.session.value.consentVersion)
          && IssuedId(s.session.value.id, SessionId) in s.issued
          && (s.session.value.status == SessionReady ==> s.session.value.providerThreadId.Some?)
          && (s.session.value.providerThreadId.Some? ==>
                IssuedId(s.session.value.providerThreadId.value, ProviderThread) in s.issued))
  }

  predicate TurnInv(s: State) {
    && (ActiveTurn(s.turn) ==>
          s.session.Some? && s.session.value.status == SessionReady && s.session.value.id == s.turn.value.sessionId)
    && (s.turn.Some? ==>
          && ValidResourceId(s.turn.value.id)
          && IssuedId(s.turn.value.id, TurnId) in s.issued
          && IssuedId(s.turn.value.sessionId, SessionId) in s.issued
          && (s.turn.value.status == Running ==> s.turn.value.providerTurnId.Some?)
          && (s.turn.value.providerTurnId.Some?
              ==> IssuedId(s.turn.value.providerTurnId.value, ProviderTurn) in s.issued))
    && (s.turn.Some? && s.turn.value.status in {Starting, Running} ==>
          s.consent == Consent(Granted, Some(s.session.value.consentVersion)))
  }

  predicate LedgerInv(s: State) {
    && |s.issued| <= MAX_ISSUED_RESOURCE_IDS
    && forall i, j | 0 <= i < j < |s.issued| :: s.issued[i].id != s.issued[j].id
  }

  predicate Inv(s: State) {
    SessionInv(s) && TurnInv(s) && LedgerInv(s)
  }

  lemma IssueKeepsLedger(s: State, id: string, kind: ResourceKind)
    requires LedgerInv(s) && Issue(s, id, kind).Ok? && IssuedKind(s.issued, id).None?
    ensures LedgerInv(Issue(s, id, kind).value)
    ensures IssuedId(id, kind) in Issue(s, id, kind).value.issued
    ensures forall x | x in s.issued :: x in Issue(s, id, kind).value.issued
  {
    var after := Issue(s, id, kind).value.issued;
    assert after[|s.issued|] == IssuedId(id, kind);
    forall x | x in s.issued ensures x in after {
      var i :| 0 <= i < |s.issued| && s.issued[i] == x;
      assert after[i] == x;
    }
  }

  lemma SessionEventKeepsInv(s: State, e: Event)
    requires Inv(s) && (e.SessionStart? || e.SessionIsReady? || e.SessionFail? || e.SessionClose?)
    requires Reduce(s, e).Ok?
    ensures Inv(Reduce(s, e).value)
  {
    match e
    case SessionStart(version, sessionId) => IssueKeepsLedger(s, sessionId, SessionId);
    case SessionIsReady(threadId, resumed, sessionId) =>
      if IssuedKind(s.issued, threadId).None? { IssueKeepsLedger(s, threadId, ProviderThread); }
    case _ =>
  }

  lemma TurnEventKeepsInv(s: State, e: Event)
    requires Inv(s) && e.WellTyped() && (e.TurnStart? || e.TurnRunning? || e.TurnInterrupt? || e.TurnFinish?)
    requires Reduce(s, e).Ok?
    ensures Inv(Reduce(s, e).value)
  {
    match e
    case TurnStart(sessionId, turnId) => IssueKeepsLedger(s, turnId, TurnId);
    case TurnRunning(providerTurnId, turnId) => IssueKeepsLedger(s, providerTurnId, ProviderTurn);
    case _ =>
  }

  lemma LosingKeepsInv(before: State, s: State)
    requires Inv(before)
    requires s == before.(host := s.host, appServer := s.appServer, auth := s.auth)
    ensures Inv(LoseActiveContext(s))
  {
  }

  lemma StatusEventKeepsInv(s: State, e: Event)
    requires Inv(s) && (e.HostChanged? || e.AppServerChanged? || e.AuthChanged? || e.ChildExited?)
    requires Reduce(s, e).Ok?
    ensures Inv(Reduce(s, e).value)
  {
    if e.ChildExited? || e == AppServerChanged(AppCrashed) {
      LosingKeepsInv(s, s.(appServer := AppCrashed,
                           host := if s.host in {HostStopping, HostStopped} then s.host else HostDegraded));
    } else if e == AuthChanged(LoggedOut) {
      LosingKeepsInv(s, s.(auth := LoggedOut));
    } else {
      assert Reduce(s, e).value.issued == s.issued;
    }
  }

  lemma ConsentEventKeepsInv(s: State, e: Event)
    requires Inv(s) && (e.ConsentLoaded? || e.ConsentGranted? || e.ConsentRevokePending? || e.ConsentRevoked?)
    requires Reduce(s, e).Ok?
    ensures Inv(Reduce(s, e).value)
  {
    assert Reduce(s, e).value.issued == s.issued;
  }

  lemma NextKeepsInv(s: State, e: Event)
    requires Inv(s) && e.WellTyped()
    ensures Inv(Next(s, e))
  {
    if Reduce(s, e).Ok? {
      match e
      case SessionStart(_, _) => SessionEventKeepsInv(s, e);
      case SessionIsReady(_, _, _) => SessionEventKeepsInv(s, e);
      case SessionFail(_) => SessionEventKeepsInv(s, e);
      case SessionClose(_) => SessionEventKeepsInv(s, e);
      case TurnStart(_, _) => TurnEventKeepsInv(s, e);
      case TurnRunning(_, _) => TurnEventKeepsInv(s, e);
      case TurnInterrupt(_) => TurnEventKeepsInv(s, e);
      case TurnFinish(_, _) => TurnEventKeepsInv(s, e);
      case HostChanged(_) => StatusEventKeepsInv(s, e);
      case AppServerChanged(_) => StatusEventKeepsInv(s, e);
      case AuthChanged(_) => StatusEventKeepsInv(s, e);
      case ChildExited => StatusEventKeepsInv(s, e);
      case _ => ConsentEventKeepsInv(s, e);
    }
  }

  lemma {:induction false} RunKeepsInv(s: State, events: seq<Event>)
    requires Inv(s) && AllWellTyped(events)
    ensures Inv(Run(s, events))
    decreases |events|
  {
    if events != [] {
      NextKeepsInv(s, events[0]);
      RunKeepsInv(Next(s, events[0]), events[1..]);
    }
  }
}
