/** The compound procedures of the agent service as functions on its fields. Every `await` is a point where other
    handlers run: they send events to the reducer, accepted or not, and change any other field as they please. */
module ServiceRules {
  import opened Wrappers
  import opened Identifiers
  import opened SessionManager
  import D = DispatcherRules

  const FINANCE_CONSENT_VERSION := "2026-08-31.v2"

  datatype ServiceError = Refused(code: ErrorCode) | SessionNotFound | TurnBusy | StepFailed

  /** What the service holds beside the reducer's state: whether it has a child process, the authentication
      controller's own view while there is a controller, the dispatcher, and whether it has a projector and a
      history. */
  datatype Parts = Parts(
    process: bool,
    auth: Option<AuthStatus>,
    dispatcher: Option<D.Dispatcher>,
    projector: bool,
    conversation: Option<string>,
    history: bool)

  /** A request to the history to record how a turn ended; its failure is swallowed. */
  datatype EndedTurn = EndedTurn(conversationId: string, turnId: string, status: TurnStatus, errorCode: string)

  datatype Service = Service(state: State, parts: Parts, requests: seq<EndedTurn>)

  const INITIAL_SERVICE := Service(INITIAL_STATE, Parts(false, None, None, false, None, false), [])

  // ---------------------------------------------------------------- awaits

  /** One step of another handler. */
  datatype Activity = Sends(event: Event) | Sets(parts: Parts) | Requests(request: EndedTurn)

  predicate AllSendsTyped(activities: seq<Activity>) {
    forall i | 0 <= i < |activities| :: activities[i].Sends? ==> activities[i].event.WellTyped()
  }

  function Perform(s: Service, a: Activity): Service {
    match a
    case Sends(event) => s.(state := Next(s.state, event))
    case Sets(parts) => s.(parts := parts)
    case Requests(request) => s.(requests := s.requests + [request])
  }

  function Interleave(s: Service, activities: seq<Activity>): Service
    decreases |activities|
  {
    if activities == [] then s else Interleave(Perform(s, activities[0]), activities[1..])
  }

  /** The events among the activities. */
  function Events(activities: seq<Activity>): seq<Event> {
    if activities == [] then []
    else (if activities[0].Sends? then [activities[0].event] else []) + Events(activities[1..])
  }

  /** What the world does during one revocation: which fallible steps succeed, and what runs at each await. */
  datatype World = World(
    journalBegins: bool,
    duringInterrupt: seq<Activity>,
    duringPersist: seq<Activity>,
    unsubscribes: bool,
    duringUnsubscribe: seq<Activity>,
    afterClose: seq<Activity>,
    processStops: bool,
    duringStop: seq<Activity>,
    journalCompletes: bool)
  {
    predicate WellTyped() {
      && AllSendsTyped(duringInterrupt) && AllSendsTyped(duringPersist)
      && AllSendsTyped(duringUnsubscribe) && AllSendsTyped(afterClose)
      && AllSendsTyped(duringStop)
    }
  }

  // ---------------------------------------------------------------- steps without an await

  function Transition(s: Service, e: Event): (Service, Result<(), ServiceError>) {
    match Reduce(s.state, e)
    case Ok(state) => (s.(state := state), Ok(()))
    case Err(code) => (s, Err(Refused(code)))
  }

  function Request(s: Service, turnId: string, status: TurnStatus, errorCode: string): Service {
    if s.parts.conversation.None? || !s.parts.history then s
    else s.(requests := s.requests + [EndedTurn(s.parts.conversation.value, turnId, status, errorCode)])
  }

  /** The dispatcher's turn is over, unless a call is still in flight. */
  function Finished(dispatcher: Option<D.Dispatcher>): Option<D.Dispatcher> {
    if dispatcher.Some? && D.FinishTurn(dispatcher.value).Ok? then Some(D.FinishTurn(dispatcher.value).value)
    else dispatcher
  }

  function Abandoned(dispatcher: Option<D.Dispatcher>): Option<D.Dispatcher> {
    if dispatcher.Some? then Some(D.AbandonSession(dispatcher.value)) else None
  }

  predicate Interruptible(s: State) {
    ActiveTurn(s.turn) && s.session.Some? && s.session.value.providerThreadId.Some?
  }

  /** `interruptTurn` up to its await. */
  function MarkInterrupted(s: Service): Service {
    if !Interruptible(s.state) then s
    else
      var turn := s.state.turn.value;
      var state := if turn.status == Interrupting then s.state else Next(s.state, TurnInterrupt(turn.id));
      var dispatcher := s.parts.dispatcher;
      s.(state := state,
         parts := s.parts.(dispatcher := if dispatcher.Some? then Some(D.InterruptTurn(dispatcher.value)) else None))
  }

  function HandleFatalProcessError(s: Service): Service {
    var dropped := s.(
      state := if s.state.appServer in {AppCrashed, AppStopped} then s.state else Next(s.state, ChildExited),
      parts := s.parts.(projector := false, dispatcher := Abandoned(s.parts.dispatcher)));
    if ActiveTurn(s.state.turn) then Request(dropped, s.state.turn.value.id, Failed, "provider_process_failed")
    else dropped
  }

  /** The login is lost while a turn is active. */
  function LoseTurn(s: Service): Service
    requires ActiveTurn(s.state.turn)
  {
    var marked := MarkInterrupted(s);
    var dispatcher := marked.parts.dispatcher;
    var dropped := marked.(parts := marked.parts.(
      projector := false,
      dispatcher := if dispatcher.Some? && D.FinishTurn(dispatcher.value).Err? then Abandoned(dispatcher)
                    else Finished(dispatcher)));
    Request(dropped, s.state.turn.value.id, Failed, "authentication_lost")
  }

  function SyncAuth(s: Service, status: AuthStatus): (Service, Result<(), ServiceError>) {
    if s.state.auth == status then (s, Ok(()))
    else
      var dropped := if status == LoggedOut && ActiveTurn(s.state.turn) then LoseTurn(s) else s;
      Transition(dropped, AuthChanged(status))
  }

  /** Dropping the controller resets its view to unknown, which the service follows. */
  function StopAuth(s: Service): Service {
    var synced := if s.parts.auth in {None, Some(AuthUnknown)} then s else SyncAuth(s, AuthUnknown).0;
    synced.(parts := synced.parts.(auth := None))
  }

  // ---------------------------------------------------------------- closing a session

  predicate Open(state: State, sessionId: string) {
    && ValidResourceId(sessionId) && state.session.Some? && state.session.value.id == sessionId
    && state.session.value.status != Closed
  }

  function CloseSession(s: Service, sessionId: string, unsubscribes: bool, meanwhile: seq<Activity>)
    : (Service, Result<(), ServiceError>)
  {
    if !Open(s.state, sessionId) then (s, Err(SessionNotFound))
    else if ActiveTurn(s.state.turn) then (s, Err(TurnBusy))
    else
      var asks := s.state.session.value.providerThreadId.Some? && s.parts.process;
      var asked := if asks then Interleave(s, meanwhile) else s;
      var dispatcher := asked.parts.dispatcher;
      if asks && !unsubscribes then (asked, Err(StepFailed))
      else if dispatcher.None? then
        Transition(asked.(parts := asked.parts.(conversation := None)), SessionClose(sessionId))
      else
        match D.CloseSession(dispatcher.value)
        case Err(_) => (asked, Err(StepFailed))
        case Ok(closed) =>
          Transition(asked.(parts := asked.parts.(dispatcher := Some(closed), conversation := None)),
                     SessionClose(sessionId))
  }

  // ---------------------------------------------------------------- withdrawing consent

  function RaiseBarrier(s: Service): (Service, Result<(), ServiceError>) {
    if s.state.consent.status == RevokePending then (s, Ok(()))
    else Transition(s, ConsentRevokePending(FINANCE_CONSENT_VERSION))
  }

  /** The turn that is still active ends as interrupted. */
  function DropTurn(s: Service): Service
    requires ActiveTurn(s.state.turn)
  {
    var id := s.state.turn.value.id;
    var dropped := s.(state := Next(s.state, TurnFinish(Interrupted, id)),
                      parts := s.parts.(projector := false, dispatcher := Finished(s.parts.dispatcher)));
    Request(dropped, id, Interrupted, "consent_revoked")
  }

  function EndTurn(s: Service, world: World): Service {
    var interrupted := Interleave(MarkInterrupted(s), world.duringInterrupt);
    if ActiveTurn(interrupted.state.turn) then Interleave(DropTurn(interrupted), world.duringPersist) else interrupted
  }

  predicate HasOpenSession(state: State) {
    state.session.Some? && state.session.value.status != Closed
  }

  /** How closing the open session comes out, up to the moment `closeSession` settles. */
  function Closing(s: Service, world: World): (Service, Result<(), ServiceError>)
    requires HasOpenSession(s.state)
  {
    CloseSession(s, s.state.session.value.id, world.unsubscribes, world.duringUnsubscribe)
  }

  function EndSession(s: Service, world: World): Service {
    if !HasOpenSession(s.state) then s
    else
      var (closed, result) := Closing(s, world);
      var settled := Interleave(closed, world.afterClose);
      if result.Ok? || (settled.state.session.Some? && settled.state.session.value.status == ContextLost) then settled
      else HandleFatalProcessError(settled)
  }

  /** Asks the App Server to stop; with a live session that is refused. */
  function MarkStopping(s: Service): (Service, Result<(), ServiceError>) {
    if s.state.appServer == AppReady then Transition(s, AppServerChanged(AppStopping)) else (s, Ok(()))
  }

  function StopProcess(s: Service, world: World): (Service, Result<(), ServiceError>) {
    if !s.parts.process then (s, Ok(()))
    else
      var (stopping, result) := MarkStopping(s);
      var stopped := Interleave(stopping, world.duringStop);
      var dropped := stopped.(parts := stopped.parts.(process := false));
      if result.Err? then (stopping, result)
      else if !world.processStops then (stopped, Err(StepFailed))
      else if dropped.state.appServer == AppStopping then Transition(dropped, AppServerChanged(AppStopped))
      else (dropped, Ok(()))
  }

  /** Consent is being withdrawn, and turn, session and controller are gone: what is left is the process. */
  function Disconnected(s: Service, world: World): Service {
    StopAuth(EndSession(EndTurn(RaiseBarrier(s).0, world), world))
  }

  function Revoke(s: Service, world: World): (Service, Result<(), ServiceError>) {
    if !world.journalBegins then (s, Err(StepFailed))
    else if RaiseBarrier(s).1.Err? then RaiseBarrier(s)
    else
      var (stopped, result) := StopProcess(Disconnected(s, world), world);
      if result.Err? then (stopped, result)
      else if !world.journalCompletes then (stopped, Err(StepFailed))
      else Transition(stopped, ConsentRevoked(FINANCE_CONSENT_VERSION))
  }
}
