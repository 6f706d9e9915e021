/** The agent service as the object it is: methods that update its fields step by step, each proved to do what
    the rules say. */
module AgentService {
  import opened Wrappers
  import opened Identifiers
  import opened SessionManager
  import opened ServiceRules
  import opened ServiceRuns
  import D = DispatcherRules

  class FinanceAgentService {
    var state: State
    /** Whether a child process is held. */
    var process: bool
    /** The authentication controller's own view, while there is a controller. */
    var auth: Option<AuthStatus>
    var dispatcher: Option<D.Dispatcher>
    /** Whether a turn is being projected. */
    var projector: bool
    var conversation: Option<string>
    /** Whether a history is configured. */
    var history: bool
    /** What the history was asked to record. */
    var requests: seq<EndedTurn>

    function Contents(): Service
      reads this
    {
      Service(state, Parts(process, auth, dispatcher, projector, conversation, history), requests)
    }

    constructor ()
      ensures Contents() == INITIAL_SERVICE
    {
      state := INITIAL_STATE;
      process := false;
      auth := None;
      dispatcher := None;
      projector := false;
      conversation := None;
      history := false;
      requests := [];
    }

    method Transition(e: Event) returns (r: Result<(), ServiceError>)
      modifies this`state
      ensures (Contents(), r) == ServiceRules.Transition(old(Contents()), e)
    {
      match Reduce(state, e)
      case Ok(next) => state := next; r := Ok(());
      case Err(code) => r := Err(Refused(code));
    }

    /** An await: other handlers run. */
    method Interleave(activities: seq<Activity>)
      modifies this
      ensures Contents() == ServiceRules.Interleave(old(Contents()), activities)
      ensures state == Run(old(state), Events(activities))
    {
      InterleaveRuns(Contents(), activities);
      var i := 0;
      assert activities[0..] == activities;
      while i < |activities|
        invariant 0 <= i <= |activities|
        invariant ServiceRules.Interleave(Contents(), activities[i..])
                  == ServiceRules.Interleave(old(Contents()), activities)
      {
        assert activities[i..][1..] == activities[i + 1..];
        match activities[i] {
          case Sends(event) => var _ := Transition(event);
          case Sets(parts) =>
            process, auth, dispatcher := parts.process, parts.auth, parts.dispatcher;
            projector, conversation, history := parts.projector, parts.conversation, parts.history;
          case Requests(request) => requests := requests + [request];
        }
        i := i + 1;
      }
    }

    method PersistFailedTurn(turnId: string, status: TurnStatus, errorCode: string)
      modifies this`requests
      ensures Contents() == Request(old(Contents()), turnId, status, errorCode)
    {
      if conversation.None? || !history {
        return;
      }
      requests := requests + [EndedTurn(conversation.value, turnId, status, errorCode)];
    }

    method HandleFatalProcessError()
      modifies this
      ensures Contents() == ServiceRules.HandleFatalProcessError(old(Contents()))
    {
      var activeTurn := state.turn;
      projector := false;
      if dispatcher.Some? {
        dispatcher := Some(D.AbandonSession(dispatcher.value));
      }
      if state.appServer != AppCrashed && state.appServer != AppStopped {
        var _ := Transition(ChildExited);
      }
      if ActiveTurn(activeTurn) {
        PersistFailedTurn(activeTurn.value.id, Failed, "provider_process_failed");
      }
    }

    /** The part of `interruptTurn` that runs before its await; it never fails. */
    method BeginInterrupt()
      requires Inv(state)
      modifies this
      ensures Contents() == MarkInterrupted(old(Contents()))
    {
      var turn, session := state.turn, state.session;
      if turn.None? || session.None? || session.value.providerThreadId.None? || !ActiveTurn(turn) {
        return;
      }
      if turn.value.status != Interrupting {
        var marked := Transition(TurnInterrupt(turn.value.id));
        assert marked.Ok?;
      }
      if dispatcher.Some? {
        dispatcher := Some(D.InterruptTurn(dispatcher.value));
      }
    }

    /** Waiting for it is always an await, even when it asks nothing of the provider. */
    method InterruptTurn(meanwhile: seq<Activity>)
      requires Inv(state)
      modifies this
      ensures Contents() == ServiceRules.Interleave(MarkInterrupted(old(Contents())), meanwhile)
    {
      BeginInterrupt();
      Interleave(meanwhile);
    }

    method CloseSession(sessionId: string, unsubscribes: bool, meanwhile: seq<Activity>)
      returns (r: Result<(), ServiceError>)
      modifies this
      ensures (Contents(), r) == ServiceRules.CloseSession(old(Contents()), sessionId, unsubscribes, meanwhile)
    {
      var session := state.session;
      if session.None? || !ValidResourceId(sessionId) || session.value.id != sessionId
         || session.value.status == Closed {
        return Err(SessionNotFound);
      }
      if ActiveTurn(state.turn) {
        return Err(TurnBusy);
      }
      if session.value.providerThreadId.Some? && process {
        Interleave(meanwhile);
        if !unsubscribes {
          return Err(StepFailed);
        }
      }
      if dispatcher.Some? {
        var closed := D.CloseSession(dispatcher.value);
        if closed.Err? {
          return Err(StepFailed);
        }
        dispatcher := Some(closed.value);
      }
      conversation := None;
      r := Transition(SessionClose(sessionId));
    }

    method SyncAuth(status: AuthStatus) returns (r: Result<(), ServiceError>)
      requires Inv(state)
      modifies this
      ensures (Contents(), r) == ServiceRules.SyncAuth(old(Contents()), status)
    {
      if state.auth == status {
        return Ok(());
      }
      if status == LoggedOut && ActiveTurn(state.turn) {
        var turnId := state.turn.value.id;
        BeginInterrupt();
        projector := false;
        if dispatcher.Some? {
          var finished := D.FinishTurn(dispatcher.value);
          dispatcher := Some(if finished.Ok? then finished.value else D.AbandonSession(dispatcher.value));
        }
        PersistFailedTurn(turnId, Failed, "authentication_lost");
      }
      r := Transition(AuthChanged(status));
    }

    method DropAuth()
      requires Inv(state)
      modifies this
      ensures Contents() == StopAuth(old(Contents()))
    {
      if auth.Some? && auth.value != AuthUnknown {
        var synced := SyncAuth(AuthUnknown);
        assert synced.Ok?;
      }
      auth := None;
    }

    method EndActiveTurn()
      requires Inv(state) && ActiveTurn(state.turn)
      modifies this
      ensures Contents() == DropTurn(old(Contents()))
    {
      var turnId := state.turn.value.id;
      projector := false;
      if dispatcher.Some? {
        var finished := D.FinishTurn(dispatcher.value);
        if finished.Ok? {
          dispatcher := Some(finished.value);
        }
      }
      var ended := Transition(TurnFinish(Interrupted, turnId));
      assert ended.Ok?;
      PersistFailedTurn(turnId, Interrupted, "consent_revoked");
    }

    /** Interrupts the turn, waits, and ends it if it is still active. */
    method EndTurn(world: World)
      requires Inv(state) && world.WellTyped()
      modifies this
      ensures Contents() == ServiceRules.EndTurn(old(Contents()), world)
    {
      EndTurnKeepsInv(Contents(), world);
      InterruptTurn(world.duringInterrupt);
      if ActiveTurn(state.turn) {
        EndActiveTurn();
        Interleave(world.duringPersist);
      }
    }

    /** Closes the session, or loses it when closing fails. */
    method EndSession(world: World)
      modifies this
      ensures Contents() == ServiceRules.EndSession(old(Contents()), world)
    {
      var session := state.session;
      if session.Some? && session.value.status != Closed {
        var closed := CloseSession(session.value.id, world.unsubscribes, world.duringUnsubscribe);
        Interleave(world.afterClose);
        if closed.Err? && !(state.session.Some? && state.session.value.status == ContextLost) {
          HandleFatalProcessError();
        }
      }
    }

    /** Stops the child process; the App Server is marked stopped only if it was being stopped. */
    method StopProcess(world: World) returns (r: Result<(), ServiceError>)
      modifies this
      ensures (Contents(), r) == ServiceRules.StopProcess(old(Contents()), world)
    {
      r := Ok(());
      if process {
        if state.appServer == AppReady {
          r := Transition(AppServerChanged(AppStopping));
          if r.Err? {
            return;
          }
        }
        Interleave(world.duringStop);
        if !world.processStops {
          return Err(StepFailed);
        }
        process := false;
        if state.appServer == AppStopping {
          r := Transition(AppServerChanged(AppStopped));
        }
      }
    }

    method RevokeConsent(world: World) returns (r: Result<(), ServiceError>)
      requires Inv(state) && world.WellTyped()
      modifies this
      ensures (Contents(), r) == Revoke(old(Contents()), world)
      ensures Inv(state)
    {
      RevokeKeepsInv(Contents(), world);
      if !world.journalBegins {
        return Err(StepFailed);
      }
      r := Ok(());
      if state.consent.status != RevokePending {
        r := Transition(ConsentRevokePending(FINANCE_CONSENT_VERSION));
      }
      if r.Err? {
        return;
      }
      EndTurn(world);
      EndSession(world);
      DropAuth();
      r := StopProcess(world);
      if r.Err? {
        return;
      }
      if !world.journalCompletes {
        return Err(StepFailed);
      }
      r := Transition(ConsentRevoked(FINANCE_CONSENT_VERSION));
    }
  }
}
