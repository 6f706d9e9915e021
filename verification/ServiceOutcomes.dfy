/** How a turn ends when the service ends it: what becomes of it, of the projector and of the dispatcher, and what the
    history is asked to record. */
module ServiceOutcomes {
  import opened Wrappers
  import opened SessionManager
  import opened SessionRuns
  import opened ServiceRules
  import opened ServiceRuns
  import D = DispatcherRules

  /** The events that start, move, end or drop a turn. */
  predicate OnTurn(e: Event) {
    || e.TurnStart? || e.TurnRunning? || e.TurnInterrupt? || e.TurnFinish? || e.SessionStart?
    || e.ChildExited? || e == AppServerChanged(AppCrashed) || e == AuthChanged(LoggedOut)
  }

  /** Other handlers leave the turn and the requests to the history alone. */
  predicate OffTurn(activities: seq<Activity>) {
    forall i | 0 <= i < |activities| ::
      !activities[i].Requests? && (activities[i].Sends? ==> !OnTurn(activities[i].event))
  }

  predicate OnlySends(activities: seq<Activity>) {
    forall i | 0 <= i < |activities| :: activities[i].Sends?
  }

  /** At no await anything happens to the turn; while the interruption is waited for, the other fields stay as well. */
  predicate TurnIsLeftAlone(world: World) {
    && OffTurn(world.duringInterrupt) && OnlySends(world.duringInterrupt)
    && OffTurn(world.duringPersist) && OffTurn(world.duringUnsubscribe) && OffTurn(world.afterClose)
    && OffTurn(world.duringStop)
  }

  /** What the history is asked to record of the turn that is active: nothing without a conversation or a history. */
  function Record(s: Service, status: TurnStatus, errorCode: string): seq<EndedTurn> {
    if ActiveTurn(s.state.turn) && s.parts.conversation.Some? && s.parts.history
    then [EndedTurn(s.parts.conversation.value, s.state.turn.value.id, status, errorCode)]
    else []
  }

  /** The turn there was, ended with this status if it was active. */
  function EndedAs(turn: Option<Turn>, status: TurnStatus): Option<Turn> {
    if ActiveTurn(turn) then Some(turn.value.(status := status)) else turn
  }

  // ---------------------------------------------------------------- fatal errors and lost logins

  /** A fatal process error fails the active turn, asks to record just that, and drops the projector and everything the
      dispatcher has open. */
  lemma FatalErrorFailsTurn(s: Service)
    requires Inv(s.state)
    ensures var after := HandleFatalProcessError(s);
            && after.state.turn == EndedAs(s.state.turn, Failed)
            && after.requests == s.requests + Record(s, Failed, "provider_process_failed")
            && !after.parts.projector
            && (after.parts.dispatcher.Some? <==> s.parts.dispatcher.Some?)
            && (after.parts.dispatcher.Some? ==>
                  after.parts.dispatcher.value.session.None? && after.parts.dispatcher.value.turn.None?)
  {
    assert s.requests + [] == s.requests;
  }

  /** A login lost under an active turn fails the turn, asks to record just that, drops the projector, and leaves the
      dispatcher without a turn; its session goes too exactly when a call was in flight. */
  lemma LostLoginFailsTurn(s: Service)
    requires Inv(s.state) && s.state.auth != LoggedOut
    ensures var after := SyncAuth(s, LoggedOut).0;
            && after.state.turn == EndedAs(s.state.turn, Failed) && after.state.auth == LoggedOut
            && after.requests == s.requests + Record(s, Failed, "authentication_lost")
            && (ActiveTurn(s.state.turn) ==>
                  && !after.parts.projector
                  && (s.parts.dispatcher.Some?
                      ==> DispatcherAfterLoss(s.parts.dispatcher.value, after.parts.dispatcher)))
            && (!ActiveTurn(s.state.turn) ==> after.parts == s.parts)
  {
    InterruptIsAccepted(s);
    assert s.requests + [] == s.requests;
  }

  predicate DispatcherAfterLoss(before: D.Dispatcher, after: Option<D.Dispatcher>) {
    && after.Some? && after.value.turn.None?
    && after.value.session == if before.turn.Some? && !before.activeCall then before.session else None
  }

  // ---------------------------------------------------------------- the turn of a revocation

  lemma OffTurnNext(s: State, e: Event)
    requires !OnTurn(e) && !Transmitting(s.turn)
    ensures Next(s, e).turn == s.turn
  {
  }

  lemma {:induction false} OffTurnAwait(s: Service, activities: seq<Activity>)
    requires OffTurn(activities) && !Transmitting(s.state.turn)
    ensures Interleave(s, activities).state.turn == s.state.turn
    ensures Interleave(s, activities).requests == s.requests
    ensures OnlySends(activities) ==> Interleave(s, activities).parts == s.parts
    decreases |activities|
  {
    if activities != [] {
      if activities[0].Sends? {
        OffTurnNext(s.state, activities[0].event);
      }
      forall i | 0 <= i < |activities[1..]| ensures activities[1..][i] == activities[i + 1] {
      }
      OffTurnAwait(Perform(s, activities[0]), activities[1..]);
    }
  }

  /** What ending the active turn of a revocation does at once. */
  lemma DropTurnIsExact(s: Service)
    requires Inv(s.state) && ActiveTurn(s.state.turn)
    ensures var after := DropTurn(s);
            && after.state == s.state.(turn := EndedAs(s.state.turn, Interrupted))
            && after.requests == s.requests + Record(s, Interrupted, "consent_revoked")
            && !after.parts.projector
            && (s.parts.dispatcher.Some? ==>
                  && after.parts.dispatcher.Some?
                  && (after.parts.dispatcher.value.turn.None? || s.parts.dispatcher.value.activeCall)
                  && after.parts.dispatcher.value.session == s.parts.dispatcher.value.session)
  {
    assert s.requests + [] == s.requests;
  }

  /** Marking the interruption changes the status of the turn and tells the dispatcher, and no more. */
  lemma MarkIsExact(s: Service)
    requires Inv(s.state)
    ensures var after := MarkInterrupted(s);
            && !Transmitting(after.state.turn)
               && EndedAs(after.state.turn, Interrupted) == EndedAs(s.state.turn, Interrupted)
            && (ActiveTurn(after.state.turn) <==> ActiveTurn(s.state.turn))
            && after.requests == s.requests
            && after.parts.conversation == s.parts.conversation && after.parts.history == s.parts.history
            && after.parts.projector == s.parts.projector
            && (after.parts.dispatcher.Some? <==> s.parts.dispatcher.Some?)
            && (Interruptible(s.state) && s.parts.dispatcher.Some? && s.parts.dispatcher.value.turn.Some? ==>
                  after.parts.dispatcher.value.turn == Some(s.parts.dispatcher.value.turn.value.(aborted := true)))
  {
    InterruptIsAccepted(s);
  }

  lemma EndTurnIsExact(s: Service, world: World)
    requires Inv(s.state) && world.WellTyped() && TurnIsLeftAlone(world)
    ensures var after := EndTurn(s, world);
            && after.state.turn == EndedAs(s.state.turn, Interrupted) && !ActiveTurn(after.state.turn)
            && after.requests == s.requests + Record(s, Interrupted, "consent_revoked")
  {
    var marked := MarkInterrupted(s);
    var interrupted := Interleave(marked, world.duringInterrupt);
    MarkIsExact(s);
    OffTurnAwait(marked, world.duringInterrupt);
    EndTurnKeepsInv(s, world);
    if ActiveTurn(interrupted.state.turn) {
      DropTurnIsExact(interrupted);
      DropTurnEndsIt(interrupted);
      OffTurnAwait(DropTurn(interrupted), world.duringPersist);
    } else {
      assert s.requests + [] == s.requests;
    }
  }

  lemma ClosingLeavesTurn(s: Service, world: World)
    requires Inv(s.state) && world.WellTyped() && TurnIsLeftAlone(world) && HasOpenSession(s.state)
    requires !ActiveTurn(s.state.turn)
    ensures Closing(s, world).0.state.turn == s.state.turn && Closing(s, world).0.requests == s.requests
  {
    OffTurnAwait(s, world.duringUnsubscribe);
  }

  lemma EndSessionLeavesTurn(s: Service, world: World)
    requires Inv(s.state) && world.WellTyped() && TurnIsLeftAlone(world) && !ActiveTurn(s.state.turn)
    ensures EndSession(s, world).state.turn == s.state.turn && EndSession(s, world).requests == s.requests
  {
    if HasOpenSession(s.state) {
      var closed := Closing(s, world).0;
      ClosingLeavesTurn(s, world);
      CloseSessionKeepsInv(s, s.state.session.value.id, world.unsubscribes, world.duringUnsubscribe);
      OffTurnAwait(closed, world.afterClose);
      InterleaveKeepsInv(closed, world.afterClose);
      FatalErrorFailsTurn(Interleave(closed, world.afterClose));
    }
  }

  lemma StopProcessLeavesTurn(s: Service, world: World)
    requires Inv(s.state) && TurnIsLeftAlone(world) && !ActiveTurn(s.state.turn)
    ensures StopProcess(s, world).0.state.turn == s.state.turn && StopProcess(s, world).0.requests == s.requests
  {
    if s.parts.process {
      OffTurnAwait(MarkStopping(s).0, world.duringStop);
    }
  }

  lemma StopAuthLeavesTurn(s: Service)
    requires Inv(s.state)
    ensures StopAuth(s).state.turn == s.state.turn && StopAuth(s).requests == s.requests
  {
    SyncAuthIsExact(s, AuthUnknown);
  }

  lemma BarrierLeavesRecord(s: Service)
    requires Inv(s.state)
    ensures var raised := RaiseBarrier(s).0;
            && EndedAs(raised.state.turn, Interrupted) == EndedAs(s.state.turn, Interrupted)
            && raised.requests == s.requests && raised.parts == s.parts
            && Record(raised, Interrupted, "consent_revoked") == Record(s, Interrupted, "consent_revoked")
  {
  }

  /** A revocation whose barrier is up, and at whose awaits nothing happens to the turn, ends the turn that was active
      as interrupted and asks to record exactly that; without an active turn it leaves the turn and asks for nothing.
      This holds whether it returns or throws, and whichever of its steps fail. */
  lemma RevocationEndsTurn(s: Service, world: World)
    requires Inv(s.state) && world.WellTyped() && TurnIsLeftAlone(world)
    requires world.journalBegins && RaiseBarrier(s).1.Ok?
    ensures var after := Revoke(s, world).0;
            && after.state.turn == EndedAs(s.state.turn, Interrupted)
            && after.requests == s.requests + Record(s, Interrupted, "consent_revoked")
  {
    var raised := RaiseBarrier(s).0;
    var ended := EndTurn(raised, world);
    DisconnectedKeepsInv(s, world);
    BarrierLeavesRecord(s);
    EndTurnIsExact(raised, world);
    EndSessionLeavesTurn(ended, world);
    StopAuthLeavesTurn(EndSession(ended, world));
    StopProcessLeavesTurn(Disconnected(s, world), world);
  }

  /** When a revocation ends the turn, the projector is dropped, and the dispatcher has no turn left unless a call is in
      flight, which it then has marked as interrupted. */
  lemma RevocationStopsStreaming(s: Service, world: World)
    requires Inv(s.state) && world.WellTyped() && TurnIsLeftAlone(world) && ActiveTurn(s.state.turn)
    ensures var interrupted := Interleave(MarkInterrupted(s), world.duringInterrupt);
            && ActiveTurn(interrupted.state.turn)
            && var after := DropTurn(interrupted).parts;
               && !after.projector
               && (s.parts.dispatcher.Some? ==>
                     && after.dispatcher.Some?
                     && (after.dispatcher.value.turn.Some? ==>
                           after.dispatcher.value.activeCall && after.dispatcher.value.turn.value.aborted))
  {
    MarkIsExact(s);
    OffTurnAwait(MarkInterrupted(s), world.duringInterrupt);
    EndTurnKeepsInv(s, world);
    DropTurnIsExact(Interleave(MarkInterrupted(s), world.duringInterrupt));
  }

  // ---------------------------------------------------------------- closing

  /** The dispatcher lets its session go: it has one, without a turn and without a call in flight. */
  predicate DispatcherCloses(dispatcher: Option<D.Dispatcher>) {
    dispatcher.Some? ==>
      dispatcher.value.session.Some? && dispatcher.value.turn.None? && !dispatcher.value.activeCall
  }

  /** A session is closed normally exactly when it is the open one without an active turn, the provider unsubscribes if
      it is asked, the dispatcher lets go, and meanwhile nobody else closed it or started a turn. */
  lemma CloseIsExact(s: Service, sessionId: string, unsubscribes: bool, meanwhile: seq<Activity>)
    requires Inv(s.state)
    ensures var (after, r) := ServiceRules.CloseSession(s, sessionId, unsubscribes, meanwhile);
            r.Ok? <==>
              && Open(s.state, sessionId) && !ActiveTurn(s.state.turn)
              && var asks := s.state.session.value.providerThreadId.Some? && s.parts.process;
                 var later := if asks then Interleave(s, meanwhile) else s;
                 && (asks ==> unsubscribes) && DispatcherCloses(later.parts.dispatcher)
                 && Open(later.state, sessionId) && !ActiveTurn(later.state.turn)
  {
  }

  /** A session that is not the open one, or has an active turn, is not closed and nothing happens; when the provider
      does not unsubscribe or the dispatcher does not let go, what happened meanwhile stays and nothing else does. */
  lemma CloseRefusals(s: Service, sessionId: string, unsubscribes: bool, meanwhile: seq<Activity>)
    ensures var close := ServiceRules.CloseSession(s, sessionId, unsubscribes, meanwhile);
            && (!Open(s.state, sessionId) ==> close == (s, Err(SessionNotFound)))
            && (Open(s.state, sessionId) && ActiveTurn(s.state.turn) ==> close == (s, Err(TurnBusy)))
            && (Open(s.state, sessionId) && !ActiveTurn(s.state.turn) ==>
                  var asks := s.state.session.value.providerThreadId.Some? && s.parts.process;
                  var later := if asks then Interleave(s, meanwhile) else s;
                  (asks && !unsubscribes) || !DispatcherCloses(later.parts.dispatcher) ==>
                    close == (later, Err(StepFailed)))
  {
  }

  /** A revocation that cannot be written down, or finds consent neither standing under the current version nor being
      withdrawn, changes nothing; one whose end cannot be written down leaves consent as it then is. */
  lemma RevocationRefusals(s: Service, world: World)
    ensures var (revoked, consent) := (Revoke(s, world), s.state.consent);
            var raises := consent.status == RevokePending || consent == Consent(Granted, Some("2026-08-31.v2"));
            && (!world.journalBegins ==> revoked == (s, Err(StepFailed)))
            && (world.journalBegins && !raises ==>
                  revoked == (s, Err(Refused(if consent.version == Some("2026-08-31.v2") then InvalidStateTransition
                                             else ConsentVersionMismatch))))
            && (world.journalBegins && raises && !world.journalCompletes ==>
                  var stopped := StopProcess(Disconnected(s, world), world);
                  revoked == (stopped.0, Err(if stopped.1.Err? then stopped.1.error else StepFailed)))
  {
  }

  // ---------------------------------------------------------------- stopping

  /** Nothing else happens to the App Server or to the process meanwhile. */
  predicate OffServer(activities: seq<Activity>) {
    forall i | 0 <= i < |activities| ::
      activities[i].Sends? ==> !activities[i].event.AppServerChanged? && !activities[i].event.ChildExited?
  }

  lemma {:induction false} OffServerAwait(s: Service, activities: seq<Activity>)
    requires OffServer(activities)
    ensures Interleave(s, activities).state.appServer == s.state.appServer
    decreases |activities|
  {
    if activities != [] {
      forall i | 0 <= i < |activities[1..]| ensures activities[1..][i] == activities[i + 1] {
      }
      OffServerAwait(Perform(s, activities[0]), activities[1..]);
    }
  }

  /** A process that is held and stops is dropped, and a ready App Server is marked stopped after it; a crashed one
      stays crashed. Without a process nothing happens. */
  lemma StopIsExact(s: Service, world: World)
    requires Inv(s.state) && !LiveSession(s.state.session) && OffServer(world.duringStop)
    ensures var (after, r) := StopProcess(s, world);
            && (r.Ok? <==> (s.parts.process ==> world.processStops))
            && (!s.parts.process ==> after == s)
            && (s.parts.process && r.Ok? ==>
                  && !after.parts.process
                  && after.state.appServer == if s.state.appServer in {AppReady, AppStopping} then AppStopped
                                              else s.state.appServer)
            && (r.Err? ==> after.parts == Interleave(MarkStopping(s).0, world.duringStop).parts)
  {
    if s.parts.process {
      OffServerAwait(MarkStopping(s).0, world.duringStop);
    }
  }
}
