/** What withdrawing consent achieves, whatever the other handlers do while it waits. */
module ServiceRuns {
  import opened Wrappers
  import opened Identifiers
  import opened Sequences
  import opened SessionManager
  import opened SessionRuns
  import opened ServiceRules
  import D = DispatcherRules

  predicate Quiet(s: State) {
    !LiveSession(s.session) && !ActiveTurn(s.turn)
  }

  predicate Pending(s: State) {
    s.consent.status == RevokePending
  }

  // ---------------------------------------------------------------- awaits are runs of the reducer

  lemma {:induction false} InterleaveRuns(s: Service, activities: seq<Activity>)
    ensures Interleave(s, activities).state == Run(s.state, Events(activities))
    decreases |activities|
  {
    if activities != [] {
      InterleaveRuns(Perform(s, activities[0]), activities[1..]);
      if activities[0].Sends? {
        assert Events(activities)[1..] == Events(activities[1..]);
      } else {
        assert Events(activities) == Events(activities[1..]);
      }
    }
  }

  lemma {:induction false} EventsAreTyped(activities: seq<Activity>)
    requires AllSendsTyped(activities)
    ensures AllWellTyped(Events(activities))
  {
    if activities != [] {
      EventsAreTyped(activities[1..]);
    }
  }

  lemma InterleaveKeepsInv(s: Service, activities: seq<Activity>)
    requires Inv(s.state) && AllSendsTyped(activities)
    ensures Inv(Interleave(s, activities).state)
  {
    InterleaveRuns(s, activities);
    EventsAreTyped(activities);
    RunKeepsInv(s.state, Events(activities));
  }

  // ---------------------------------------------------------------- every step keeps the invariant

  lemma InterruptIsAccepted(s: Service)
    requires Inv(s.state)
    ensures Inv(MarkInterrupted(s).state) && !Transmitting(MarkInterrupted(s).state.turn)
    ensures MarkInterrupted(s).state.consent == s.state.consent
    ensures MarkInterrupted(s).state.session == s.state.session
    ensures ActiveTurn(MarkInterrupted(s).state.turn) <==> ActiveTurn(s.state.turn)
  {
    if Interruptible(s.state) && s.state.turn.value.status != Interrupting {
      NextKeepsInv(s.state, TurnInterrupt(s.state.turn.value.id));
    }
  }

  lemma DropTurnEndsIt(s: Service)
    requires Inv(s.state) && ActiveTurn(s.state.turn)
    ensures Inv(DropTurn(s).state) && !ActiveTurn(DropTurn(s).state.turn)
    ensures DropTurn(s).state.consent == s.state.consent && DropTurn(s).state.session == s.state.session
  {
    NextKeepsInv(s.state, TurnFinish(Interrupted, s.state.turn.value.id));
  }

  /** A fatal process error ends whatever was going on: no live session, no active turn, nothing left in the
      dispatcher. */
  lemma FatalErrorEndsAll(s: Service)
    requires Inv(s.state)
    ensures var after := HandleFatalProcessError(s);
            && Inv(after.state) && Quiet(after.state)
            && after.state.consent == s.state.consent && after.state.issued == s.state.issued
            && (after.parts.dispatcher.Some? ==> after.parts.dispatcher.value.session.None?)
  {
    NextKeepsInv(s.state, ChildExited);
  }

  /** Losing the login ends the session and the turn; any other change of the login leaves both alone. The
      dispatcher is left with no turn, and the projector is dropped. */
  lemma SyncAuthIsExact(s: Service, status: AuthStatus)
    requires Inv(s.state)
    ensures var (after, r) := SyncAuth(s, status);
            && r.Ok? && Inv(after.state) && after.state.auth == status && after.state.consent == s.state.consent
            && (status == LoggedOut ==> Quiet(after.state))
            && (status != LoggedOut ==> after == s.(state := s.state.(auth := status)))
            && (status == LoggedOut && ActiveTurn(s.state.turn) ==>
                  && !after.parts.projector
                  && (after.parts.dispatcher.Some? ==> after.parts.dispatcher.value.turn.None?))
  {
    if s.state.auth != status {
      if status == LoggedOut && ActiveTurn(s.state.turn) {
        InterruptIsAccepted(s);
        NextKeepsInv(LoseTurn(s).state, AuthChanged(status));
      } else {
        NextKeepsInv(s.state, AuthChanged(status));
      }
    }
  }

  lemma StopAuthKeepsInv(s: Service)
    requires Inv(s.state)
    ensures Inv(StopAuth(s).state) && StopAuth(s).parts == s.parts.(auth := None)
    ensures StopAuth(s).state == s.state.(auth := StopAuth(s).state.auth)
  {
    SyncAuthIsExact(s, AuthUnknown);
  }

  lemma CloseSessionKeepsInv(s: Service, sessionId: string, unsubscribes: bool, meanwhile: seq<Activity>)
    requires Inv(s.state) && AllSendsTyped(meanwhile)
    ensures Inv(ServiceRules.CloseSession(s, sessionId, unsubscribes, meanwhile).0.state)
  {
    InterleaveKeepsInv(s, meanwhile);
    NextKeepsInv(s.state, SessionClose(sessionId));
    NextKeepsInv(Interleave(s, meanwhile).state, SessionClose(sessionId));
  }

  /** A session that closes normally is the named one, it is closed, and neither a turn nor the dispatcher's session
      is left behind. */
  lemma ClosedMeansClosed(s: Service, sessionId: string, unsubscribes: bool, meanwhile: seq<Activity>)
    requires Inv(s.state) && AllSendsTyped(meanwhile)
    requires ServiceRules.CloseSession(s, sessionId, unsubscribes, meanwhile).1.Ok?
    ensures var after := ServiceRules.CloseSession(s, sessionId, unsubscribes, meanwhile).0;
            && Quiet(after.state) && after.state.session.Some?
            && after.state.session.value.id == sessionId && after.state.session.value.status == Closed
            && after.parts.conversation.None?
            && (after.parts.dispatcher.Some? ==> after.parts.dispatcher.value.session.None?)
  {
    InterleaveKeepsInv(s, meanwhile);
  }

  lemma EndTurnKeepsInv(s: Service, world: World)
    requires Inv(s.state) && world.WellTyped()
    ensures var interrupted := Interleave(MarkInterrupted(s), world.duringInterrupt);
            && Inv(MarkInterrupted(s).state) && Inv(interrupted.state) && Inv(EndTurn(s, world).state)
  {
    InterruptIsAccepted(s);
    var interrupted := Interleave(MarkInterrupted(s), world.duringInterrupt);
    InterleaveKeepsInv(MarkInterrupted(s), world.duringInterrupt);
    if ActiveTurn(interrupted.state.turn) {
      DropTurnEndsIt(interrupted);
      InterleaveKeepsInv(DropTurn(interrupted), world.duringPersist);
    }
  }

  lemma EndSessionKeepsInv(s: Service, world: World)
    requires Inv(s.state) && world.WellTyped()
    ensures Inv(EndSession(s, world).state)
  {
    if HasOpenSession(s.state) {
      var closed := Closing(s, world).0;
      CloseSessionKeepsInv(s, s.state.session.value.id, world.unsubscribes, world.duringUnsubscribe);
      InterleaveKeepsInv(closed, world.afterClose);
      FatalErrorEndsAll(Interleave(closed, world.afterClose));
    }
  }

  lemma StopProcessKeepsInv(s: Service, world: World)
    requires Inv(s.state) && world.WellTyped()
    ensures Inv(StopProcess(s, world).0.state)
  {
    if s.parts.process {
      NextKeepsInv(s.state, AppServerChanged(AppStopping));
      var stopping := MarkStopping(s).0;
      InterleaveKeepsInv(stopping, world.duringStop);
      NextKeepsInv(Interleave(stopping, world.duringStop).state, AppServerChanged(AppStopped));
    }
  }

  lemma DisconnectedKeepsInv(s: Service, world: World)
    requires Inv(s.state) && world.WellTyped()
    ensures Inv(RaiseBarrier(s).0.state) && Inv(EndTurn(RaiseBarrier(s).0, world).state)
    ensures Inv(EndSession(EndTurn(RaiseBarrier(s).0, world), world).state) && Inv(Disconnected(s, world).state)
  {
    NextKeepsInv(s.state, ConsentRevokePending(FINANCE_CONSENT_VERSION));
    var raised := RaiseBarrier(s).0;
    EndTurnKeepsInv(raised, world);
    EndSessionKeepsInv(EndTurn(raised, world), world);
    StopAuthKeepsInv(EndSession(EndTurn(raised, world), world));
  }

  lemma RevokeKeepsInv(s: Service, world: World)
    requires Inv(s.state) && world.WellTyped()
    ensures Inv(Revoke(s, world).0.state)
    ensures Inv(RaiseBarrier(s).0.state) && Inv(EndTurn(RaiseBarrier(s).0, world).state)
    ensures Inv(EndSession(EndTurn(RaiseBarrier(s).0, world), world).state) && Inv(Disconnected(s, world).state)
  {
    DisconnectedKeepsInv(s, world);
    StopProcessKeepsInv(Disconnected(s, world), world);
    NextKeepsInv(StopProcess(Disconnected(s, world), world).0.state, ConsentRevoked(FINANCE_CONSENT_VERSION));
  }

  // ---------------------------------------------------------------- the awaits of a revocation

  /** One await that is reached: the reducer's state when it begins, and the events that arrive. */
  datatype Await = Await(state: State, events: seq<Event>)

  function At(s: Service, activities: seq<Activity>): Await {
    Await(s.state, Events(activities))
  }

  function EndTurnAwaits(s: Service, world: World): seq<Await> {
    var interrupted := Interleave(MarkInterrupted(s), world.duringInterrupt);
    [At(MarkInterrupted(s), world.duringInterrupt)]
    + if ActiveTurn(interrupted.state.turn) then [At(DropTurn(interrupted), world.duringPersist)] else []
  }

  /** Asking the provider to unsubscribe is an await only with a provider thread and a process. */
  predicate Unsubscribes(s: Service) {
    && HasOpenSession(s.state) && Open(s.state, s.state.session.value.id) && !ActiveTurn(s.state.turn)
    && s.state.session.value.providerThreadId.Some? && s.parts.process
  }

  function EndSessionAwaits(s: Service, world: World): seq<Await> {
    (if Unsubscribes(s) then [At(s, world.duringUnsubscribe)] else [])
    + if HasOpenSession(s.state) then [At(Closing(s, world).0, world.afterClose)] else []
  }

  function StopProcessAwaits(s: Service, world: World): seq<Await> {
    if s.parts.process && MarkStopping(s).1.Ok? then [At(MarkStopping(s).0, world.duringStop)] else []
  }

  function Awaits(s: Service, world: World): seq<Await> {
    var raised := RaiseBarrier(s).0;
    EndTurnAwaits(raised, world) + EndSessionAwaits(EndTurn(raised, world), world)
    + StopProcessAwaits(Disconnected(s, world), world)
  }

  /** No `consent.granted` is accepted while waiting. */
  predicate NoGrantDuring(awaits: seq<Await>) {
    forall a | a in awaits :: NoGrantAccepted(a.state, a.events)
  }

  /** No `consent.revoked` is accepted along the run. */
  predicate NoCompletionAccepted(s: State, events: seq<Event>)
    decreases |events|
  {
    events != [] ==>
      !(events[0].ConsentRevoked? && Reduce(s, events[0]).Ok?) && NoCompletionAccepted(Next(s, events[0]), events[1..])
  }

  predicate NoCompletionDuring(awaits: seq<Await>) {
    forall a | a in awaits :: NoCompletionAccepted(a.state, a.events)
  }

  // ---------------------------------------------------------------- while the barrier stands

  /** While a revocation is pending only its completion changes consent: nothing else is accepted that grants it. */
  lemma {:induction false} PendingSurvives(s: State, events: seq<Event>)
    requires Inv(s) && Pending(s) && AllWellTyped(events) && NoCompletionAccepted(s, events)
    ensures Run(s, events).consent == s.consent && NoGrantAccepted(s, events)
    decreases |events|
  {
    if events != [] {
      NextKeepsInv(s, events[0]);
      PendingSurvives(Next(s, events[0]), events[1..]);
    }
  }

  /** An await behind the barrier: it stays up, and nothing becomes live or active. */
  lemma BarredAwait(s: Service, activities: seq<Activity>)
    requires Inv(s.state) && Barred(s.state) && AllSendsTyped(activities)
    requires NoGrantAccepted(s.state, Events(activities))
    ensures var after := Interleave(s, activities);
            && Inv(after.state) && Barred(after.state)
            && (!ActiveTurn(s.state.turn) ==> !ActiveTurn(after.state.turn))
            && (Quiet(s.state) ==> Quiet(after.state))
  {
    InterleaveRuns(s, activities);
    InterleaveKeepsInv(s, activities);
    EventsAreTyped(activities);
    BarredRunAdmitsNothing(s.state, Events(activities));
  }

  lemma BarredEndTurn(s: Service, world: World)
    requires Inv(s.state) && Barred(s.state) && world.WellTyped() && NoGrantDuring(EndTurnAwaits(s, world))
    ensures Barred(EndTurn(s, world).state)
  {
    InterruptIsAccepted(s);
    var marked := MarkInterrupted(s);
    assert At(marked, world.duringInterrupt) in EndTurnAwaits(s, world);
    BarredAwait(marked, world.duringInterrupt);
    var interrupted := Interleave(marked, world.duringInterrupt);
    if ActiveTurn(interrupted.state.turn) {
      assert At(DropTurn(interrupted), world.duringPersist) in EndTurnAwaits(s, world);
      DropTurnEndsIt(interrupted);
      BarredAwait(DropTurn(interrupted), world.duringPersist);
    }
  }

  lemma BarredClosing(s: Service, world: World)
    requires Inv(s.state) && Barred(s.state) && world.WellTyped() && HasOpenSession(s.state)
    requires Unsubscribes(s) ==> NoGrantAccepted(s.state, Events(world.duringUnsubscribe))
    ensures Inv(Closing(s, world).0.state) && Barred(Closing(s, world).0.state)
  {
    CloseSessionKeepsInv(s, s.state.session.value.id, world.unsubscribes, world.duringUnsubscribe);
    if Unsubscribes(s) {
      BarredAwait(s, world.duringUnsubscribe);
    }
  }

  lemma BarredEndSession(s: Service, world: World)
    requires Inv(s.state) && Barred(s.state) && world.WellTyped() && NoGrantDuring(EndSessionAwaits(s, world))
    ensures Inv(EndSession(s, world).state) && Barred(EndSession(s, world).state) && Quiet(EndSession(s, world).state)
  {
    if HasOpenSession(s.state) {
      assert Unsubscribes(s) ==> At(s, world.duringUnsubscribe) in EndSessionAwaits(s, world);
      BarredClosing(s, world);
      var (closed, result) := Closing(s, world);
      assert At(closed, world.afterClose) in EndSessionAwaits(s, world);
      BarredAwait(closed, world.afterClose);
      var settled := Interleave(closed, world.afterClose);
      if result.Ok? {
        ClosedMeansClosed(s, s.state.session.value.id, world.unsubscribes, world.duringUnsubscribe);
      } else {
        FatalErrorEndsAll(settled);
      }
    }
  }

  lemma BarredStopProcess(s: Service, world: World)
    requires Inv(s.state) && Barred(s.state) && Quiet(s.state) && world.WellTyped()
    requires NoGrantDuring(StopProcessAwaits(s, world))
    ensures var (after, r) := StopProcess(s, world);
            && Barred(after.state) && Quiet(after.state) && (r.Ok? <==> (s.parts.process ==> world.processStops))
  {
    if s.parts.process {
      NextKeepsInv(s.state, AppServerChanged(AppStopping));
      var stopping := MarkStopping(s).0;
      assert At(stopping, world.duringStop) in StopProcessAwaits(s, world);
      BarredAwait(stopping, world.duringStop);
    }
  }

  lemma AwaitsSplit(s: Service, world: World)
    requires NoGrantDuring(Awaits(s, world))
    ensures NoGrantDuring(EndTurnAwaits(RaiseBarrier(s).0, world))
    ensures NoGrantDuring(EndSessionAwaits(EndTurn(RaiseBarrier(s).0, world), world))
    ensures NoGrantDuring(StopProcessAwaits(Disconnected(s, world), world))
  {
    var turn := EndTurnAwaits(RaiseBarrier(s).0, world);
    var session := EndSessionAwaits(EndTurn(RaiseBarrier(s).0, world), world);
    var process := StopProcessAwaits(Disconnected(s, world), world);
    assert Awaits(s, world) == turn + session + process;
  }

  /** Once the barrier is up and as long as no grant is accepted, the service is quiet when the process is to stop,
      and stopping it succeeds exactly when there is none or it stops. */
  lemma BarredDisconnect(s: Service, world: World)
    requires Inv(s.state) && world.WellTyped() && RaiseBarrier(s).1.Ok? && NoGrantDuring(Awaits(s, world))
    ensures var gone := Disconnected(s, world); Inv(gone.state) && Barred(gone.state) && Quiet(gone.state)
  {
    DisconnectedKeepsInv(s, world);
    AwaitsSplit(s, world);
    var raised := RaiseBarrier(s).0;
    BarredEndTurn(raised, world);
    BarredEndSession(EndTurn(raised, world), world);
    StopAuthKeepsInv(EndSession(EndTurn(raised, world), world));
  }

  // ---------------------------------------------------------------- what a revocation achieves

  /** If no grant is accepted while it waits, a revocation whose barrier is up leaves no live session and no active
      turn, whether it succeeds or fails, and whatever other events are handled, other revocations included. */
  lemma RevokedIsQuiet(s: Service, world: World)
    requires Inv(s.state) && world.WellTyped() && NoGrantDuring(Awaits(s, world))
    requires world.journalBegins && RaiseBarrier(s).1.Ok?
    ensures Quiet(Revoke(s, world).0.state) && Barred(Revoke(s, world).0.state)
  {
    BarredDisconnect(s, world);
    AwaitsSplit(s, world);
    BarredStopProcess(Disconnected(s, world), world);
  }

  // ---------------------------------------------------------------- when it returns normally

  lemma PendingAwait(s: Service, activities: seq<Activity>)
    requires Inv(s.state) && Pending(s.state) && AllSendsTyped(activities)
    requires NoCompletionAccepted(s.state, Events(activities))
    ensures Interleave(s, activities).state.consent == s.state.consent
    ensures Inv(Interleave(s, activities).state) && NoGrantAccepted(s.state, Events(activities))
  {
    InterleaveRuns(s, activities);
    InterleaveKeepsInv(s, activities);
    EventsAreTyped(activities);
    PendingSurvives(s.state, Events(activities));
  }

  lemma PendingEndTurn(s: Service, world: World)
    requires Inv(s.state) && Pending(s.state) && world.WellTyped() && NoCompletionDuring(EndTurnAwaits(s, world))
    ensures EndTurn(s, world).state.consent == s.state.consent && NoGrantDuring(EndTurnAwaits(s, world))
  {
    InterruptIsAccepted(s);
    var marked := MarkInterrupted(s);
    assert At(marked, world.duringInterrupt) in EndTurnAwaits(s, world);
    PendingAwait(marked, world.duringInterrupt);
    var interrupted := Interleave(marked, world.duringInterrupt);
    if ActiveTurn(interrupted.state.turn) {
      assert At(DropTurn(interrupted), world.duringPersist) in EndTurnAwaits(s, world);
      DropTurnEndsIt(interrupted);
      PendingAwait(DropTurn(interrupted), world.duringPersist);
    }
  }

  lemma PendingClosing(s: Service, world: World)
    requires Inv(s.state) && Pending(s.state) && world.WellTyped() && HasOpenSession(s.state)
    requires Unsubscribes(s) ==> NoCompletionAccepted(s.state, Events(world.duringUnsubscribe))
    ensures Inv(Closing(s, world).0.state) && Closing(s, world).0.state.consent == s.state.consent
    ensures Unsubscribes(s) ==> NoGrantAccepted(s.state, Events(world.duringUnsubscribe))
  {
    CloseSessionKeepsInv(s, s.state.session.value.id, world.unsubscribes, world.duringUnsubscribe);
    if Unsubscribes(s) {
      PendingAwait(s, world.duringUnsubscribe);
    }
  }

  lemma PendingEndSession(s: Service, world: World)
    requires Inv(s.state) && Pending(s.state) && world.WellTyped() && NoCompletionDuring(EndSessionAwaits(s, world))
    ensures EndSession(s, world).state.consent == s.state.consent && NoGrantDuring(EndSessionAwaits(s, world))
  {
    if HasOpenSession(s.state) {
      assert Unsubscribes(s) ==> At(s, world.duringUnsubscribe) in EndSessionAwaits(s, world);
      PendingClosing(s, world);
      var closed := Closing(s, world).0;
      assert At(closed, world.afterClose) in EndSessionAwaits(s, world);
      PendingAwait(closed, world.afterClose);
      FatalErrorEndsAll(Interleave(closed, world.afterClose));
    }
  }

  lemma PendingStopProcess(s: Service, world: World)
    requires Inv(s.state) && Pending(s.state) && world.WellTyped() && NoCompletionDuring(StopProcessAwaits(s, world))
    ensures StopProcess(s, world).0.state.consent == s.state.consent && NoGrantDuring(StopProcessAwaits(s, world))
  {
    if s.parts.process && MarkStopping(s).1.Ok? {
      NextKeepsInv(s.state, AppServerChanged(AppStopping));
      var stopping := MarkStopping(s).0;
      assert At(stopping, world.duringStop) in StopProcessAwaits(s, world);
      PendingAwait(stopping, world.duringStop);
    }
  }

  lemma CompletionAwaitsSplit(s: Service, world: World)
    requires NoCompletionDuring(Awaits(s, world))
    ensures NoCompletionDuring(EndTurnAwaits(RaiseBarrier(s).0, world))
    ensures NoCompletionDuring(EndSessionAwaits(EndTurn(RaiseBarrier(s).0, world), world))
    ensures NoCompletionDuring(StopProcessAwaits(Disconnected(s, world), world))
  {
    var turn := EndTurnAwaits(RaiseBarrier(s).0, world);
    var session := EndSessionAwaits(EndTurn(RaiseBarrier(s).0, world), world);
    var process := StopProcessAwaits(Disconnected(s, world), world);
    assert Awaits(s, world) == turn + session + process;
  }

  /** Without another revocation being completed meanwhile, consent stays pending all along and nobody can grant it. */
  lemma PendingThroughout(s: Service, world: World)
    requires Inv(s.state) && world.WellTyped() && RaiseBarrier(s).1.Ok? && NoCompletionDuring(Awaits(s, world))
    ensures StopProcess(Disconnected(s, world), world).0.state.consent == RaiseBarrier(s).0.state.consent
    ensures NoGrantDuring(Awaits(s, world))
  {
    DisconnectedKeepsInv(s, world);
    CompletionAwaitsSplit(s, world);
    var raised := RaiseBarrier(s).0;
    var ended := EndTurn(raised, world);
    PendingEndTurn(raised, world);
    PendingEndSession(ended, world);
    StopAuthKeepsInv(EndSession(ended, world));
    PendingStopProcess(Disconnected(s, world), world);
    assert Awaits(s, world) == EndTurnAwaits(raised, world) + EndSessionAwaits(ended, world)
                               + StopProcessAwaits(Disconnected(s, world), world);
  }

  /** The barrier goes up exactly when consent stands under the current version, or already is being withdrawn. */
  lemma BarrierIsExact(s: Service)
    requires Inv(s.state)
    ensures var (raised, r) := RaiseBarrier(s);
            && (r.Ok? <==> Pending(s.state) || s.state.consent == Consent(Granted, Some(FINANCE_CONSENT_VERSION)))
            && raised.state.consent.version == s.state.consent.version
            && (if r.Ok? then Pending(raised.state) else raised == s)
            && !Transmitting(if r.Ok? then raised.state.turn else None)
  {
    NextKeepsInv(s.state, ConsentRevokePending(FINANCE_CONSENT_VERSION));
  }

  /** Unless another revocation is completed meanwhile, a revocation returns normally exactly when consent stands under
      the current version or is being withdrawn, the journal writes both records, and a process still held at the end
      stops, no matter which other step fails. */
  lemma RevokeIsExact(s: Service, world: World)
    requires Inv(s.state) && world.WellTyped() && NoCompletionDuring(Awaits(s, world))
    ensures Revoke(s, world).1.Ok? <==>
              && s.state.consent.status in {Granted, RevokePending}
              && s.state.consent.version == Some(FINANCE_CONSENT_VERSION)
              && world.journalBegins && world.journalCompletes
              && (Disconnected(s, world).parts.process ==> world.processStops)
  {
    BarrierIsExact(s);
    if world.journalBegins && RaiseBarrier(s).1.Ok? {
      PendingThroughout(s, world);
      BarredDisconnect(s, world);
      AwaitsSplit(s, world);
      BarredStopProcess(Disconnected(s, world), world);
    }
  }

  /** A normal return always completes the withdrawal and drops the process; the controller is gone too unless another
      handler sets one up while the process stops. */
  lemma NormalReturn(s: Service, world: World)
    requires Inv(s.state) && world.WellTyped() && Revoke(s, world).1.Ok?
    ensures var (after, gone) := (Revoke(s, world).0, Disconnected(s, world));
            && after.state.consent == Consent(Revoked, Some(FINANCE_CONSENT_VERSION)) && !after.parts.process
            && after.parts.auth == if gone.parts.process
               then Interleave(MarkStopping(gone).0, world.duringStop).parts.auth
                                   else None
  {
    StopAuthKeepsInv(EndSession(EndTurn(RaiseBarrier(s).0, world), world)) by {
      DisconnectedKeepsInv(s, world);
    }
  }

  // ---------------------------------------------------------------- exactly when it leaves a session

  /** A session is started during the await, and not ended again before the await is over. */
  predicate SessionStartsDuring(a: Await) {
    SessionStarts(a.state, a.events, |a.events|)
  }

  lemma AwaitLeavesSession(s: Service, activities: seq<Activity>)
    requires Inv(s.state) && AllSendsTyped(activities) && !LiveSession(s.state.session)
    ensures LiveSession(Interleave(s, activities).state.session) <==> SessionStartsDuring(At(s, activities))
  {
    var events := Events(activities);
    InterleaveRuns(s, activities);
    EventsAreTyped(activities);
    LiveAfterRun(s.state, events, |events|);
    TakeAll(events);
  }

  /** Whatever happened at the awaits before, the session is gone when `closeSession` settles, and only an await after
      a normal close can bring another one. */
  lemma SessionIsGone(s: Service, world: World)
    requires Inv(s.state) && world.WellTyped()
    ensures Inv(EndSession(s, world).state)
    ensures LiveSession(EndSession(s, world).state.session) <==>
              && HasOpenSession(s.state) && Closing(s, world).1.Ok?
              && SessionStartsDuring(At(Closing(s, world).0, world.afterClose))
  {
    EndSessionKeepsInv(s, world);
    if HasOpenSession(s.state) {
      var (closed, result) := Closing(s, world);
      CloseSessionKeepsInv(s, s.state.session.value.id, world.unsubscribes, world.duringUnsubscribe);
      InterleaveKeepsInv(closed, world.afterClose);
      if result.Ok? {
        ClosedMeansClosed(s, s.state.session.value.id, world.unsubscribes, world.duringUnsubscribe);
        AwaitLeavesSession(closed, world.afterClose);
      } else {
        FatalErrorEndsAll(Interleave(closed, world.afterClose));
      }
    }
  }

  /** A live session stands in the way of stopping the App Server, so a process that is stopped leaves only a session
      that was started meanwhile. */
  lemma StopLeavesSession(s: Service, world: World)
    requires Inv(s.state) && world.WellTyped() && StopProcess(s, world).1.Ok?
    ensures LiveSession(StopProcess(s, world).0.state.session) <==>
              if s.parts.process then SessionStartsDuring(At(MarkStopping(s).0, world.duringStop))
              else LiveSession(s.state.session)
  {
    if s.parts.process {
      var stopping := MarkStopping(s).0;
      NextKeepsInv(s.state, AppServerChanged(AppStopping));
      AwaitLeavesSession(stopping, world.duringStop);
    }
  }

  lemma QuietMeansNoSession(s: State)
    requires Inv(s)
    ensures Quiet(s) <==> !LiveSession(s.session)
  {
  }

  /** A revocation that returns normally is quiet except in one case: while it waited for its process to stop or, with
      no process to stop, after its session was closed, another handler got a `session.start` accepted, and nothing
      accepted later in that await ended that session. */
  lemma RevokeLeavesSession(s: Service, world: World)
    requires Inv(s.state) && world.WellTyped() && Revoke(s, world).1.Ok?
    ensures var (ended, gone) := (EndTurn(RaiseBarrier(s).0, world), Disconnected(s, world));
            !Quiet(Revoke(s, world).0.state) <==>
              if gone.parts.process then SessionStartsDuring(At(MarkStopping(gone).0, world.duringStop))
              else && HasOpenSession(ended.state) && Closing(ended, world).1.Ok?
                   && SessionStartsDuring(At(Closing(ended, world).0, world.afterClose))
  {
    RevokeKeepsInv(s, world);
    var ended := EndTurn(RaiseBarrier(s).0, world);
    SessionIsGone(ended, world);
    StopAuthKeepsInv(EndSession(ended, world));
    StopLeavesSession(Disconnected(s, world), world);
    QuietMeansNoSession(Revoke(s, world).0.state);
  }

  // ---------------------------------------------------------------- a revocation that leaves a session

  const CALM := World(true, [], [], true, [], [], true, [], true)

  /** The service of a host that is ready and has consent, with a process and a login but no session. */
  function Idle(version: string): Service {
    Service(Opened(version), Parts(true, Some(Authenticated), Some(D.INITIAL_DISPATCHER), false, None, true), [])
  }

  /** What a second revocation does when the first one waits for the process, and its own wait is over first. */
  function SecondRevocation(version: string, parts: Parts): seq<Activity> {
    [Sets(parts.(process := false)), Sends(AppServerChanged(AppStopped)), Sends(ConsentRevoked(version))]
  }

  /** Consent is granted again, which starts a process, and the login is found. */
  function Regrant(version: string, parts: Parts): seq<Activity> {
    [Sends(ConsentGranted(version)), Sets(parts.(process := true)),
     Sends(AppServerChanged(AppStarting)), Sends(AppServerChanged(AppReady)),
     Sets(parts.(process := true, auth := Some(Authenticated))), Sends(AuthChanged(Authenticated))]
  }

  /** A session starts, and then a third revocation begins. */
  function NewSession(version: string): seq<Activity> {
    [Sends(SessionStart(version, "s")), Sends(SessionIsReady("t", false, "s")), Sends(ConsentRevokePending(version))]
  }

  lemma {:induction false} InterleaveSteps(states: seq<Service>, activities: seq<Activity>)
    requires |states| == |activities| + 1
    requires forall i | 0 <= i < |activities| :: states[i + 1] == Perform(states[i], activities[i])
    ensures Interleave(states[0], activities) == states[|activities|]
    decreases |activities|
  {
    if activities != [] {
      assert forall i | 0 <= i < |activities[1..]| ::
               states[1..][i] == states[i + 1] && activities[1..][i] == activities[i + 1];
      InterleaveSteps(states[1..], activities[1..]);
    }
  }

  lemma {:induction false} InterleaveAppend(s: Service, first: seq<Activity>, second: seq<Activity>)
    ensures Interleave(s, first + second) == Interleave(Interleave(s, first), second)
    decreases |first|
  {
    if first == [] {
      assert first + second == second;
    } else {
      assert (first + second)[1..] == first[1..] + second;
      InterleaveAppend(Perform(s, first[0]), first[1..], second);
    }
  }

  /** Where the first revocation waits for its process to stop. */
  function Waiting(version: string): Service {
    var idle := Idle(version);
    idle.(state := idle.state.(appServer := AppStopping, auth := AuthUnknown,
                               consent := Consent(RevokePending, Some(version))),
          parts := idle.parts.(auth := None))
  }

  lemma IdleDisconnects(world: World)
    requires world.duringInterrupt == []
    ensures var version := FINANCE_CONSENT_VERSION;
            && RaiseBarrier(Idle(version)).1.Ok?
            && Disconnected(Idle(version), world).parts.process
            && MarkStopping(Disconnected(Idle(version), world)) == (Waiting(version), Ok(()))
  {
    var idle := Idle(FINANCE_CONSENT_VERSION);
    var raised := RaiseBarrier(idle).0;
    assert ValidConsentVersion(FINANCE_CONSENT_VERSION);
    assert raised.state == idle.state.(consent := Consent(RevokePending, Some(FINANCE_CONSENT_VERSION)));
    assert EndSession(EndTurn(raised, world), world) == raised;
    assert StopAuth(raised) == raised.(state := raised.state.(auth := AuthUnknown),
                                       parts := raised.parts.(auth := None));
  }

  /** A second revocation, run to its end while the first one waits, does exactly these three steps. */
  lemma SecondRevocationRuns()
    ensures var version := FINANCE_CONSENT_VERSION;
            var waiting := Waiting(version);
            && Revoke(waiting, CALM) == (Interleave(waiting, SecondRevocation(version, waiting.parts)), Ok(()))
            && Revoke(waiting, CALM).0 == waiting.(
                 state := waiting.state.(appServer := AppStopped, consent := Consent(Revoked, Some(version))),
                 parts := waiting.parts.(process := false))
  {
    var version := FINANCE_CONSENT_VERSION;
    var waiting := Waiting(version);
    assert ValidConsentVersion(version);
    assert Disconnected(waiting, CALM) == waiting && MarkStopping(waiting) == (waiting, Ok(()));
    var s1 := waiting.(parts := waiting.parts.(process := false));
    var s2 := s1.(state := s1.state.(appServer := AppStopped));
    var s3 := s2.(state := s2.state.(consent := Consent(Revoked, Some(version))));
    assert StopProcess(waiting, CALM) == (s2, Ok(()));
    InterleaveSteps([waiting, s1, s2, s3], SecondRevocation(version, waiting.parts));
  }

  lemma RegrantRuns(s: Service, version: string)
    requires s.state == Opened(version).(appServer := AppStopped, auth := AuthUnknown,
                                         consent := Consent(Revoked, Some(version)))
    requires ValidConsentVersion(version)
    ensures Interleave(s, Regrant(version, s.parts)).state == Opened(version)
  {
    var held := s.parts.(process := true);
    var s1 := s.(state := s.state.(consent := Consent(Granted, Some(version))));
    var s2 := s1.(parts := held);
    var s3 := s2.(state := s2.state.(appServer := AppStarting));
    var s4 := s3.(state := s3.state.(appServer := AppReady));
    var s5 := s4.(parts := held.(auth := Some(Authenticated)));
    var s6 := s5.(state := Opened(version));
    InterleaveSteps([s, s1, s2, s3, s4, s5, s6], Regrant(version, s.parts));
  }

  lemma NewSessionRuns(s: Service, version: string)
    requires s.state == Opened(version) && ValidConsentVersion(version)
    ensures var after := Interleave(s, NewSession(version)).state;
            && LiveSession(after.session) && after.appServer == AppReady
            && after.consent == Consent(RevokePending, Some(version))
  {
    assert ValidResourceId("s") && ValidResourceId("t");
    SessionOpens(Opened(version), version, "s", "t");
    var started := Perform(s, Sends(SessionStart(version, "s")));
    var ready := Perform(started, Sends(SessionIsReady("t", false, "s")));
    var barred := Perform(ready, Sends(ConsentRevokePending(version)));
    assert barred.state == ready.state.(consent := Consent(RevokePending, Some(version)));
    InterleaveSteps([s, started, ready, barred], NewSession(version));
  }

  /** The activities of the overlap, all of them during the one wait. */
  function Overlap(version: string): World {
    var waiting := Waiting(version);
    var second := Revoke(waiting, CALM).0;
    CALM.(duringStop := SecondRevocation(version, waiting.parts) + Regrant(version, second.parts) + NewSession(version))
  }

  lemma OverlapRuns()
    ensures var stopped := Interleave(Waiting(FINANCE_CONSENT_VERSION),
                                      Overlap(FINANCE_CONSENT_VERSION).duringStop).state;
            && LiveSession(stopped.session) && stopped.appServer == AppReady
            && stopped.consent == Consent(RevokePending, Some(FINANCE_CONSENT_VERSION))
  {
    var version := FINANCE_CONSENT_VERSION;
    var waiting := Waiting(version);
    var second := Revoke(waiting, CALM).0;
    var first, middle, last := SecondRevocation(version, waiting.parts), Regrant(version, second.parts),
      NewSession(version);
    assert ValidConsentVersion(version);
    SecondRevocationRuns();
    InterleaveAppend(waiting, first + middle, last);
    InterleaveAppend(waiting, first, middle);
    RegrantRuns(second, version);
    NewSessionRuns(Interleave(second, middle), version);
  }

  /** The first revocation ends normally if it finds a barrier up and nothing to mark as stopped. */
  lemma FirstRevocationEnds(world: World)
    requires world.journalBegins && world.duringInterrupt == [] && world.processStops && world.journalCompletes
    requires var stopped := Interleave(Waiting(FINANCE_CONSENT_VERSION), world.duringStop).state;
             stopped.appServer == AppReady && stopped.consent == Consent(RevokePending, Some(FINANCE_CONSENT_VERSION))
    ensures var (after, r) := Revoke(Idle(FINANCE_CONSENT_VERSION), world);
            r.Ok? && after.state.session == Interleave(Waiting(FINANCE_CONSENT_VERSION), world.duringStop).state.session
  {
    IdleDisconnects(world);
    assert ValidConsentVersion(FINANCE_CONSENT_VERSION);
  }

  /** The one case does occur, from a state that the start of a host reaches: while a revocation waits for its process
      to stop, a second one is over first, consent is granted again, a session starts and a third one begins. The first
      then completes on the third one's barrier, and returns normally with that session live. The child's exit code is
      known before its streams close, and from then on a second stop returns at once while the first still waits. */
  lemma OverlappingRevokeLeavesSession()
    ensures var version := FINANCE_CONSENT_VERSION;
            && Idle(version).state == Run(INITIAL_STATE, Opening(version))
            && Revoke(Idle(version), Overlap(version)).1.Ok?
            && LiveSession(Revoke(Idle(version), Overlap(version)).0.state.session)
  {
    assert ValidConsentVersion(FINANCE_CONSENT_VERSION);
    OpeningIsAccepted(FINANCE_CONSENT_VERSION);
    OverlapRuns();
    FirstRevocationEnds(Overlap(FINANCE_CONSENT_VERSION));
  }
}
