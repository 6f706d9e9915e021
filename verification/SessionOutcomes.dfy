/** What the reducer makes of each event, told by the events accepted before: consent is what the last consent event
    said, nothing is admitted without a standing grant, and the identifier ledger lists what was accepted. */
module SessionOutcomes {
  import opened Wrappers
  import opened Identifiers
  import opened Sequences
  import opened SessionManager
  import opened SessionRuns

  // ---------------------------------------------------------------- consent is its last event

  predicate IsConsentEvent(e: Event) {
    e.ConsentLoaded? || e.ConsentGranted? || e.ConsentRevokePending? || e.ConsentRevoked?
  }

  /** What an accepted consent event makes of consent. */
  function Says(e: Event): Consent
    requires IsConsentEvent(e)
  {
    match e
    case ConsentLoaded(status, version) => Consent(status, Some(version))
    case ConsentGranted(version) => Consent(Granted, Some(version))
    case ConsentRevokePending(version) => Consent(RevokePending, Some(version))
    case ConsentRevoked(version) => Consent(Revoked, Some(version))
  }

  /** Event `i` is the last consent event among the first `n` that was accepted. */
  predicate LastConsentAt(s: State, events: seq<Event>, i: nat, n: nat)
    requires i < n <= |events|
  {
    && IsConsentEvent(events[i]) && AcceptedAt(s, events, i)
    && forall j | i < j < n :: !(IsConsentEvent(events[j]) && AcceptedAt(s, events, j))
  }

  predicate NoConsentYet(s: State, events: seq<Event>, n: nat)
    requires n <= |events|
  {
    forall j | 0 <= j < n :: !(IsConsentEvent(events[j]) && AcceptedAt(s, events, j))
  }

  lemma ConsentNext(s: State, e: Event)
    ensures Next(s, e).consent == if IsConsentEvent(e) && Reduce(s, e).Ok? then Says(e) else s.consent
  {
  }

  lemma ConsentOneMore(s: State, events: seq<Event>, n: nat)
    requires n < |events|
    ensures Run(s, events[..n + 1]).consent
            == if IsConsentEvent(events[n]) && AcceptedAt(s, events, n) then Says(events[n])
               else Run(s, events[..n]).consent
  {
    RunOneMore(s, events, n);
    ConsentNext(Run(s, events[..n]), events[n]);
  }

  lemma {:induction false} ConsentUntouched(s: State, events: seq<Event>, n: nat)
    requires n <= |events| && NoConsentYet(s, events, n)
    ensures Run(s, events[..n]).consent == s.consent
    decreases n
  {
    if n > 0 {
      ConsentOneMore(s, events, n - 1);
      ConsentUntouched(s, events, n - 1);
    }
  }

  lemma {:induction false} ConsentSince(s: State, events: seq<Event>, i: nat, n: nat)
    requires i < n <= |events| && LastConsentAt(s, events, i, n)
    ensures Run(s, events[..n]).consent == Says(events[i])
    decreases n
  {
    ConsentOneMore(s, events, n - 1);
    if i < n - 1 {
      ConsentSince(s, events, i, n - 1);
    }
  }

  /** Consent is what the last accepted consent event said, or what it was if there was none. */
  lemma ConsentIsItsLastEvent(s: State, events: seq<Event>, n: nat)
    requires n <= |events|
    ensures NoConsentYet(s, events, n) ==> Run(s, events[..n]).consent == s.consent
    ensures forall i | 0 <= i < n && LastConsentAt(s, events, i, n) :: Run(s, events[..n]).consent == Says(events[i])
  {
    if NoConsentYet(s, events, n) {
      ConsentUntouched(s, events, n);
    }
    forall i | 0 <= i < n && LastConsentAt(s, events, i, n) ensures Run(s, events[..n]).consent == Says(events[i]) {
      ConsentSince(s, events, i, n);
    }
  }

  /** Some consent event was accepted, and then there is a last one. */
  lemma {:induction false} SomeConsentWasLast(s: State, events: seq<Event>, n: nat) returns (i: nat)
    requires n <= |events| && !NoConsentYet(s, events, n)
    ensures i < n && LastConsentAt(s, events, i, n)
    decreases n
  {
    if IsConsentEvent(events[n - 1]) && AcceptedAt(s, events, n - 1) {
      i := n - 1;
    } else {
      i := SomeConsentWasLast(s, events, n - 1);
    }
  }

  /** The events that let consent stand: a grant, or consent loaded as granted. */
  predicate Grants(e: Event) {
    e.ConsentGranted? || (e.ConsentLoaded? && e.loaded == Granted)
  }

  /** From the start of the host: a session.start, session.ready, turn.start or turn.running that is accepted has before
      it an accepted grant, or consent loaded as granted, with no other accepted consent event, a withdrawal in
      particular, in between. */
  lemma AdmissionNeedsGrant(events: seq<Event>, n: nat) returns (i: nat)
    requires n < |events| && Admission(events[n]) && AcceptedAt(INITIAL_STATE, events, n)
    ensures i < n && LastConsentAt(INITIAL_STATE, events, i, n) && Grants(events[i])
  {
    ConsentIsItsLastEvent(INITIAL_STATE, events, n);
    AdmissionIsGranted(Run(INITIAL_STATE, events[..n]), events[n]);
    i := SomeConsentWasLast(INITIAL_STATE, events, n);
  }

  lemma AdmissionIsGranted(s: State, e: Event)
    requires Admission(e) && Reduce(s, e).Ok?
    ensures s.consent.status == Granted
  {
  }

  /** Consent is loaded exactly while it is unknown, no session is live and the version is valid; it is granted exactly
      while it is unknown or withdrawn; withdrawing begins exactly on a grant under the version named, and completes
      exactly on a withdrawal under it that has begun. */
  lemma ConsentEventsAreExact(events: seq<Event>, status: ConsentStatus, version: string)
    ensures var s := Run(INITIAL_STATE, events);
            && (Reduce(s, ConsentLoaded(status, version)).Ok? <==>
                  s.consent.status == Unknown && !LiveSession(s.session) && ValidConsentVersion(version))
            && (Reduce(s, ConsentGranted(version)).Ok? <==>
                  s.consent.status !in {Granted, RevokePending} && ValidConsentVersion(version))
            && (Reduce(s, ConsentRevokePending(version)).Ok? <==>
                  s.consent == Consent(Granted, Some(version)) && ValidConsentVersion(version))
            && (Reduce(s, ConsentRevoked(version)).Ok? <==>
                  s.consent == Consent(RevokePending, Some(version)) && ValidConsentVersion(version))
  {
  }

  /** A consent event touches nothing but consent, except that a withdrawal interrupts an active turn. */
  lemma ConsentEventsTouchConsent(s: State, e: Event)
    requires IsConsentEvent(e) && Reduce(s, e).Ok?
    ensures Next(s, e) == s.(consent := Says(e), turn := Next(s, e).turn)
    ensures Next(s, e).turn == if e.ConsentRevokePending? && ActiveTurn(s.turn)
                               then Some(s.turn.value.(status := Interrupting)) else s.turn
  {
  }

  // ---------------------------------------------------------------- the ledger lists what was accepted

  /** The identifiers that an accepted event brings; a thread that is resumed may be known. */
  function Brings(s: State, e: Event): seq<IssuedId> {
    match e
    case SessionStart(_, sessionId) => [IssuedId(sessionId, SessionId)]
    case SessionIsReady(threadId, _, _) =>
      if IssuedId(threadId, ProviderThread) in s.issued then [] else [IssuedId(threadId, ProviderThread)]
    case TurnStart(_, turnId) => [IssuedId(turnId, TurnId)]
    case TurnRunning(providerTurnId, _) => [IssuedId(providerTurnId, ProviderTurn)]
    case _ => []
  }

  function Brought(s: State, events: seq<Event>): seq<IssuedId>
    decreases |events|
  {
    if events == [] then []
    else (if Reduce(s, events[0]).Ok? then Brings(s, events[0]) else []) + Brought(Next(s, events[0]), events[1..])
  }

  lemma LedgerNext(s: State, e: Event)
    ensures Next(s, e).issued == s.issued + if Reduce(s, e).Ok? then Brings(s, e) else []
  {
    AppendEmpty(s.issued);
    if e.SessionIsReady? && Reduce(s, e).Ok? {
      KnownThread(s, e);
    }
  }

  /** A thread that becomes ready is new, or it is known as a thread. */
  lemma KnownThread(s: State, e: Event)
    requires e.SessionIsReady? && Reduce(s, e).Ok?
    ensures IssuedId(e.providerThreadId, ProviderThread) in s.issued <==> IssuedKind(s.issued, e.providerThreadId).Some?
  {
    if IssuedId(e.providerThreadId, ProviderThread) in s.issued {
      var i :| 0 <= i < |s.issued| && s.issued[i] == IssuedId(e.providerThreadId, ProviderThread);
      assert s.issued[i].id == e.providerThreadId;
    }
  }

  lemma {:induction false} LedgerIsHistory(s: State, events: seq<Event>)
    ensures Run(s, events).issued == s.issued + Brought(s, events)
    decreases |events|
  {
    if events == [] {
      AppendEmpty(s.issued);
    } else {
      LedgerNext(s, events[0]);
      LedgerIsHistory(Next(s, events[0]), events[1..]);
      AppendAssoc(s.issued, if Reduce(s, events[0]).Ok? then Brings(s, events[0]) else [],
                  Brought(Next(s, events[0]), events[1..]));
    }
  }

  // ---------------------------------------------------------------- sessions and turns

  /** Consent stands under this version, and the login with it. */
  predicate Trusted(s: State, version: string) {
    s.auth == Authenticated && ValidConsentVersion(version) && s.consent == Consent(Granted, Some(version))
  }

  predicate HasRoom(s: State) {
    |s.issued| < 256
  }

  predicate Current(s: State, sessionId: string, statuses: set<SessionStatus>) {
    && s.session.Some? && s.session.value.id == sessionId && ValidResourceId(sessionId)
    && s.session.value.status in statuses
  }

  predicate CurrentTurn(s: State, turnId: string, statuses: set<TurnStatus>) {
    s.turn.Some? && s.turn.value.id == turnId && ValidResourceId(turnId) && s.turn.value.status in statuses
  }

  lemma FreshIsUnissued(s: State, id: string)
    ensures Fresh(s, id) <==> RequireAvailable(s, id).None?
  {
  }

  /** A session starts exactly on a ready host with a trusted caller, no other session that is not closed, and an
      identifier never seen; it starts without a thread, and no turn is left from before. */
  lemma SessionStartIsExact(s: State, version: string, sessionId: string)
    ensures Reduce(s, SessionStart(version, sessionId)).Ok? <==>
              && s.host == HostReady && s.appServer == AppReady && Trusted(s, version)
              && (s.session.Some? ==> s.session.value.status == Closed) && Fresh(s, sessionId) && HasRoom(s)
    ensures Reduce(s, SessionStart(version, sessionId)).Ok? ==>
              Next(s, SessionStart(version, sessionId))
              == s.(session := Some(Session(version, sessionId, None, SessionStarting)), turn := None,
                    issued := s.issued + [IssuedId(sessionId, SessionId)])
  {
    FreshIsUnissued(s, sessionId);
  }

  /** A session that is starting becomes ready exactly under its own consent with a thread that is new, or, if it is
      resumed, known as a thread. */
  lemma SessionReadyIsExact(s: State, threadId: string, resumed: bool, sessionId: string)
    requires LedgerInv(s)
    ensures var known := IssuedId(threadId, ProviderThread) in s.issued;
            && (Reduce(s, SessionIsReady(threadId, resumed, sessionId)).Ok? <==>
                  && Current(s, sessionId, {SessionStarting}) && Trusted(s, s.session.value.consentVersion)
                  && ((Fresh(s, threadId) && HasRoom(s)) || (resumed && known && ValidResourceId(threadId))))
            && (Reduce(s, SessionIsReady(threadId, resumed, sessionId)).Ok? ==>
                  Next(s, SessionIsReady(threadId, resumed, sessionId))
                  == s.(session := Some(s.session.value.(providerThreadId := Some(threadId), status := SessionReady)),
                        issued := s.issued + if known then [] else [IssuedId(threadId, ProviderThread)]))
  {
    FreshIsUnissued(s, threadId);
    AppendEmpty(s.issued);
    if IssuedId(threadId, ProviderThread) in s.issued {
      KindOfIssued(s.issued, IssuedId(threadId, ProviderThread));
    }
  }

  lemma {:induction false} KindOfIssued(issued: seq<IssuedId>, x: IssuedId)
    requires x in issued && forall i, j | 0 <= i < j < |issued| :: issued[i].id != issued[j].id
    ensures IssuedKind(issued, x.id) == Some(x.kind)
    decreases |issued|
  {
    var i :| 0 <= i < |issued| && issued[i] == x;
    if i > 0 {
      assert issued[1..][i - 1] == x;
      KindOfIssued(issued[1..], x);
    }
  }

  /** A session fails exactly while it starts, and closes exactly when it is not closed and has no active turn. */
  lemma SessionEndsAreExact(s: State, sessionId: string)
    ensures Reduce(s, SessionFail(sessionId)).Ok? <==> Current(s, sessionId, {SessionStarting})
    ensures Reduce(s, SessionFail(sessionId)).Ok? ==>
              Next(s, SessionFail(sessionId)) == s.(session := Some(s.session.value.(status := ContextLost)))
    ensures Reduce(s, SessionClose(sessionId)).Ok? <==>
              Current(s, sessionId, {SessionStarting, SessionReady, ContextLost}) && !ActiveTurn(s.turn)
    ensures Reduce(s, SessionClose(sessionId)).Ok? ==>
              Next(s, SessionClose(sessionId)) == s.(session := Some(s.session.value.(status := Closed)))
  {
  }

  /** A turn starts exactly in a ready session of a trusted caller without an active turn, under an identifier never
      seen. */
  lemma TurnStartIsExact(s: State, sessionId: string, turnId: string)
    ensures Reduce(s, TurnStart(sessionId, turnId)).Ok? <==>
              && Current(s, sessionId, {SessionReady}) && Trusted(s, s.session.value.consentVersion)
              && !ActiveTurn(s.turn) && Fresh(s, turnId) && HasRoom(s)
    ensures Reduce(s, TurnStart(sessionId, turnId)).Ok? ==>
              Next(s, TurnStart(sessionId, turnId))
              == s.(turn := Some(Turn(turnId, None, sessionId, Starting)),
                    issued := s.issued + [IssuedId(turnId, TurnId)])
  {
    FreshIsUnissued(s, turnId);
  }

  /** It runs exactly once it has started, under a provider identifier never seen. */
  lemma TurnRunningIsExact(s: State, providerTurnId: string, turnId: string)
    ensures Reduce(s, TurnRunning(providerTurnId, turnId)).Ok? <==>
              && s.session.Some? && Trusted(s, s.session.value.consentVersion) && CurrentTurn(s, turnId, {Starting})
              && Fresh(s, providerTurnId) && HasRoom(s)
    ensures Reduce(s, TurnRunning(providerTurnId, turnId)).Ok? ==>
              Next(s, TurnRunning(providerTurnId, turnId))
              == s.(turn := Some(s.turn.value.(providerTurnId := Some(providerTurnId), status := Running)),
                    issued := s.issued + [IssuedId(providerTurnId, ProviderTurn)])
  {
    FreshIsUnissued(s, providerTurnId);
  }

  /** It is interrupted exactly while it starts or runs, and finishes exactly while it is active, as it is told to. */
  lemma TurnEndsAreExact(s: State, status: TurnStatus, turnId: string)
    ensures Reduce(s, TurnInterrupt(turnId)).Ok? <==> CurrentTurn(s, turnId, {Starting, Running})
    ensures Reduce(s, TurnInterrupt(turnId)).Ok? ==>
              Next(s, TurnInterrupt(turnId)) == s.(turn := Some(s.turn.value.(status := Interrupting)))
    ensures Reduce(s, TurnFinish(status, turnId)).Ok? <==> CurrentTurn(s, turnId, {Starting, Running, Interrupting})
    ensures Reduce(s, TurnFinish(status, turnId)).Ok? ==>
              Next(s, TurnFinish(status, turnId)) == s.(turn := Some(s.turn.value.(status := status)))
  {
  }

  // ---------------------------------------------------------------- host, App Server and login

  /** What a lost context does to the session and the turn. */
  predicate ContextIsLost(before: State, after: State) {
    && after.session == (if LiveSession(before.session) then Some(before.session.value.(status := ContextLost))
                         else before.session)
    && after.turn == (if ActiveTurn(before.turn) then Some(before.turn.value.(status := Failed)) else before.turn)
    && after.consent == before.consent && after.issued == before.issued
  }

  /** The host starts, is ready or degraded, stops, and has stopped for good; it does not begin to stop with a live
      session. */
  lemma HostIsExact(s: State, status: HostStatus)
    ensures Reduce(s, HostChanged(status)).Ok? <==>
              || (s.host == HostStarting && status in {HostReady, HostDegraded})
              || (s.host == HostReady && status == HostDegraded) || (s.host == HostDegraded && status == HostReady)
              || (s.host in {HostStarting, HostReady, HostDegraded} && status == HostStopping
                  && !LiveSession(s.session))
              || (s.host == HostStopping && status == HostStopped)
    ensures Reduce(s, HostChanged(status)).Ok? ==> Next(s, HostChanged(status)) == s.(host := status)
  {
  }

  /** The App Server starts from stopped or crashed, gets ready, is asked to stop without a live session, and has
      stopped; it may crash whenever it is up, and then the context is lost. */
  lemma AppServerIsExact(s: State, status: AppServerStatus)
    ensures Reduce(s, AppServerChanged(status)).Ok? <==>
              || (s.appServer in {AppStopped, AppCrashed} && status == AppStarting)
              || (s.appServer == AppStarting && status == AppReady)
              || (s.appServer in {AppStarting, AppReady, AppCrashed} && status == AppStopping
                  && !LiveSession(s.session))
              || (s.appServer in {AppStopping, AppCrashed} && status == AppStopped)
              || (s.appServer in {AppStarting, AppReady, AppStopping} && status == AppCrashed)
    ensures Reduce(s, AppServerChanged(status)).Ok? && status != AppCrashed ==>
              Next(s, AppServerChanged(status)) == s.(appServer := status)
    ensures Reduce(s, AppServerChanged(AppCrashed)).Ok? ==>
              Next(s, AppServerChanged(AppCrashed)) == Next(s, ChildExited)
  {
  }

  /** The child's exit is always accepted: the App Server has crashed, a host that was up is degraded, and the context
      is lost. */
  lemma ChildExitIsExact(s: State)
    ensures var after := Next(s, ChildExited);
            && Reduce(s, ChildExited).Ok? && after.appServer == AppCrashed && after.auth == s.auth
            && after.host == (if s.host in {HostStopping, HostStopped} then s.host else HostDegraded)
            && ContextIsLost(s, after)
  {
  }

  /** A login status is accepted exactly when it is news; losing the login loses the context. */
  lemma AuthIsExact(s: State, status: AuthStatus)
    ensures Reduce(s, AuthChanged(status)).Ok? <==> status != s.auth
    ensures status != s.auth ==>
              var after := Next(s, AuthChanged(status));
              && after.auth == status && after.host == s.host && after.appServer == s.appServer
              && (if status == LoggedOut then ContextIsLost(s, after) else after == s.(auth := status))
  {
  }

  // ---------------------------------------------------------------- why an event is refused

  /** The identifier that an admission is to bring into the ledger, and the consent version it is made under. */
  function IdentifierOf(e: Event): string
    requires Admission(e)
  {
    match e
    case SessionStart(_, sessionId) => sessionId
    case SessionIsReady(threadId, _, _) => threadId
    case TurnStart(_, turnId) => turnId
    case TurnRunning(providerTurnId, _) => providerTurnId
  }

  function VersionOf(s: State, e: Event): Option<string>
    requires Admission(e)
  {
    if e.SessionStart? then Some(e.consentVersion)
    else if s.session.Some? then Some(s.session.value.consentVersion)
    else None
  }

  predicate WrongVersion(s: State, version: string) {
    !ValidConsentVersion(version) || s.consent.version != Some(version)
  }

  /** The session, the turn or the new identifier that the event names is not one it can be about. */
  predicate NamesNothing(s: State, e: Event) {
    match e
    case SessionStart(_, sessionId) => !ValidResourceId(sessionId)
    case SessionIsReady(threadId, _, sessionId) =>
      !Current(s, sessionId, {SessionStarting}) || !ValidResourceId(threadId)
    case SessionFail(sessionId) => !Current(s, sessionId, {SessionStarting})
    case SessionClose(sessionId) => !Current(s, sessionId, {SessionStarting, SessionReady, ContextLost})
    case TurnStart(sessionId, turnId) => !Current(s, sessionId, {SessionReady}) || !ValidResourceId(turnId)
    case TurnRunning(providerTurnId, turnId) =>
      s.session.None? || !ValidResourceId(providerTurnId) || !CurrentTurn(s, turnId, {Starting})
    case TurnInterrupt(turnId) => !CurrentTurn(s, turnId, {Starting, Running})
    case TurnFinish(_, turnId) => !CurrentTurn(s, turnId, {Starting, Running, Interrupting})
    case _ => false
  }

  /** The event comes at a time when it cannot. */
  predicate OutOfTurn(s: State, e: Event) {
    match e
    case ConsentLoaded(_, _) => s.consent.status != Unknown || LiveSession(s.session)
    case ConsentGranted(_) => s.consent.status in {Granted, RevokePending}
    case ConsentRevokePending(_) => s.consent.status != Granted
    case ConsentRevoked(_) => s.consent.status != RevokePending
    case SessionStart(_, _) =>
      s.host != HostReady || s.appServer != AppReady || (s.session.Some? && s.session.value.status != Closed)
    case SessionClose(_) => ActiveTurn(s.turn)
    case TurnStart(_, _) => ActiveTurn(s.turn)
    case _ => e.HostChanged? || e.AppServerChanged? || e.AuthChanged?
  }

  predicate HasDefect(s: State, e: Event, code: ErrorCode) {
    match code
    case AuthenticationRequired => Admission(e) && s.auth != Authenticated
    case ConsentRequired => Admission(e) && s.consent.status != Granted
    case ConsentVersionMismatch =>
      || ((e.ConsentLoaded? || e.ConsentGranted?) && !ValidConsentVersion(e.version))
      || ((e.ConsentRevokePending? || e.ConsentRevoked?) && WrongVersion(s, e.version))
      || (Admission(e) && VersionOf(s, e).Some? && WrongVersion(s, VersionOf(s, e).value))
    case IdentifierExhausted => Admission(e) && !HasRoom(s)
    case IdentifierReused => Admission(e) && exists i | 0 <= i < |s.issued| :: s.issued[i].id == IdentifierOf(e)
    case InvalidStateTransition => OutOfTurn(s, e)
    case ResourceNotFound => NamesNothing(s, e)
  }

  lemma SeenBefore(s: State, id: string)
    requires IssuedKind(s.issued, id).Some?
    ensures exists i | 0 <= i < |s.issued| :: s.issued[i].id == id
  {
    var found := IssuedKind(s.issued, id);
    var i :| 0 <= i < |s.issued| && s.issued[i] == IssuedId(id, found.value);
  }

  lemma AdmissionRefusalIsTrue(s: State, e: Event)
    requires Admission(e) && Reduce(s, e).Err?
    ensures HasDefect(s, e, Reduce(s, e).error)
  {
    if IssuedKind(s.issued, IdentifierOf(e)).Some? {
      SeenBefore(s, IdentifierOf(e));
    }
  }

  /** The code with which an event is refused names a defect that the event has. */
  lemma RefusalIsTrue(s: State, e: Event)
    requires Reduce(s, e).Err?
    ensures HasDefect(s, e, Reduce(s, e).error)
  {
    if Admission(e) {
      AdmissionRefusalIsTrue(s, e);
    } else if e.ConsentGranted? {
      var status := s.consent.status;
      assert status.Unknown? || status.Granted? || status.RevokePending? || status.Revoked?;
    }
  }
}
