/** What whole runs of the finance chat reducer guarantee: the invariant in every reachable state, the
    consent revocation barrier, and the one-way life of every turn identifier. */
module SessionRuns {
  import opened Wrappers
  import opened Identifiers
  import opened Sequences
  import opened SessionManager

  lemma ReachableStatesAreConsistent(events: seq<Event>)
    requires AllWellTyped(events)
    ensures Inv(Run(INITIAL_STATE, events))
  {
    RunKeepsInv(INITIAL_STATE, events);
  }

  lemma {:induction false} RunAppend(s: State, first: seq<Event>, second: seq<Event>)
    ensures Run(s, first + second) == Run(Run(s, first), second)
    decreases |first|
  {
    if first == [] {
      assert first + second == second;
    } else {
      assert (first + second)[1..] == first[1..] + second;
      RunAppend(Next(s, first[0]), first[1..], second);
    }
  }

  // ---------------------------------------------------------------- revocation barrier

  /** Consent that is being withdrawn or has been withdrawn. */
  predicate Barred(s: State) {
    s.consent.status in {RevokePending, Revoked}
  }

  /** The events that would let a session or a turn send data to the provider. */
  predicate Admission(e: Event) {
    e.SessionStart? || e.SessionIsReady? || e.TurnStart? || e.TurnRunning?
  }

  /** No `consent.granted` is accepted anywhere along the run. */
  predicate NoGrantAccepted(s: State, events: seq<Event>)
    decreases |events|
  {
    events != [] ==>
      !(events[0].ConsentGranted? && Reduce(s, events[0]).Ok?) && NoGrantAccepted(Next(s, events[0]), events[1..])
  }

  /** Every admission along the run is refused. */
  predicate AdmissionsRefused(s: State, events: seq<Event>)
    decreases |events|
  {
    events != [] ==>
      (Admission(events[0]) ==> Reduce(s, events[0]).Err?) && AdmissionsRefused(Next(s, events[0]), events[1..])
  }

  predicate Transmitting(turn: Option<Turn>) {
    turn.Some? && turn.value.status in {Starting, Running}
  }

  lemma BarredNext(s: State, e: Event)
    requires Inv(s) && Barred(s) && e.WellTyped() && !(e.ConsentGranted? && Reduce(s, e).Ok?)
    ensures Barred(Next(s, e)) && (Admission(e) ==> Reduce(s, e).Err?)
    ensures LiveSession(Next(s, e).session) ==> Next(s, e).session == s.session
    ensures ActiveTurn(Next(s, e).turn) ==> Next(s, e).turn == s.turn
  {
  }

  lemma {:induction false} BarredRunAdmitsNothing(s: State, events: seq<Event>)
    requires Inv(s) && Barred(s) && AllWellTyped(events) && NoGrantAccepted(s, events)
    ensures Barred(Run(s, events)) && AdmissionsRefused(s, events)
    ensures LiveSession(Run(s, events).session) ==> LiveSession(s.session) && Run(s, events).session == s.session
    ensures ActiveTurn(Run(s, events).turn) ==> ActiveTurn(s.turn) && Run(s, events).turn == s.turn
    decreases |events|
  {
    if events != [] {
      NextKeepsInv(s, events[0]);
      BarredNext(s, events[0]);
      BarredRunAdmitsNothing(Next(s, events[0]), events[1..]);
    }
  }

  /** From the moment `consent.revoke_pending` is accepted until a grant is accepted, no session starts or
      becomes ready and no turn starts or runs; what is still live is only what was live before. */
  lemma RevocationBarrier(s: State, version: string, events: seq<Event>)
    requires Inv(s) && Reduce(s, ConsentRevokePending(version)).Ok? && AllWellTyped(events)
    requires NoGrantAccepted(Next(s, ConsentRevokePending(version)), events)
    ensures var barred := Next(s, ConsentRevokePending(version));
            && AdmissionsRefused(barred, events)
            && !Transmitting(Run(barred, events).turn)
            && (ActiveTurn(Run(barred, events).turn)
                ==> ActiveTurn(s.turn) && Run(barred, events).turn.value.id == s.turn.value.id)
            && (LiveSession(Run(barred, events).session) ==> Run(barred, events).session == s.session)
  {
    var barred := Next(s, ConsentRevokePending(version));
    NextKeepsInv(s, ConsentRevokePending(version));
    BarredRunAdmitsNothing(barred, events);
  }

  // ---------------------------------------------------------------- life of a turn identifier

  const FINISHED := 4

  function StatusRank(status: TurnStatus): nat {
    match status
    case Starting => 1
    case Running => 2
    case Interrupting => 3
    case _ => FINISHED
  }

  /** How far the turn `id` has come: 0 before it is issued, `FINISHED` for good once it is over. */
  function TurnRank(s: State, id: string): nat {
    if s.turn.Some? && s.turn.value.id == id then StatusRank(s.turn.value.status)
    else if IssuedId(id, TurnId) in s.issued then FINISHED
    else 0
  }

  /** The accepted events that take a new entry of the identifier ledger; a resumed thread takes one only the first
      time. */
  predicate Issues(s: State, e: Event) {
    && Reduce(s, e).Ok?
    && (e.SessionStart? || e.TurnStart? || e.TurnRunning?
        || (e.SessionIsReady? && IssuedKind(s.issued, e.providerThreadId).None?))
  }

  lemma IssuedOnlyGrows(s: State, e: Event)
    ensures s.issued <= Next(s, e).issued
    ensures |Next(s, e).issued| == |s.issued| + if Issues(s, e) then 1 else 0
    ensures forall x | x in s.issued :: x in Next(s, e).issued
  {
    var after := Next(s, e).issued;
    assert s.issued <= after;
    forall x | x in s.issued ensures x in after {
      var i :| 0 <= i < |s.issued| && s.issued[i] == x;
      assert after[i] == x;
    }
  }

  lemma TurnEventRaisesRank(s: State, e: Event, id: string)
    requires Inv(s) && e.WellTyped() && (e.TurnStart? || e.TurnRunning? || e.TurnInterrupt? || e.TurnFinish?)
             && Reduce(s, e).Ok?
    ensures TurnRank(s, id) <= TurnRank(Next(s, e), id)
  {
    IssuedOnlyGrows(s, e);
    if e.TurnStart? && e.turnId == id {
      assert IssuedId(id, TurnId) !in s.issued;
    }
  }

  /** The other events leave the current turn in place, drop it when it is over, or take it one step towards its end. */
  lemma OtherEventOnTurn(s: State, e: Event)
    requires Inv(s) && e.WellTyped() && !(e.TurnStart? || e.TurnRunning? || e.TurnInterrupt? || e.TurnFinish?)
    ensures var (before, after) := (s.turn, Next(s, e).turn);
            || after == before
            || (e.SessionStart? && after.None? && !ActiveTurn(before))
            || (ActiveTurn(before) && after
                == Some(before.value.(status := if e.ConsentRevokePending? then Interrupting else Failed)))
  {
  }

  lemma NextRaisesTurnRank(s: State, e: Event, id: string)
    requires Inv(s) && e.WellTyped()
    ensures TurnRank(s, id) <= TurnRank(Next(s, e), id)
  {
    if e.TurnStart? || e.TurnRunning? || e.TurnInterrupt? || e.TurnFinish? {
      if Reduce(s, e).Ok? { TurnEventRaisesRank(s, e, id); }
    } else {
      IssuedOnlyGrows(s, e);
      OtherEventOnTurn(s, e);
    }
  }

  lemma FinishedNext(s: State, e: Event)
    requires Inv(s) && s.turn.Some? && !ActiveTurn(s.turn)
    ensures Next(s, e).turn.Some? && Next(s, e).turn.value.id == s.turn.value.id ==> Next(s, e).turn == s.turn
  {
  }

  lemma SupersededNext(s: State, e: Event, id: string)
    requires Inv(s) && IssuedId(id, TurnId) in s.issued && !(s.turn.Some? && s.turn.value.id == id)
    ensures !(Next(s, e).turn.Some? && Next(s, e).turn.value.id == id)
  {
  }

  /** Along every run the issued ledger only grows by appending and no turn ever goes back, so a finished
      turn identifier never becomes active again. */
  lemma {:induction false} TurnsOnlyAdvance(s: State, events: seq<Event>, id: string)
    requires Inv(s) && AllWellTyped(events)
    ensures s.issued <= Run(s, events).issued
    ensures TurnRank(s, id) <= TurnRank(Run(s, events), id)
    ensures TurnRank(s, id) == FINISHED ==> !(ActiveTurn(Run(s, events).turn) && Run(s, events).turn.value.id == id)
    decreases |events|
  {
    if events != [] {
      IssuedOnlyGrows(s, events[0]);
      NextRaisesTurnRank(s, events[0], id);
      NextKeepsInv(s, events[0]);
      TurnsOnlyAdvance(Next(s, events[0]), events[1..], id);
    }
  }

  /** A turn's final status is final: while it stays the current turn it never changes again. */
  lemma {:induction false} FinalStatusIsFinal(s: State, events: seq<Event>)
    requires Inv(s) && AllWellTyped(events) && s.turn.Some? && !ActiveTurn(s.turn)
    requires Run(s, events).turn.Some? && Run(s, events).turn.value.id == s.turn.value.id
    ensures Run(s, events).turn == s.turn
    decreases |events|
  {
    if events != [] {
      var after := Next(s, events[0]);
      var id := s.turn.value.id;
      IssuedOnlyGrows(s, events[0]);
      FinishedNext(s, events[0]);
      NextKeepsInv(s, events[0]);
      if after.turn.Some? && after.turn.value.id == id {
        FinalStatusIsFinal(after, events[1..]);
      } else {
        SupersededTurnStaysAway(after, events[1..], id);
      }
    }
  }

  lemma {:induction false} SupersededTurnStaysAway(s: State, events: seq<Event>, id: string)
    requires Inv(s) && AllWellTyped(events)
    requires IssuedId(id, TurnId) in s.issued && !(s.turn.Some? && s.turn.value.id == id)
    ensures !(Run(s, events).turn.Some? && Run(s, events).turn.value.id == id)
    decreases |events|
  {
    if events != [] {
      IssuedOnlyGrows(s, events[0]);
      SupersededNext(s, events[0], id);
      NextKeepsInv(s, events[0]);
      SupersededTurnStaysAway(Next(s, events[0]), events[1..], id);
    }
  }

  // ---------------------------------------------------------------- when a run leaves a session live

  /** The events that end whatever session is live, when they are accepted. */
  predicate EndsSession(e: Event) {
    e.SessionClose? || e.SessionFail? || e.ChildExited? || e == AppServerChanged(AppCrashed)
      || e == AuthChanged(LoggedOut)
  }

  predicate AcceptedAt(s: State, events: seq<Event>, i: nat)
    requires i < |events|
  {
    Reduce(Run(s, events[..i]), events[i]).Ok?
  }

  /** Event `i` starts a session, and none of the first `n` events ends it. */
  predicate StartsAt(s: State, events: seq<Event>, i: nat, n: nat)
    requires i < n <= |events|
  {
    && events[i].SessionStart? && AcceptedAt(s, events, i)
    && forall j | i < j < n :: !(EndsSession(events[j]) && AcceptedAt(s, events, j))
  }

  /** Within the first `n` events a `session.start` is accepted, and after it nothing that ends a session is. */
  predicate SessionStarts(s: State, events: seq<Event>, n: nat)
    requires n <= |events|
  {
    exists i | 0 <= i < n :: StartsAt(s, events, i, n)
  }

  lemma RunOneMore(s: State, events: seq<Event>, n: nat)
    requires n < |events|
    ensures Run(s, events[..n + 1]) == Next(Run(s, events[..n]), events[n])
  {
    TakeNext(events, n);
    RunAppend(s, events[..n], [events[n]]);
    assert Run(Run(s, events[..n]), [events[n]]) == Next(Run(s, events[..n]), events[n]);
  }

  lemma LiveNext(s: State, e: Event)
    requires Inv(s) && e.WellTyped()
    ensures LiveSession(Next(s, e).session) <==>
              (e.SessionStart? && Reduce(s, e).Ok?) || (LiveSession(s.session) && !(EndsSession(e) && Reduce(s, e).Ok?))
  {
  }

  lemma SessionStartsOneMore(s: State, events: seq<Event>, n: nat)
    requires n < |events|
    ensures SessionStarts(s, events, n + 1) <==>
              || (events[n].SessionStart? && AcceptedAt(s, events, n))
              || (SessionStarts(s, events, n) && !(EndsSession(events[n]) && AcceptedAt(s, events, n)))
  {
    if events[n].SessionStart? && AcceptedAt(s, events, n) {
      assert StartsAt(s, events, n, n + 1);
    } else if SessionStarts(s, events, n) && !(EndsSession(events[n]) && AcceptedAt(s, events, n)) {
      var i :| 0 <= i < n && StartsAt(s, events, i, n);
      assert StartsAt(s, events, i, n + 1);
    }
    if SessionStarts(s, events, n + 1) {
      var i :| 0 <= i < n + 1 && StartsAt(s, events, i, n + 1);
      if i < n {
        assert StartsAt(s, events, i, n);
      }
    }
  }

  /** A run that begins without a live session ends with one exactly when it starts one and does not end it again. */
  lemma {:induction false} LiveAfterRun(s: State, events: seq<Event>, n: nat)
    requires Inv(s) && AllWellTyped(events) && !LiveSession(s.session) && n <= |events|
    ensures LiveSession(Run(s, events[..n]).session) <==> SessionStarts(s, events, n)
    decreases n
  {
    if n > 0 {
      LiveAfterRun(s, events, n - 1);
      RunOneMore(s, events, n - 1);
      RunKeepsInv(s, events[..n - 1]);
      LiveNext(Run(s, events[..n - 1]), events[n - 1]);
      SessionStartsOneMore(s, events, n - 1);
    }
  }

  // ---------------------------------------------------------------- the bounded ledger

  function IssuingEvents(s: State, events: seq<Event>): nat
    decreases |events|
  {
    if events == [] then 0
    else (if Issues(s, events[0]) then 1 else 0) + IssuingEvents(Next(s, events[0]), events[1..])
  }

  lemma {:induction false} LedgerCountsIssuingEvents(s: State, events: seq<Event>)
    requires Inv(s) && AllWellTyped(events)
    ensures |Run(s, events).issued| == |s.issued| + IssuingEvents(s, events)
    ensures |s.issued| + IssuingEvents(s, events) <= MAX_ISSUED_RESOURCE_IDS
    decreases |events|
  {
    if events != [] {
      NextKeepsInv(s, events[0]);
      IssuedOnlyGrows(s, events[0]);
      LedgerCountsIssuingEvents(Next(s, events[0]), events[1..]);
    }
  }

  // ---------------------------------------------------------------- what is accepted

  predicate AllAccepted(s: State, events: seq<Event>)
    decreases |events|
  {
    events != [] ==> Reduce(s, events[0]).Ok? && AllAccepted(Next(s, events[0]), events[1..])
  }

  function Opening(version: string): seq<Event> {
    [HostChanged(HostReady), AppServerChanged(AppStarting), AppServerChanged(AppReady), AuthChanged(Authenticated),
     ConsentGranted(version)]
  }

  function Opened(version: string): State {
    State(AppReady, Authenticated, Consent(Granted, Some(version)), HostReady, [], None, None)
  }

  lemma OpeningIsAccepted(version: string)
    requires ValidConsentVersion(version)
    ensures AllAccepted(INITIAL_STATE, Opening(version)) && Run(INITIAL_STATE, Opening(version)) == Opened(version)
  {
    var s1 := Next(INITIAL_STATE, HostChanged(HostReady));
    var s2 := Next(s1, AppServerChanged(AppStarting));
    var s3 := Next(s2, AppServerChanged(AppReady));
    var s4 := Next(s3, AuthChanged(Authenticated));
    var events := Opening(version);
    assert Next(s4, ConsentGranted(version)) == Opened(version);
    assert AllAccepted(s4, events[4..]) && Run(s4, events[4..]) == Opened(version);
    assert events[3..][1..] == events[4..] && events[2..][1..] == events[3..] && events[1..][1..] == events[2..];
    assert AllAccepted(s2, events[2..]) && Run(s2, events[2..]) == Opened(version);
  }

  /** Everything a session needs in order to run turns. */
  predicate Serving(s: State) {
    && s.session.Some? && s.session.value.status == SessionReady && ValidResourceId(s.session.value.id)
    && ValidConsentVersion(s.session.value.consentVersion)
       && s.consent == Consent(Granted, Some(s.session.value.consentVersion))
    && s.auth == Authenticated
  }

  predicate Fresh(s: State, id: string) {
    ValidResourceId(id) && forall i | 0 <= i < |s.issued| :: s.issued[i].id != id
  }

  lemma RunThree(s: State, a: Event, b: Event, c: Event, one: State, two: State, three: State)
    requires Reduce(s, a) == Ok(one) && Reduce(one, b) == Ok(two) && Reduce(two, c) == Ok(three)
    ensures AllAccepted(s, [a, b, c]) && Run(s, [a, b, c]) == three
  {
    assert [a, b, c][1..] == [b, c] && [b, c][1..] == [c] && [c][1..] == [];
    assert Run(two, [c]) == three && AllAccepted(two, [c]);
    assert Run(one, [b, c]) == three && AllAccepted(one, [b, c]);
  }

  /** The barrier is not kept by refusing everything. With consent granted, the App Server ready and no open session, a
      session with fresh identifiers starts and becomes ready. */
  lemma SessionOpens(s: State, version: string, session: string, thread: string)
    requires s.host == HostReady && s.appServer == AppReady && s.auth == Authenticated
    requires ValidConsentVersion(version) && s.consent == Consent(Granted, Some(version))
    requires s.session.Some? ==> s.session.value.status == Closed
    requires Fresh(s, session) && Fresh(s, thread) && session != thread && |s.issued| + 2 <= MAX_ISSUED_RESOURCE_IDS
    ensures var started := Next(s, SessionStart(version, session));
            var ready := Next(started, SessionIsReady(thread, false, session));
            && Reduce(s, SessionStart(version, session)).Ok?
               && Reduce(started, SessionIsReady(thread, false, session)).Ok?
            && Serving(ready) && ready.turn == None && ready.session.value.providerThreadId == Some(thread)
            && ready.issued == s.issued + [IssuedId(session, SessionId)] + [IssuedId(thread, ProviderThread)]
  {
    assert IssuedKind(s.issued, session) == None;
    assert IssuedKind(s.issued + [IssuedId(session, SessionId)], thread) == None;
  }

  lemma FreshTurnStarts(s: State, turn: string)
    requires Serving(s) && !ActiveTurn(s.turn) && Fresh(s, turn) && |s.issued| < MAX_ISSUED_RESOURCE_IDS
    ensures Reduce(s, TurnStart(s.session.value.id, turn))
            == Ok(s.(turn := Some(Turn(turn, None, s.session.value.id, Starting)),
                     issued := s.issued + [IssuedId(turn, TurnId)]))
  {
    assert IssuedKind(s.issued, turn) == None;
  }

  lemma TurnFinishes(s: State, turn: string, status: TurnStatus)
    requires ActiveTurn(s.turn) && s.turn.value.id == turn && ValidResourceId(turn)
    ensures Reduce(s, TurnFinish(status, turn)) == Ok(s.(turn := Some(s.turn.value.(status := status))))
  {
  }

  lemma FreshTurnRuns(s: State, turn: string, providerTurn: string)
    requires Serving(s) && s.turn == Some(Turn(turn, None, s.session.value.id, Starting)) && ValidResourceId(turn)
    requires Fresh(s, providerTurn) && |s.issued| < MAX_ISSUED_RESOURCE_IDS
    ensures Reduce(s, TurnRunning(providerTurn, turn))
            == Ok(s.(turn := Some(Turn(turn, Some(providerTurn), s.session.value.id, Running)),
                     issued := s.issued + [IssuedId(providerTurn, ProviderTurn)]))
  {
    assert IssuedKind(s.issued, providerTurn) == None;
  }

  /** And a serving session runs a turn with fresh identifiers from start to finish. */
  lemma TurnGoesThrough(s: State, turn: string, providerTurn: string, status: TurnStatus)
    requires Serving(s) && !ActiveTurn(s.turn) && !IsActive(status)
    requires Fresh(s, turn) && Fresh(s, providerTurn) && turn != providerTurn
             && |s.issued| + 2 <= MAX_ISSUED_RESOURCE_IDS
    ensures var events := [TurnStart(s.session.value.id, turn), TurnRunning(providerTurn, turn),
                           TurnFinish(status, turn)];
            && AllAccepted(s, events)
            && Run(s, events) == s.(turn := Some(Turn(turn, Some(providerTurn), s.session.value.id, status)),
                                    issued := s.issued + [IssuedId(turn, TurnId)]
                                      + [IssuedId(providerTurn, ProviderTurn)])
  {
    var issued := s.issued + [IssuedId(turn, TurnId)];
    var started := s.(turn := Some(Turn(turn, None, s.session.value.id, Starting)), issued := issued);
    FreshTurnStarts(s, turn);
    var running := started.(turn := Some(Turn(turn, Some(providerTurn), s.session.value.id, Running)),
                            issued := issued + [IssuedId(providerTurn, ProviderTurn)]);
    FreshTurnRuns(started, turn, providerTurn);
    var finished := running.(turn := Some(Turn(turn, Some(providerTurn), s.session.value.id, status)));
    TurnFinishes(running, turn, status);
    RunThree(s, TurnStart(s.session.value.id, turn), TurnRunning(providerTurn, turn), TurnFinish(status, turn),
             started, running, finished);
  }
}
