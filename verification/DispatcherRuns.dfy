/** Whole runs of the dispatcher under any interleaving: at most one call is in flight, no call identifier reaches
    the API twice in a session, every result stays available, and the budgets hold. */
module DispatcherRuns {
  import opened Wrappers
  import opened Identifiers
  import opened DispatcherRules

  /** A suspended dispatch has been admitted, may then reach the API, and is settled at last. */
  datatype Phase = Admitted | AtApi | Settled(reachedApi: bool, outcome: Outcome, answer: Answer)

  datatype CallRecord = CallRecord(frame: Frame, phase: Phase)

  /** The dispatcher and, as history, every dispatch that got past the guards. */
  datatype Sys = Sys(d: Dispatcher, calls: seq<CallRecord>)

  datatype Step =
    | DoStartSession(binding: SessionBinding)
    | DoStartTurn(providerTurnId: string)
    | DoInterrupt
    | DoFinishTurn
    | DoCloseSession
    | DoAbandon
    | DoBegin(call: ToolCall, verdict: Verdict)
    | DoReachApi(i: nat)
    | DoSettle(i: nat, outcome: Outcome)

  const INITIAL_SYS := Sys(INITIAL_DISPATCHER, [])

  function OrSame(d: Dispatcher, r: Result<Dispatcher, DispatchError>): Dispatcher {
    if r.Ok? then r.value else d
  }

  /** Before the API is reached only a denied consent can end a call; afterwards anything can. */
  predicate MaySettle(phase: Phase, outcome: Outcome) {
    phase.AtApi? || (phase.Admitted? && outcome.ConsentDenied?)
  }

  function Next(s: Sys, step: Step): Sys {
    match step
    case DoStartSession(b) => s.(d := OrSame(s.d, StartSession(s.d, b)))
    case DoStartTurn(id) => s.(d := OrSame(s.d, StartTurn(s.d, id)))
    case DoInterrupt => s.(d := InterruptTurn(s.d))
    case DoFinishTurn => s.(d := OrSame(s.d, FinishTurn(s.d)))
    case DoCloseSession => s.(d := OrSame(s.d, CloseSession(s.d)))
    case DoAbandon => s.(d := AbandonSession(s.d))
    case DoBegin(call, verdict) =>
      var (d, begun) := Begin(s.d, call, verdict);
      Sys(d, if begun.Suspended? then s.calls + [CallRecord(begun.frame, Admitted)] else s.calls)
    case DoReachApi(i) =>
      if i < |s.calls| && s.calls[i].phase.Admitted? then s.(calls := s.calls[i := s.calls[i].(phase := AtApi)]) else s
    case DoSettle(i, outcome) =>
      if i < |s.calls| && MaySettle(s.calls[i].phase, outcome) then
        var (d, answer) := Finish(s.d, s.calls[i].frame, outcome);
        Sys(d, s.calls[i := s.calls[i].(phase := Settled(s.calls[i].phase.AtApi?, outcome, answer))])
      else s
  }

  function Run(s: Sys, steps: seq<Step>): Sys
    decreases |steps|
  {
    if steps == [] then s else Run(Next(s, steps[0]), steps[1..])
  }

  // ---------------------------------------------------------------- what is counted

  /** One budget: the calls of one kind in one session, or in one turn. */
  datatype Budget = OfSession(session: nat, isProposal: bool) | OfTurn(turn: nat, isProposal: bool)

  predicate InScope(r: CallRecord, b: Budget) {
    match b
    case OfSession(serial, _) => r.frame.session.serial == serial
    case OfTurn(serial, _) => r.frame.turnSerial == serial
  }

  /** A reservation counts unless the API answered `invalid_request`. */
  predicate Charged(r: CallRecord) {
    !(r.phase.Settled? && r.phase.outcome.ApiError? && r.phase.outcome.code == ApiInvalidRequest)
  }

  function Charges(calls: seq<CallRecord>, b: Budget): nat {
    if calls == [] then 0
    else Charges(calls[..|calls| - 1], b) + Charge(calls[|calls| - 1], b)
  }

  function Charge(r: CallRecord, b: Budget): nat {
    if InScope(r, b) && r.frame.isProposal == b.isProposal && Charged(r) then 1 else 0
  }

  function OutputBytes(calls: seq<CallRecord>, b: Budget): nat {
    if calls == [] then 0
    else OutputBytes(calls[..|calls| - 1], b) + Output(calls[|calls| - 1], b)
  }

  function Output(r: CallRecord, b: Budget): nat {
    if InScope(r, b) && r.phase.Settled? && r.phase.answer.Success? then r.phase.answer.bytes else 0
  }

  predicate ReachedApi(r: CallRecord) {
    r.phase.AtApi? || (r.phase.Settled? && r.phase.reachedApi)
  }

  // ---------------------------------------------------------------- the invariant

  predicate InFlight(r: CallRecord) {
    !r.phase.Settled?
  }

  /** Only the newest call can be in flight, and it is exactly while the flag is up. */
  predicate FlightInv(s: Sys) {
    && (forall i | 0 <= i < |s.calls| - 1 :: !InFlight(s.calls[i]))
    && (s.d.activeCall <==> |s.calls| > 0 && InFlight(s.calls[|s.calls| - 1]))
    // the session and turn of the call in flight are the current ones, unless they were abandoned
    && (s.d.activeCall ==>
          || StillCurrent(s.d, s.calls[|s.calls| - 1].frame)
          || (s.d.session.None? && s.d.turn.None?))
  }

  predicate SerialInv(s: Sys) {
    && (s.d.turn.Some? ==> s.d.session.Some? && s.d.turn.value.serial == s.d.turnsStarted)
    && (s.d.session.Some? ==> s.d.session.value.serial == s.d.sessionsStarted)
    && (forall i | 0 <= i < |s.calls| ::
          s.calls[i].frame.session.serial <= s.d.sessionsStarted && s.calls[i].frame.turnSerial <= s.d.turnsStarted)
  }

  /** The call belongs to the session that is open now. */
  predicate OfOpenSession(s: Sys, r: CallRecord) {
    s.d.session.Some? && r.frame.session.serial == s.d.session.value.serial
  }

  /** In the open session every settled call is in the ledger with its answer, a call in flight is not in it yet,
      and there is room for it. */
  predicate LedgerInv(s: Sys) {
    && |s.d.ledger| <= MAX_LEDGER_ENTRIES
    && (s.d.activeCall ==> |s.d.ledger| < MAX_LEDGER_ENTRIES)
    && (forall i | 0 <= i < |s.calls| && OfOpenSession(s, s.calls[i]) ::
          if InFlight(s.calls[i]) then s.calls[i].frame.callId !in s.d.ledger
          else s.calls[i].frame.callId in s.d.ledger
               && s.d.ledger[s.calls[i].frame.callId] == LedgerEntry(s.calls[i].frame.digest, s.calls[i].phase.answer))
    && (forall i, j | 0 <= i < j < |s.calls| && s.calls[i].frame.session.serial == s.calls[j].frame.session.serial ::
          s.calls[i].frame.callId != s.calls[j].frame.callId)
  }

  predicate UsageIs(u: Usage, calls: seq<CallRecord>, proposals: Budget, readings: Budget) {
    && u.proposals == Charges(calls, proposals)
    && u.readings == Charges(calls, readings)
    && u.outputBytes == OutputBytes(calls, readings)
  }

  predicate Below(a: Usage, b: Usage) {
    a.proposals <= b.proposals && a.readings <= b.readings && a.outputBytes <= b.outputBytes
  }

  predicate UsageInv(s: Sys) {
    && Below(s.d.turnUsage, s.d.sessionUsage)
    && (if s.d.session.Some? then
          UsageIs(s.d.sessionUsage, s.calls, OfSession(s.d.session.value.serial, true),
                  OfSession(s.d.session.value.serial, false))
        else s.d.sessionUsage == EMPTY_USAGE)
    && (if s.d.turn.Some? then
          UsageIs(s.d.turnUsage, s.calls, OfTurn(s.d.turn.value.serial, true), OfTurn(s.d.turn.value.serial, false))
        else s.d.turnUsage == EMPTY_USAGE)
  }

  /** Limits over the whole history, for every session and every turn there ever was. */
  ghost predicate LimitInv(s: Sys) {
    && (forall k: nat, p: bool :: Charges(s.calls, OfSession(k, p)) <= SessionLimit(p))
    && (forall k: nat, p: bool :: Charges(s.calls, OfTurn(k, p)) <= TurnLimit(p))
    && (forall k: nat, p: bool :: OutputBytes(s.calls, OfSession(k, p)) <= SESSION_OUTPUT_LIMIT)
    && (forall k: nat, p: bool :: OutputBytes(s.calls, OfTurn(k, p)) <= TURN_OUTPUT_LIMIT)
  }

  ghost predicate Inv(s: Sys) {
    FlightInv(s) && SerialInv(s) && LedgerInv(s) && UsageInv(s) && LimitInv(s)
  }

  // ---------------------------------------------------------------- counting lemmas

  lemma {:induction false} FreshScopeIsEmpty(calls: seq<CallRecord>, b: Budget)
    requires forall i | 0 <= i < |calls| :: !InScope(calls[i], b)
    ensures Charges(calls, b) == 0 && OutputBytes(calls, b) == 0
    decreases |calls|
  {
    if calls != [] {
      FreshScopeIsEmpty(calls[..|calls| - 1], b);
    }
  }

  lemma AppendCounts(calls: seq<CallRecord>, r: CallRecord, b: Budget)
    ensures Charges(calls + [r], b) == Charges(calls, b) + Charge(r, b)
    ensures OutputBytes(calls + [r], b) == OutputBytes(calls, b) + Output(r, b)
  {
    assert (calls + [r])[..|calls + [r]| - 1] == calls;
  }

  lemma LastCounts(calls: seq<CallRecord>, r: CallRecord, b: Budget)
    requires |calls| > 0
    ensures var last := |calls| - 1;
            && Charges(calls[last := r], b) == Charges(calls, b) - Charge(calls[last], b) + Charge(r, b)
            && OutputBytes(calls[last := r], b) == OutputBytes(calls, b) - Output(calls[last], b) + Output(r, b)
  {
    assert calls[|calls| - 1 := r][..|calls| - 1] == calls[..|calls| - 1];
  }

  /** The output of a scope does not depend on the kind of call the budget names. */
  lemma {:induction false} OutputIgnoresKind(calls: seq<CallRecord>, b: Budget, c: Budget)
    requires forall r :: InScope(r, b) <==> InScope(r, c)
    ensures OutputBytes(calls, b) == OutputBytes(calls, c)
    decreases |calls|
  {
    if calls != [] {
      OutputIgnoresKind(calls[..|calls| - 1], b, c);
    }
  }

  // ---------------------------------------------------------------- every step keeps the invariant

  lemma FreshBudget(s: Sys, b: Budget)
    requires SerialInv(s)
    requires if b.OfSession? then b.session > s.d.sessionsStarted else b.turn > s.d.turnsStarted
    ensures Charges(s.calls, b) == 0 && OutputBytes(s.calls, b) == 0
  {
    FreshScopeIsEmpty(s.calls, b);
  }

  predicate IsControl(step: Step) {
    !step.DoBegin? && !step.DoReachApi? && !step.DoSettle?
  }

  lemma ControlKeepsUsage(s: Sys, step: Step)
    requires Inv(s) && IsControl(step)
    ensures UsageInv(Next(s, step))
  {
    FreshBudget(s, OfSession(s.d.sessionsStarted + 1, true));
    FreshBudget(s, OfSession(s.d.sessionsStarted + 1, false));
    FreshBudget(s, OfTurn(s.d.turnsStarted + 1, true));
    FreshBudget(s, OfTurn(s.d.turnsStarted + 1, false));
  }

  lemma ControlKeepsInv(s: Sys, step: Step)
    requires Inv(s) && IsControl(step)
    ensures Inv(Next(s, step))
  {
    ControlKeepsUsage(s, step);
    assert Next(s, step).calls == s.calls;
  }

  lemma ReachingKeepsInv(s: Sys, i: nat)
    requires Inv(s)
    ensures Inv(Next(s, DoReachApi(i)))
  {
    if i < |s.calls| && s.calls[i].phase.Admitted? {
      assert i == |s.calls| - 1;
      var r := s.calls[i].(phase := AtApi);
      forall b: Budget
        ensures Charges(s.calls[i := r], b) == Charges(s.calls, b)
                && OutputBytes(s.calls[i := r], b) == OutputBytes(s.calls, b)
      {
        LastCounts(s.calls, r, b);
      }
    }
  }

  /** A call answered at once changes nothing but the correction count and the ledger, and no entry of that. */
  lemma AnsweringOnlyStores(s: Sys, call: ToolCall, verdict: Verdict)
    requires Begin(s.d, call, verdict).1.Answered?
    ensures var (d, after) := (Begin(s.d, call, verdict).0, Next(s, DoBegin(call, verdict)));
            && after == Sys(s.d.(turnCorrections := d.turnCorrections, ledger := d.ledger), s.calls)
            && (d.ledger == s.d.ledger
                || (!s.d.activeCall && call.callId !in s.d.ledger && |s.d.ledger| < MAX_LEDGER_ENTRIES
                    && d.ledger == s.d.ledger[call.callId := LedgerEntry(DigestOf(call),
                                                                         Begin(s.d, call, verdict).1.answer)]))
  {
  }

  lemma AnsweringKeepsInv(s: Sys, call: ToolCall, verdict: Verdict)
    requires Inv(s) && Begin(s.d, call, verdict).1.Answered?
    ensures Inv(Next(s, DoBegin(call, verdict)))
  {
    AnsweringOnlyStores(s, call, verdict);
  }

  /** Admitting a call raises the flag; the call is of the current session and turn and new to the ledger. */
  lemma AdmittingSuspends(s: Sys, call: ToolCall, verdict: Verdict)
    requires Inv(s) && Begin(s.d, call, verdict).1.Suspended?
    ensures var (d, f) := (Begin(s.d, call, verdict).0, Begin(s.d, call, verdict).1.frame);
            && Next(s, DoBegin(call, verdict)) == Sys(d, s.calls + [CallRecord(f, Admitted)])
            && d.activeCall && !s.d.activeCall && d.session == s.d.session && d.turn == s.d.turn && StillCurrent(d, f)
            && d.sessionsStarted == s.d.sessionsStarted && d.turnsStarted == s.d.turnsStarted
            && d.ledger == s.d.ledger && f.callId !in d.ledger && |d.ledger| < MAX_LEDGER_ENTRIES
  {
  }

  lemma AdmittingKeepsLedger(s: Sys, call: ToolCall, verdict: Verdict)
    requires Inv(s) && Begin(s.d, call, verdict).1.Suspended?
    ensures LedgerInv(Next(s, DoBegin(call, verdict)))
  {
    AdmittingSuspends(s, call, verdict);
    var after := Next(s, DoBegin(call, verdict));
    assert forall i | 0 <= i < |s.calls| :: after.calls[i] == s.calls[i];
  }

  lemma AdmittingCounts(s: Sys, f: Frame, b: Budget)
    ensures var (calls, r) := (s.calls + [CallRecord(f, Admitted)], CallRecord(f, Admitted));
            Charges(calls, b) == Charges(s.calls, b) + Charge(r, b) && OutputBytes(calls, b) == OutputBytes(s.calls, b)
  {
    AppendCounts(s.calls, CallRecord(f, Admitted), b);
  }

  lemma AdmittingReserves(s: Sys, call: ToolCall, verdict: Verdict)
    requires Begin(s.d, call, verdict).1.Suspended?
    ensures var (d, f) := (Begin(s.d, call, verdict).0, Begin(s.d, call, verdict).1.frame);
            && Used(s.d.turnUsage, f.isProposal) < TurnLimit(f.isProposal)
               && Used(s.d.sessionUsage, f.isProposal) < SessionLimit(f.isProposal)
            && d.turnUsage == WithUsed(s.d.turnUsage, f.isProposal, Used(s.d.turnUsage, f.isProposal) + 1)
            && d.sessionUsage == WithUsed(s.d.sessionUsage, f.isProposal, Used(s.d.sessionUsage, f.isProposal) + 1)
  {
  }

  lemma AdmittingKeepsUsage(s: Sys, call: ToolCall, verdict: Verdict)
    requires Inv(s) && Begin(s.d, call, verdict).1.Suspended?
    ensures UsageInv(Next(s, DoBegin(call, verdict)))
  {
    var f := Begin(s.d, call, verdict).1.frame;
    AdmittingSuspends(s, call, verdict);
    AdmittingReserves(s, call, verdict);
    var (k, n) := (s.d.session.value.serial, s.d.turn.value.serial);
    AdmittingCounts(s, f, OfSession(k, true));
    AdmittingCounts(s, f, OfSession(k, false));
    AdmittingCounts(s, f, OfTurn(n, true));
    AdmittingCounts(s, f, OfTurn(n, false));
  }

  lemma AdmittingKeepsLimits(s: Sys, call: ToolCall, verdict: Verdict)
    requires Inv(s) && Begin(s.d, call, verdict).1.Suspended?
    ensures LimitInv(Next(s, DoBegin(call, verdict)))
  {
    var f := Begin(s.d, call, verdict).1.frame;
    AdmittingSuspends(s, call, verdict);
    AdmittingReserves(s, call, verdict);
    var calls := s.calls + [CallRecord(f, Admitted)];
    forall k: nat, p: bool
      ensures Charges(calls, OfSession(k, p)) <= SessionLimit(p)
              && OutputBytes(calls, OfSession(k, p)) <= SESSION_OUTPUT_LIMIT
    {
      AdmittingCounts(s, f, OfSession(k, p));
    }
    forall k: nat, p: bool
      ensures Charges(calls, OfTurn(k, p)) <= TurnLimit(p) && OutputBytes(calls, OfTurn(k, p)) <= TURN_OUTPUT_LIMIT
    {
      AdmittingCounts(s, f, OfTurn(k, p));
    }
  }

  lemma AdmittingKeepsInv(s: Sys, call: ToolCall, verdict: Verdict)
    requires Inv(s) && Begin(s.d, call, verdict).1.Suspended?
    ensures Inv(Next(s, DoBegin(call, verdict)))
  {
    AdmittingKeepsUsage(s, call, verdict);
    AdmittingKeepsLimits(s, call, verdict);
    AdmittingKeepsLedger(s, call, verdict);
    AdmittingSuspends(s, call, verdict);
  }

  /** The record a call leaves behind. */
  function SettledRecord(s: Sys, i: nat, outcome: Outcome): CallRecord
    requires i < |s.calls|
  {
    s.calls[i].(phase := Settled(s.calls[i].phase.AtApi?, outcome, Finish(s.d, s.calls[i].frame, outcome).1))
  }

  lemma SettlingCounts(s: Sys, i: nat, outcome: Outcome, b: Budget)
    requires FlightInv(s) && i < |s.calls| && MaySettle(s.calls[i].phase, outcome)
    ensures var r := SettledRecord(s, i, outcome);
            && Charges(s.calls[i := r], b) == Charges(s.calls, b) - (Charge(s.calls[i], b) - Charge(r, b))
            && OutputBytes(s.calls[i := r], b) == OutputBytes(s.calls, b) + Output(r, b)
  {
    assert i == |s.calls| - 1;
    LastCounts(s.calls, SettledRecord(s, i, outcome), b);
  }

  predicate Released(outcome: Outcome) {
    outcome.ApiError? && outcome.code == ApiInvalidRequest
  }

  /** What finishing a call does to a usage counter. */
  function UsageAfter(u: Usage, f: Frame, outcome: Outcome, answer: Answer): Usage {
    if Released(outcome) then WithUsed(u, f.isProposal, Decrement(Used(u, f.isProposal)))
    else if answer.Success? then u.(outputBytes := u.outputBytes + answer.bytes)
    else u
  }

  lemma FinishUsage(d: Dispatcher, f: Frame, outcome: Outcome)
    ensures var (after, answer) := Finish(d, f, outcome);
            && after.session == d.session && after.turn == d.turn
            && after.turnUsage == UsageAfter(d.turnUsage, f, outcome, answer)
            && after.sessionUsage == UsageAfter(d.sessionUsage, f, outcome, answer)
            && (answer.Success? ==> StillCurrent(d, f) && !d.turn.value.aborted && !Released(outcome))
  {
  }

  lemma UsageStaysCounted(s: Sys, i: nat, outcome: Outcome, u: Usage, proposals: Budget, readings: Budget)
    requires FlightInv(s) && i < |s.calls| && MaySettle(s.calls[i].phase, outcome)
    requires UsageIs(u, s.calls, proposals, readings) && proposals.isProposal && !readings.isProposal
    requires InScope(s.calls[i], proposals) && InScope(s.calls[i], readings)
    ensures var r := SettledRecord(s, i, outcome);
            UsageIs(UsageAfter(u, s.calls[i].frame, outcome, r.phase.answer), s.calls[i := r], proposals, readings)
  {
    FinishUsage(s.d, s.calls[i].frame, outcome);
    SettlingCounts(s, i, outcome, proposals);
    SettlingCounts(s, i, outcome, readings);
  }

  lemma SettlingKeepsUsage(s: Sys, i: nat, outcome: Outcome)
    requires Inv(s) && i < |s.calls| && MaySettle(s.calls[i].phase, outcome)
    ensures UsageInv(Next(s, DoSettle(i, outcome)))
  {
    FinishUsage(s.d, s.calls[i].frame, outcome);
    if s.d.session.Some? {
      var (k, n) := (s.d.session.value.serial, s.d.turn.value.serial);
      UsageStaysCounted(s, i, outcome, s.d.sessionUsage, OfSession(k, true), OfSession(k, false));
      UsageStaysCounted(s, i, outcome, s.d.turnUsage, OfTurn(n, true), OfTurn(n, false));
    }
  }

  lemma SettlingWithinLimits(s: Sys, i: nat, outcome: Outcome, k: nat, p: bool)
    requires Inv(s) && i < |s.calls| && MaySettle(s.calls[i].phase, outcome)
    ensures var after := Next(s, DoSettle(i, outcome)).calls;
            && Charges(after, OfSession(k, p)) <= SessionLimit(p) && Charges(after, OfTurn(k, p)) <= TurnLimit(p)
            && OutputBytes(after, OfSession(k, p)) <= SESSION_OUTPUT_LIMIT
            && OutputBytes(after, OfTurn(k, p)) <= TURN_OUTPUT_LIMIT
  {
    SettlingCounts(s, i, outcome, OfSession(k, p));
    SettlingCounts(s, i, outcome, OfTurn(k, p));
    OutputIgnoresKind(s.calls, OfSession(k, p), OfSession(k, false));
    OutputIgnoresKind(s.calls, OfTurn(k, p), OfTurn(k, false));
  }

  lemma SettlingKeepsLimits(s: Sys, i: nat, outcome: Outcome)
    requires Inv(s) && i < |s.calls| && MaySettle(s.calls[i].phase, outcome)
    ensures LimitInv(Next(s, DoSettle(i, outcome)))
  {
    var after := Next(s, DoSettle(i, outcome)).calls;
    forall k: nat, p: bool
      ensures Charges(after, OfSession(k, p)) <= SessionLimit(p) && Charges(after, OfTurn(k, p)) <= TurnLimit(p)
      ensures OutputBytes(after, OfSession(k, p)) <= SESSION_OUTPUT_LIMIT
              && OutputBytes(after, OfTurn(k, p)) <= TURN_OUTPUT_LIMIT
    {
      SettlingWithinLimits(s, i, outcome, k, p);
    }
  }

  /** Settling a call ends it, keeps the session and the turn, and stores its answer. */
  lemma SettlingStores(s: Sys, i: nat, outcome: Outcome)
    requires FlightInv(s) && LedgerInv(s) && i < |s.calls| && MaySettle(s.calls[i].phase, outcome)
    ensures var (d, r) := (Next(s, DoSettle(i, outcome)).d, SettledRecord(s, i, outcome));
            && i == |s.calls| - 1 && !d.activeCall && d.session == s.d.session && d.turn == s.d.turn
            && d.sessionsStarted == s.d.sessionsStarted && d.turnsStarted == s.d.turnsStarted
            && d.ledger == s.d.ledger[r.frame.callId := LedgerEntry(r.frame.digest, r.phase.answer)]
  {
    assert i == |s.calls| - 1;
  }

  lemma SettlingKeepsLedger(s: Sys, i: nat, outcome: Outcome)
    requires Inv(s) && i < |s.calls| && MaySettle(s.calls[i].phase, outcome)
    ensures LedgerInv(Next(s, DoSettle(i, outcome)))
  {
    SettlingStores(s, i, outcome);
  }

  lemma SettlingKeepsFlight(s: Sys, i: nat, outcome: Outcome)
    requires Inv(s) && i < |s.calls| && MaySettle(s.calls[i].phase, outcome)
    ensures var after := Next(s, DoSettle(i, outcome)); FlightInv(after) && SerialInv(after)
  {
    SettlingStores(s, i, outcome);
  }

  lemma SettlingKeepsInv(s: Sys, i: nat, outcome: Outcome)
    requires Inv(s)
    ensures Inv(Next(s, DoSettle(i, outcome)))
  {
    if i < |s.calls| && MaySettle(s.calls[i].phase, outcome) {
      SettlingKeepsUsage(s, i, outcome);
      SettlingKeepsLimits(s, i, outcome);
      SettlingKeepsLedger(s, i, outcome);
      SettlingKeepsFlight(s, i, outcome);
    }
  }

  lemma NextKeepsInv(s: Sys, step: Step)
    requires Inv(s)
    ensures Inv(Next(s, step))
  {
    match step
    case DoBegin(call, verdict) =>
      if Begin(s.d, call, verdict).1.Answered? {
        AnsweringKeepsInv(s, call, verdict);
      } else {
        AdmittingKeepsInv(s, call, verdict);
      }
    case DoReachApi(i) => ReachingKeepsInv(s, i);
    case DoSettle(i, outcome) => SettlingKeepsInv(s, i, outcome);
    case _ => ControlKeepsInv(s, step);
  }

  lemma {:induction false} RunKeepsInv(s: Sys, steps: seq<Step>)
    requires Inv(s)
    ensures Inv(Run(s, steps))
    decreases |steps|
  {
    if steps != [] {
      NextKeepsInv(s, steps[0]);
      RunKeepsInv(Next(s, steps[0]), steps[1..]);
    }
  }

  // ---------------------------------------------------------------- at most once

  function Reach(steps: seq<Step>): Sys {
    Run(INITIAL_SYS, steps)
  }

  lemma ReachableInv(steps: seq<Step>)
    ensures Inv(Reach(steps))
  {
    assert Inv(INITIAL_SYS);
    RunKeepsInv(INITIAL_SYS, steps);
  }

  /** Under any interleaving at most one call is in flight, and no call identifier reaches the API twice in one
      session. */
  lemma AtMostOnceAtApi(steps: seq<Step>, i: nat, j: nat)
    requires i < j < |Reach(steps).calls|
    ensures var calls := Reach(steps).calls;
            && !(InFlight(calls[i]) && InFlight(calls[j]))
            && (ReachedApi(calls[i]) && ReachedApi(calls[j])
                && calls[i].frame.session.serial == calls[j].frame.session.serial
                ==> calls[i].frame.callId != calls[j].frame.callId)
  {
    ReachableInv(steps);
  }

  /** A repeat of a settled call gets the stored answer, a contradicting one is refused, and neither changes
      anything. */
  lemma RepeatGetsStoredAnswer(steps: seq<Step>, i: nat, call: ToolCall, verdict: Verdict)
    requires var s := Reach(steps);
             && i < |s.calls| && s.calls[i].phase.Settled? && OfOpenSession(s, s.calls[i])
             && call.callId == s.calls[i].frame.callId && ValidResourceId(call.callId) && Addressed(s.d, call)
    ensures var s := Reach(steps);
            Begin(s.d, call, verdict)
              == (s.d, Answered(if DigestOf(call) == s.calls[i].frame.digest then s.calls[i].phase.answer
                                                         else Failure(Contradiction, true)))
  {
    ReachableInv(steps);
  }

  /** The answer of an admitted call is stored when it settles, however it settles; the ledger is never too full for
      it. */
  lemma SettledAnswerIsStored(steps: seq<Step>, i: nat, outcome: Outcome)
    requires var s := Reach(steps); i < |s.calls| && MaySettle(s.calls[i].phase, outcome)
    ensures var s := Reach(steps);
            var (d, answer) := Finish(s.d, s.calls[i].frame, outcome);
            && s.calls[i].frame.callId in d.ledger
            && d.ledger[s.calls[i].frame.callId] == LedgerEntry(s.calls[i].frame.digest, answer)
            && !d.activeCall
  {
    ReachableInv(steps);
  }

  /** Every call that gets past the guards without reaching the API is stored with its refusal as well. */
  lemma RefusalIsStored(d: Dispatcher, call: ToolCall, verdict: Verdict)
    requires Addressed(d, call) && ValidResourceId(call.callId) && call.callId !in d.ledger
    requires |d.ledger| < MAX_LEDGER_ENTRIES && !d.activeCall
    ensures var (after, begun) := Begin(d, call, verdict);
            if begun.Suspended? then after.activeCall && begun.frame.digest == DigestOf(call)
              && StillCurrent(after, begun.frame)
            else call.callId in after.ledger && after.ledger[call.callId] == LedgerEntry(DigestOf(call), begun.answer)
  {
  }

  lemma SessionsAreNumbered(s: Sys, step: Step)
    ensures s.d.sessionsStarted <= Next(s, step).d.sessionsStarted
    ensures var session := Next(s, step).d.session;
            session == s.d.session || session == None || session.value.serial > s.d.sessionsStarted
  {
    if step.DoSettle? && step.i < |s.calls| {
      FinishUsage(s.d, s.calls[step.i].frame, step.outcome);
    }
  }

  /** A closed session is gone for good: its serial number never comes back. */
  lemma {:induction false} ClosedSessionStaysClosed(s: Sys, steps: seq<Step>, serial: nat)
    requires serial <= s.d.sessionsStarted
    requires !(s.d.session.Some? && s.d.session.value.serial == serial)
    ensures var end := Run(s, steps).d; !(end.session.Some? && end.session.value.serial == serial)
    decreases |steps|
  {
    if steps != [] {
      SessionsAreNumbered(s, steps[0]);
      ClosedSessionStaysClosed(Next(s, steps[0]), steps[1..], serial);
    }
  }

  lemma NextKeepsEntries(s: Sys, step: Step, callId: string)
    requires Inv(s) && callId in s.d.ledger && s.d.session.Some? && Next(s, step).d.session == s.d.session
    ensures callId in Next(s, step).d.ledger && Next(s, step).d.ledger[callId] == s.d.ledger[callId]
  {
    match step
    case DoSettle(i, outcome) =>
      if i < |s.calls| && MaySettle(s.calls[i].phase, outcome) { SettlingStores(s, i, outcome); }
    case DoBegin(call, verdict) =>
      if Begin(s.d, call, verdict).1.Answered? {
        AnsweringOnlyStores(s, call, verdict);
      } else {
        AdmittingSuspends(s, call, verdict);
      }
    case _ =>
  }

  /** While a session stays open no ledger entry is lost or overwritten, so an answer once given never changes. */
  lemma {:induction false} EntriesAreFinal(s: Sys, steps: seq<Step>, callId: string)
    requires Inv(s) && callId in s.d.ledger && s.d.session.Some? && Run(s, steps).d.session == s.d.session
    ensures callId in Run(s, steps).d.ledger && Run(s, steps).d.ledger[callId] == s.d.ledger[callId]
    decreases |steps|
  {
    if steps != [] {
      var next := Next(s, steps[0]);
      NextKeepsInv(s, steps[0]);
      if next.d.session == s.d.session {
        NextKeepsEntries(s, steps[0], callId);
        EntriesAreFinal(next, steps[1..], callId);
      } else {
        SessionsAreNumbered(s, steps[0]);
        ClosedSessionStaysClosed(next, steps[1..], s.d.session.value.serial);
      }
    }
  }

  // ---------------------------------------------------------------- interruption

  /** The turn was interrupted, or is over. */
  predicate Silenced(d: Dispatcher, turnSerial: nat) {
    turnSerial <= d.turnsStarted && (d.turn.Some? && d.turn.value.serial == turnSerial ==> d.turn.value.aborted)
  }

  lemma SilencedNext(s: Sys, step: Step, turnSerial: nat)
    requires Silenced(s.d, turnSerial)
    ensures Silenced(Next(s, step).d, turnSerial)
  {
    if step.DoSettle? && step.i < |s.calls| { FinishUsage(s.d, s.calls[step.i].frame, step.outcome); }
  }

  /** Once a turn is interrupted or finished, no call of it succeeds any more, whatever the API answers and whatever has
      happened since. */
  lemma {:induction false} InterruptedCallsNeverSucceed(s: Sys, steps: seq<Step>, f: Frame, outcome: Outcome)
    requires Silenced(s.d, f.turnSerial)
    ensures !Finish(Run(s, steps).d, f, outcome).1.Success?
    decreases |steps|
  {
    if steps == [] {
      FinishUsage(s.d, f, outcome);
    } else {
      SilencedNext(s, steps[0], f.turnSerial);
      InterruptedCallsNeverSucceed(Next(s, steps[0]), steps[1..], f, outcome);
    }
  }

  /** A call succeeds exactly when the API gave data, its turn is still the current one and not interrupted, and the
      output fits both budgets; the answer carries that data. */
  lemma SuccessIsExact(d: Dispatcher, f: Frame, outcome: Outcome)
    ensures var answer := Finish(d, f, outcome).1;
            && (answer.Success? <==>
                  && outcome.ApiData? && StillCurrent(d, f) && !d.turn.value.aborted
                  && d.turnUsage.outputBytes + outcome.bytes <= TURN_OUTPUT_LIMIT
                  && d.sessionUsage.outputBytes + outcome.bytes <= SESSION_OUTPUT_LIMIT)
            && (answer.Success? ==> answer == Success(f.tool, outcome.data, f.isProposal, outcome.bytes))
  {
  }

  // ---------------------------------------------------------------- budgets

  /** Calls that the API carried out: it was reached and did not answer `invalid_request`. */
  function CarriedOut(calls: seq<CallRecord>, b: Budget): nat {
    if calls == [] then 0
    else
      var r := calls[|calls| - 1];
      CarriedOut(calls[..|calls| - 1], b)
      + (if InScope(r, b) && r.frame.isProposal == b.isProposal && ReachedApi(r) && Charged(r) then 1 else 0)
  }

  lemma {:induction false} CarriedOutIsCharged(calls: seq<CallRecord>, b: Budget)
    ensures CarriedOut(calls, b) <= Charges(calls, b)
    decreases |calls|
  {
    if calls != [] {
      CarriedOutIsCharged(calls[..|calls| - 1], b);
    }
  }

  /** Over every run and for every session and turn there ever was: at most 1 proposal and 12 readings a turn, 5 and 60
      a session, 256 KiB of successful output a turn and 1 MiB a session. */
  lemma BudgetsHold(steps: seq<Step>, serial: nat)
    ensures var calls := Reach(steps).calls;
            && CarriedOut(calls, OfTurn(serial, true)) <= 1 && CarriedOut(calls, OfSession(serial, true)) <= 5
            && CarriedOut(calls, OfTurn(serial, false)) <= 12 && CarriedOut(calls, OfSession(serial, false)) <= 60
            && OutputBytes(calls, OfTurn(serial, true)) <= 256 * 1024
            && OutputBytes(calls, OfSession(serial, true)) <= 1024 * 1024
  {
    ReachableInv(steps);
    var calls := Reach(steps).calls;
    CarriedOutIsCharged(calls, OfTurn(serial, true));
    CarriedOutIsCharged(calls, OfTurn(serial, false));
    CarriedOutIsCharged(calls, OfSession(serial, true));
    CarriedOutIsCharged(calls, OfSession(serial, false));
    assert Charges(calls, OfTurn(serial, true)) <= TurnLimit(true)
           && Charges(calls, OfTurn(serial, false)) <= TurnLimit(false);
    assert Charges(calls, OfSession(serial, true)) <= SessionLimit(true)
           && Charges(calls, OfSession(serial, false)) <= SessionLimit(false);
  }

  /** In every reachable state the counters of the open session and turn are exactly the reservations not answered
      `invalid_request`, and the turn never has more than the session. */
  lemma CountersAreReservations(steps: seq<Step>)
    ensures var s := Reach(steps);
            && Below(s.d.turnUsage, s.d.sessionUsage)
            && (s.d.session.Some? ==>
                  UsageIs(s.d.sessionUsage, s.calls, OfSession(s.d.session.value.serial, true),
                          OfSession(s.d.session.value.serial, false)))
            && (s.d.turn.Some? ==>
                  UsageIs(s.d.turnUsage, s.calls, OfTurn(s.d.turn.value.serial, true),
                          OfTurn(s.d.turn.value.serial, false)))
  {
    ReachableInv(steps);
  }

  /** Releasing a reservation clamps at zero exactly when the session was abandoned under the call. */
  lemma ClampMeansAbandoned(steps: seq<Step>, i: nat)
    requires i < |Reach(steps).calls| && InFlight(Reach(steps).calls[i])
    ensures var s := Reach(steps);
            var f := s.calls[i].frame;
            && (Used(s.d.turnUsage, f.isProposal) == 0 <==> s.d.session.None?)
            && (Used(s.d.sessionUsage, f.isProposal) == 0 <==> s.d.session.None?)
            && (s.d.session.Some? <==> StillCurrent(s.d, f))
  {
    ReachableInv(steps);
    var s := Reach(steps);
    assert i == |s.calls| - 1;
    if s.d.session.Some? {
      var f := s.calls[i].frame;
      assert Charges(s.calls, OfTurn(f.turnSerial, f.isProposal))
             >= Charge(s.calls[i], OfTurn(f.turnSerial, f.isProposal)) == 1;
      assert Charges(s.calls, OfSession(f.session.serial, f.isProposal))
             >= Charge(s.calls[i], OfSession(f.session.serial, f.isProposal)) == 1;
    }
  }
}
