# Chelaro finance assistant: verified model

A Dafny model of the Chelaro finance assistant: the agent host that runs a chat session with a provider, the API that
keeps workbooks and conversations, and the part of the web client that puts streamed answers together again. Each part
is modelled twice over the same state: as functions (the `...Rules` modules and `SessionManager`), about which whole
runs are proved, and, where the program changes fields in place, as a class whose methods are proved equal to those
functions. The `...Runs` modules prove what every run keeps, and the `...Outcomes` modules what each operation does:
exactly when it is accepted, what it then changes and what it leaves, and why it is refused otherwise.

| part | modules |
|---|---|
| session reducer and the service procedures over it | `SessionManager`, `SessionRuns`, `SessionOutcomes`, `ServiceRules`, `AgentService`, `ServiceRuns`, `ServiceOutcomes` |
| tool dispatcher | `DispatcherRules`, `ToolDispatcher`, `DispatcherRuns`, `DispatcherOutcomes` |
| consent journal | `ConsentRecords`, `JournalFormat`, `JournalRules`, `ConsentJournal`, `JournalRuns`, `JournalOutcomes` |
| answer stream | `StreamWire`, `ProjectorRules`, `ChatStream`, `ProjectorRuns`, `ProjectorOutcomes`, `ClientRules`, `FinanceAssistant`, `ClientOutcomes`, `EndToEnd`, `LosslessDelivery` |
| event gateway | `GatewayRules`, `FinanceGateway`, `GatewayOutcomes`, `Reconnection`, `GaplessDelivery` |
| line framer and request table | `JsonlFramer`, `FramerOutcomes`, `RpcRules`, `JsonRpcClient`, `RpcOutcomes` |
| workbook | `WorkbookRules`, `Workbooks`, `WorkbookRuns`, `WorkbookOutcomes` |
| conversations and paging | `ConversationRules`, `AssistantConversations`, `ConversationRuns`, `ConversationHistory`, `ConversationOutcomes`, `Paging`, `MessageHistory` |
| shared | `Wrappers`, `Identifiers`, `Sequences`, `Bytes`, `Base64` |

Asynchronous code is split where it awaits: one `dispatch` is a `Begin` and a `Finish`, and at each await of a
revocation other handlers take an arbitrary list of steps, which send events to the reducer or change any other field.
Every fallible outside step (the provider, the journal disk, the API, a slow subscriber) is a parameter, so each theorem
holds whichever of them fail. What the program gets from libraries is a function value with the property it is relied on
for, stated as a precondition where a proof needs it: SHA-256 (injective only in the hash-chain lemmas; hexadecimal in
the stream), the JSON text of a journal record (read back as written, free of raw newlines, at least 256 bytes for a
record under contract), strict UTF-8 decoding, canonical timestamps, and the normal form of a title.

Five promises hold only under a condition, and the model shows the other side:

* a revocation returns with a live session exactly when a session was started, and not ended, while it waited for its
  process to stop or right after its close (`ServiceRuns.RevokeLeavesSession`). That takes a grant accepted while it
  waits (`ServiceRuns.RevokedIsQuiet`), and it happens when revocations overlap
  (`ServiceRuns.OverlappingRevokeLeavesSession`): once the child's exit code is known and its streams are still open, a
  second `stop` of the process returns at once (apps/agent-host/src/codex-process.ts:158-174) while the first one waits
  for up to six seconds;
* the explicit stream cursor 0 is treated neither as a first subscription nor as one that needs a reset
  (`GatewayRules.CursorZeroLosesEvents`);
* `beginRevocation` on a legacy grant and `completeRevocation` on a legacy pending record build a record under the current
  version that the validator refuses (`JournalRuns.LegacyWithdrawalIsRefused`);
* a browser that reconnects has read the whole log only if no new connection resumes after an event of it that was not
  read (`GaplessDelivery.EverythingArrives`); such an event is never delivered (`GaplessDelivery.PassedOverIsLost`);
* a release clamps a usage counter at zero exactly when the session was abandoned under the call
  (`DispatcherRuns.ClampMeansAbandoned`).

## Model

| member | source | states |
|---|---|---|
| `SessionManager.IssuedKind` | apps/agent-host/src/session-manager.ts:377-383 | an identifier has no role exactly when it was never issued, and a role it has is the one in the ledger |
| `SessionManager.IssueKeepsLedger` | apps/agent-host/src/session-manager.ts:346-396 | issuing a fresh identifier keeps the ledger within 256 pairwise distinct entries and loses none |
| `SessionManager.NextKeepsInv` | apps/agent-host/src/session-manager.ts:119-318 | every event, accepted or refused, keeps the invariant: a live session implies a ready app server, a ready or degraded host and a login not lost; an active turn belongs to a ready session with a provider thread; a starting or running turn has consent under the session's version; all identifiers held are in the ledger under their role |
| `SessionManager.RunKeepsInv` | apps/agent-host/src/session-manager.ts:119-318 | the same along every run from any consistent state |
| `SessionRuns.ReachableStatesAreConsistent` | apps/agent-host/src/session-manager.ts:119-318 | the invariant holds in every state reachable from the initial one |
| `SessionRuns.RevocationBarrier` | apps/agent-host/src/session-manager.ts:147-167 | after an accepted revoke_pending and until an accepted grant, every session.start, session.ready, turn.start and turn.running is refused, no turn is starting or running, and what is still live is what was live before |
| `SessionRuns.BarredRunAdmitsNothing` | apps/agent-host/src/session-manager.ts:196-288 | the same from any state in which consent is being or has been withdrawn, over any run without an accepted grant |
| `SessionRuns.TurnsOnlyAdvance` | apps/agent-host/src/session-manager.ts:157-187 | the issued ledger only grows by appending, the rank of a turn never falls, and a finished turn identifier never becomes active again |
| `SessionRuns.NextRaisesTurnRank` | apps/agent-host/src/session-manager.ts:260-318 | no single event lowers the rank starting < running < interrupting < finished of any turn |
| `SessionRuns.OtherEventOnTurn` | apps/agent-host/src/session-manager.ts:290-304 | events other than turn events leave the turn, drop it when it is over, or interrupt or fail an active one |
| `SessionRuns.FinalStatusIsFinal` | apps/agent-host/src/session-manager.ts:306-318 | while a finished turn stays the current turn, no run changes it |
| `SessionRuns.SupersededTurnStaysAway` | apps/agent-host/src/session-manager.ts:260-275 | a turn identifier that was replaced never becomes the current turn again |
| `SessionRuns.LedgerCountsIssuingEvents` | apps/agent-host/src/session-manager.ts:385-396 | along every run the ledger length is the starting length plus the number of accepted issuing events, and never exceeds 256 |
| `SessionRuns.OpeningIsAccepted` | apps/agent-host/src/session-manager.ts:124-151 | the start-up events, login and grant are accepted from the initial state and lead to exactly the open state |
| `SessionRuns.SessionOpens` | apps/agent-host/src/session-manager.ts:196-247 | with consent granted and no open session, a session with fresh identifiers starts and becomes ready, and both identifiers are issued |
| `SessionRuns.TurnGoesThrough` | apps/agent-host/src/session-manager.ts:260-318 | a serving session runs a turn with fresh identifiers from start to finish, and the state afterwards is exactly this |
| `SessionRuns.LiveAfterRun` | apps/agent-host/src/session-manager.ts:119-318 | a run that begins without a live session ends with one exactly when it gets a session.start accepted and nothing accepted later in it ends that session |
| `SessionOutcomes.ConsentIsItsLastEvent` | apps/agent-host/src/session-manager.ts:142-167 | along any run consent is the status and version of the last accepted consent event, loaded with its own status, or what it was if there was none |
| `SessionOutcomes.AdmissionNeedsGrant` | apps/agent-host/src/session-manager.ts:142-288 | from the initial state, an accepted session.start, session.ready, turn.start or turn.running has before it an accepted grant, or consent loaded as granted, and no accepted consent event in between |
| `SessionOutcomes.ConsentEventsAreExact` | apps/agent-host/src/session-manager.ts:142-167 | consent is loaded exactly while it is unknown, no session is live and the version is valid; and exactly when the other three consent events are accepted |
| `SessionOutcomes.ConsentEventsTouchConsent` | apps/agent-host/src/session-manager.ts:142-167 | a consent event changes nothing but consent, except that a withdrawal interrupts an active turn |
| `SessionOutcomes.LedgerIsHistory` | apps/agent-host/src/session-manager.ts:385-396 | along any run the ledger is its start and, in order, the identifiers of the accepted events that bring a new one |
| `SessionOutcomes.SessionStartIsExact` | apps/agent-host/src/session-manager.ts:196-220 | exactly when a session starts, and the state it starts in |
| `SessionOutcomes.SessionReadyIsExact` | apps/agent-host/src/session-manager.ts:222-247 | a starting session becomes ready exactly under its own consent with a thread that is new or, if resumed, known as a thread |
| `SessionOutcomes.SessionEndsAreExact` | apps/agent-host/src/session-manager.ts:172-258 | a session fails exactly while it starts and closes exactly when it is not closed and has no active turn |
| `SessionOutcomes.TurnStartIsExact` | apps/agent-host/src/session-manager.ts:260-275 | exactly when a turn starts, and the state it starts in |
| `SessionOutcomes.TurnRunningIsExact` | apps/agent-host/src/session-manager.ts:277-288 | exactly when a started turn runs, and what it then holds |
| `SessionOutcomes.TurnEndsAreExact` | apps/agent-host/src/session-manager.ts:290-318 | a turn is interrupted exactly while it starts or runs, and finishes with the status it is told exactly while it is active |
| `SessionOutcomes.HostIsExact` | apps/agent-host/src/session-manager.ts:124-129 | exactly which host status follows which, and that stopping needs no live session |
| `SessionOutcomes.AppServerIsExact` | apps/agent-host/src/session-manager.ts:130-136 | exactly which App Server status follows which, and what a crash loses |
| `SessionOutcomes.ChildExitIsExact` | apps/agent-host/src/session-manager.ts:189-194 | the child's exit is always accepted, degrades a host that is up, and loses the context |
| `SessionOutcomes.AuthIsExact` | apps/agent-host/src/session-manager.ts:137-141 | a login status is accepted exactly when it is news, and losing the login loses the context |
| `SessionOutcomes.RefusalIsTrue` | apps/agent-host/src/session-manager.ts:119-396 | the code with which an event is refused names a defect that the event has |
| `ServiceRuns.PendingSurvives` | apps/agent-host/src/session-manager.ts:152-167 | while a revocation is pending, no run in which no revocation is completed changes consent, and none gets a grant accepted |
| `AgentService.FinanceAgentService.Transition` | apps/agent-host/src/finance-agent-service.ts:735-738 | the held state is the reducer's next state, and the error is the reducer's; everything else stays |
| `AgentService.FinanceAgentService.Interleave` | apps/agent-host/src/finance-agent-service.ts:443-476 | at an await other handlers take any steps: the state becomes the reducer's run over the events they send, every other field what they leave |
| `AgentService.FinanceAgentService.PersistFailedTurn` | apps/agent-host/src/finance-agent-service.ts:810-822 | asks the history to record the end of a turn exactly when there is a conversation and a history |
| `AgentService.FinanceAgentService.HandleFatalProcessError` | apps/agent-host/src/finance-agent-service.ts:639-655 | drops the projector, abandons the dispatcher's session, reports the child's exit unless it is known, and asks to record an active turn as failed |
| `ServiceRuns.FatalErrorEndsAll` | apps/agent-host/src/finance-agent-service.ts:639-655 | after a fatal process error nothing is live or active and the dispatcher has no session; consent and the ledger are unchanged |
| `AgentService.FinanceAgentService.InterruptTurn` | apps/agent-host/src/finance-agent-service.ts:429-441 | marks an active turn of a session with a thread, in the state and in the dispatcher, before its await |
| `ServiceRuns.InterruptIsAccepted` | apps/agent-host/src/finance-agent-service.ts:429-441 | the mark is never refused, leaves no turn starting or running, and changes neither session nor consent |
| `AgentService.FinanceAgentService.CloseSession` | apps/agent-host/src/finance-agent-service.ts:346-359 | refuses an unknown session or an active turn, asks the provider to unsubscribe only with a thread and a process, closes the dispatcher's session before its own, and leaves every failed step's state as it is |
| `ServiceRuns.ClosedMeansClosed` | apps/agent-host/src/finance-agent-service.ts:346-359 | a normal close, whatever ran while it waited, leaves the named session closed, no active turn, no conversation and no session in the dispatcher |
| `AgentService.FinanceAgentService.SyncAuth` | apps/agent-host/src/finance-agent-service.ts:657-668 | an unchanged login does nothing; a login lost under an active turn interrupts it, drops the projector, finishes or abandons it in the dispatcher and asks to record the failure; then the state follows |
| `ServiceRuns.SyncAuthIsExact` | apps/agent-host/src/finance-agent-service.ts:657-668 | is always accepted; losing the login leaves nothing live or active and no turn in the dispatcher, and any other change touches the login only |
| `AgentService.FinanceAgentService.EndTurn` | apps/agent-host/src/finance-agent-service.ts:448-457 | interrupts the turn, waits, and if it is still active ends it as interrupted, in the dispatcher too, and asks to record it |
| `AgentService.FinanceAgentService.EndSession` | apps/agent-host/src/finance-agent-service.ts:458-465 | closes an open session, and when that fails treats it as a fatal error unless its context is lost already |
| `AgentService.FinanceAgentService.StopProcess` | apps/agent-host/src/finance-agent-service.ts:468-473 | marks a ready App Server as stopping, waits for the process, drops it, and marks a stopping App Server as stopped |
| `AgentService.FinanceAgentService.RevokeConsent` | apps/agent-host/src/finance-agent-service.ts:443-476 | is the composition of these steps about which the next rows speak, and keeps the invariant |
| `ServiceRuns.BarrierIsExact` | apps/agent-host/src/finance-agent-service.ts:444-447 | the barrier goes up exactly when consent stands under the current version or is being withdrawn, and then no turn is starting or running |
| `ServiceRuns.RevokedIsQuiet` | apps/agent-host/src/finance-agent-service.ts:443-476 | if no grant is accepted while it waits, a revocation whose barrier is up ends with no live session and no active turn, whether it returns or throws, other revocations included |
| `ServiceRuns.RevokeIsExact` | apps/agent-host/src/finance-agent-service.ts:443-476 | if no other revocation is completed while it waits, it returns normally exactly when consent is granted or pending under the current version, the journal writes both records, and a process still held at the end stops |
| `ServiceRuns.NormalReturn` | apps/agent-host/src/finance-agent-service.ts:443-476 | a normal return leaves consent revoked under the current version and no process, and no controller unless another handler set one up while the process stopped |
| `ServiceRuns.SessionIsGone` | apps/agent-host/src/finance-agent-service.ts:458-465 | whatever was accepted before, no session is live after the closing step except one that was started after a normal close settled and before the revocation went on |
| `ServiceRuns.RevokeLeavesSession` | apps/agent-host/src/finance-agent-service.ts:443-476 | a normal return is not quiet exactly when a session.start was accepted, and its session not ended again, while waiting for the process to stop or, with no process to stop, right after the close |
| `ServiceRuns.SecondRevocationRuns` | apps/agent-host/src/finance-agent-service.ts:443-476 | a second revocation during the first one's wait for the process runs to its end in three steps: it drops the process, marks the App Server stopped and completes the withdrawal |
| `ServiceRuns.OverlappingRevokeLeavesSession` | apps/agent-host/src/finance-agent-service.ts:443-476 | from a reachable state, a revocation overlapped by a second one, a new grant, a new session and a third one returns normally with that session live |
| `ServiceOutcomes.RevocationEndsTurn` | apps/agent-host/src/finance-agent-service.ts:443-476 | if nothing happens to the turn at its awaits, a revocation ends the active turn as interrupted and asks the history to record exactly that turn as interrupted by "consent_revoked", or nothing without a conversation or a history; without an active turn it asks for nothing |
| `ServiceOutcomes.RevocationStopsStreaming` | apps/agent-host/src/finance-agent-service.ts:448-457 | the projector is then gone, and the dispatcher has no turn unless a call is in flight, which it has marked as interrupted |
| `ServiceOutcomes.DropTurnIsExact` | apps/agent-host/src/finance-agent-service.ts:448-457 | what ending the turn changes at once: its status, the projector, the dispatcher's turn and one request |
| `ServiceOutcomes.EndTurnIsExact` | apps/agent-host/src/finance-agent-service.ts:448-457 | the same over the two awaits around it |
| `ServiceOutcomes.MarkIsExact` | apps/agent-host/src/finance-agent-service.ts:429-441 | marking an interruption changes the status of the turn and tells the dispatcher, and no more |
| `ServiceOutcomes.FatalErrorFailsTurn` | apps/agent-host/src/finance-agent-service.ts:639-655 | a fatal process error ends the active turn as failed and asks to record exactly that with "provider_process_failed", or nothing |
| `ServiceOutcomes.LostLoginFailsTurn` | apps/agent-host/src/finance-agent-service.ts:657-668 | a login lost under an active turn ends it as failed and asks to record exactly that with "authentication_lost"; the dispatcher's session goes too exactly when a call was in flight |
| `ServiceOutcomes.CloseIsExact` | apps/agent-host/src/finance-agent-service.ts:346-359 | exactly when a session is closed normally |
| `ServiceOutcomes.StopIsExact` | apps/agent-host/src/finance-agent-service.ts:468-473 | if nobody else touches the App Server, exactly what stopping the process leaves |
| `ServiceOutcomes.CloseRefusals` | apps/agent-host/src/finance-agent-service.ts:346-359 | the reason and the state left in every other case |
| `ServiceOutcomes.RevocationRefusals` | apps/agent-host/src/finance-agent-service.ts:443-476 | a revocation that the journal does not begin, or that finds no consent to withdraw, changes nothing, and the reason; and what one that the journal does not complete leaves |
| `ToolDispatcher.FinanceToolDispatcher.StartSession` | apps/agent-host/src/finance-tool-dispatcher.ts:88-95 | opens a session only when none is open and no call is running, with empty budgets and ledger |
| `ToolDispatcher.FinanceToolDispatcher.StartTurn` | apps/agent-host/src/finance-tool-dispatcher.ts:97-105 | opens a turn only in an open session without turn or running call, with an empty turn budget |
| `ToolDispatcher.FinanceToolDispatcher.InterruptTurn` | apps/agent-host/src/finance-tool-dispatcher.ts:107-109 | marks the turn aborted and changes nothing else |
| `ToolDispatcher.FinanceToolDispatcher.FinishTurn` | apps/agent-host/src/finance-tool-dispatcher.ts:111-117 | ends a turn only when no call is running |
| `ToolDispatcher.FinanceToolDispatcher.CloseSession` | apps/agent-host/src/finance-tool-dispatcher.ts:119-126 | closes a session only without turn and running call, and forgets its ledger |
| `ToolDispatcher.FinanceToolDispatcher.AbandonSession` | apps/agent-host/src/finance-tool-dispatcher.ts:128-136 | forgets session, turn, budgets and ledger whatever is running |
| `ToolDispatcher.FinanceToolDispatcher.ReserveCall` | apps/agent-host/src/finance-tool-dispatcher.ts:208-216 | counts a call in both budgets or in neither |
| `ToolDispatcher.FinanceToolDispatcher.CorrectableFailure` | apps/agent-host/src/finance-tool-dispatcher.ts:224-242 | one correction a turn; after it the failure aborts the turn |
| `ToolDispatcher.FinanceToolDispatcher.Remember` | apps/agent-host/src/finance-tool-dispatcher.ts:263-268 | stores a result while the ledger has room |
| `ToolDispatcher.FinanceToolDispatcher.BeginDispatch` | apps/agent-host/src/finance-tool-dispatcher.ts:138-179 | the part of a dispatch before its first await, branch by branch |
| `ToolDispatcher.FinanceToolDispatcher.FinishDispatch` | apps/agent-host/src/finance-tool-dispatcher.ts:180-206 | the part after the last await: the answer, the budgets, the flag and the ledger |
| `DispatcherRuns.NextKeepsInv` | apps/agent-host/src/finance-tool-dispatcher.ts:88-268 | every step of any interleaving keeps the invariant over flag, sessions, ledger, counters and limits |
| `DispatcherRuns.RunKeepsInv` | apps/agent-host/src/finance-tool-dispatcher.ts:88-268 | the same along every run |
| `DispatcherRuns.AtMostOnceAtApi` | apps/agent-host/src/finance-tool-dispatcher.ts:138-206 | in every reachable state at most one call is in flight, and no call identifier has reached the API twice in one session |
| `DispatcherRuns.RepeatGetsStoredAnswer` | apps/agent-host/src/finance-tool-dispatcher.ts:150-156 | a repeat of a settled call gets the stored answer, one that differs is refused, and neither changes anything |
| `DispatcherRuns.SettledAnswerIsStored` | apps/agent-host/src/finance-tool-dispatcher.ts:205-206 | however an admitted call ends, its answer is stored: the ledger is never too full for it |
| `DispatcherRuns.RefusalIsStored` | apps/agent-host/src/finance-tool-dispatcher.ts:157-177 | a call refused after the guards is stored with its refusal; an admitted one raises the flag |
| `DispatcherRuns.EntriesAreFinal` | apps/agent-host/src/finance-tool-dispatcher.ts:151-156 | while a session stays open no ledger entry is lost or overwritten |
| `DispatcherRuns.ClosedSessionStaysClosed` | apps/agent-host/src/finance-tool-dispatcher.ts:88-95 | a session that was closed or abandoned is never the open one again |
| `DispatcherRuns.InterruptedCallsNeverSucceed` | apps/agent-host/src/finance-tool-dispatcher.ts:190-194 | once a turn is interrupted or over, no call of it succeeds any more, whatever the API answers and whatever happens since |
| `DispatcherRuns.SuccessIsExact` | apps/agent-host/src/finance-tool-dispatcher.ts:190-194 | a call succeeds exactly when there is data, its session and turn are still current and not aborted, and the output fits both budgets |
| `DispatcherRuns.BudgetsHold` | apps/agent-host/src/finance-tool-dispatcher.ts:208-261 | over every run and for every session and turn: at most 1 proposal and 12 reads a turn, 5 and 60 a session, 256 KiB of output a turn and 1 MiB a session |
| `DispatcherRuns.CountersAreReservations` | apps/agent-host/src/finance-tool-dispatcher.ts:208-222 | each counter is the number of reservations not answered invalid_request, output counters are the bytes of successful answers, and a turn never has more than its session |
| `DispatcherRuns.ClampMeansAbandoned` | apps/agent-host/src/finance-tool-dispatcher.ts:218-222 | a release finds a counter at zero exactly when the session was abandoned under the call |
| `DispatcherOutcomes.AdmissionIsExact` | apps/agent-host/src/finance-tool-dispatcher.ts:138-179 | in every reachable state, a call goes to the API exactly when it is for the open session and turn, its identifier is valid and new, fewer than 65 entries are stored, no call is in flight, the contract lets it through, and fewer than 1 proposal or 12 readings of the turn and 5 or 60 of the session are charged; and the answer to each other call |
| `DispatcherOutcomes.SettlementIsExact` | apps/agent-host/src/finance-tool-dispatcher.ts:180-268 | in every reachable state, each outcome of a call in flight gets exactly this answer, with its kind, its text class and whether it aborts the turn, and is stored |
| `DispatcherOutcomes.OneCorrectionATurn` | apps/agent-host/src/finance-tool-dispatcher.ts:224-242 | once the correction of a turn is used up, every later failure of that turn that could be corrected aborts it |
| `DispatcherOutcomes.CorrectionIsUsedUp` | apps/agent-host/src/finance-tool-dispatcher.ts:224-242 | the first such failure does not abort the turn and uses it up |
| `DispatcherOutcomes.CallGoesThrough` | apps/agent-host/src/finance-tool-dispatcher.ts:138-206 | an admissible call answered with data that fits, in a turn that is not interrupted, succeeds with that data |
| `DispatcherOutcomes.SessionOpensExactly` | apps/agent-host/src/finance-tool-dispatcher.ts:88-95 | in every reachable state, exactly when a session opens, with nothing stored and nothing charged |
| `DispatcherOutcomes.TurnOpensExactly` | apps/agent-host/src/finance-tool-dispatcher.ts:97-105 | in every reachable state, exactly when a turn opens, not interrupted, nothing charged and its correction unused |
| `DispatcherOutcomes.EndingsAreExact` | apps/agent-host/src/finance-tool-dispatcher.ts:107-136 | in every reachable state, exactly when a turn ends and a session closes, and what interrupting and abandoning leave |
| `ConsentRecords.ValidatorIsExact` | apps/agent-host/src/consent-journal.ts:314-350 | the validator accepts exactly the contracted, linked records that are the next step of a consent's life |
| `ConsentRecords.LegacyThenCurrent` | apps/agent-host/src/consent-journal.ts:333-350 | every accepted journal begins with a grant and is one legacy block followed by one current block |
| `ConsentRecords.WithdrawalsAreInOrder` | apps/agent-host/src/consent-journal.ts:340-350 | a withdrawal is begun only on a grant and completed only when begun, under the same version |
| `ConsentRecords.ChainIsNumbered` | apps/agent-host/src/consent-journal.ts:322-332 | the sequence numbers of an accepted journal are 1, 2, 3 and so on |
| `ConsentRecords.LastHashBindsHistory` | apps/agent-host/src/consent-journal.ts:381-393 | with an injective hash, two accepted journals with the same last hash are equal in full |
| `ConsentRecords.SameHashesSameHistory` | apps/agent-host/src/consent-journal.ts:489-491 | two accepted journals pass the comparison of hashes exactly when they are equal |
| `ConsentRecords.BuiltRecordIsValid` | apps/agent-host/src/consent-journal.ts:202-217 | a record that an append builds is right in everything, and accepted exactly when its action and version are the next step |
| `JournalFormat.ParsedIsValid` | apps/agent-host/src/consent-journal.ts:285-312 | whatever is parsed is an accepted chain |
| `JournalFormat.FewRecords` | apps/agent-host/src/consent-journal.ts:285-312 | a journal that is read has fewer records than the record limit allows: the byte limit is reached first |
| `JournalFormat.AppendParses` | apps/agent-host/src/consent-journal.ts:216-229 | appending the line of a valid next record that fits reads back as the old records and the new one |
| `JournalFormat.PrintParses` | apps/agent-host/src/consent-journal.ts:285-312 | printing a valid chain that fits and parsing it gives the chain back |
| `JournalFormat.PrefixParsesAtBoundaries` | apps/agent-host/src/consent-journal.ts:289-294 | a byte prefix of a journal is read exactly when it ends where a record ends, and then as the first records; elsewhere it is refused |
| `JournalFormat.TornLine` | apps/agent-host/src/consent-journal.ts:225-227 | a journal with part of a line at its end is refused as invalid |
| `JournalFormat.RefusalIsFinal` | apps/agent-host/src/consent-journal.ts:295-310 | the first refused line decides the result |
| `ConsentJournal.FinanceConsentJournal.ParseJournal` | apps/agent-host/src/consent-journal.ts:285-312 | the loop over the lines computes the parse of the file, stopping at the first refused line |
| `ConsentJournal.FinanceConsentJournal.LoadSnapshot` | apps/agent-host/src/consent-journal.ts:111-139 | loading reports the last record, missing for none, and revoked for any file that is refused |
| `ConsentJournal.FinanceConsentJournal.AssertGranted` | apps/agent-host/src/consent-journal.ts:141-150 | passes exactly when the journal loads as granted under the version asked for, and that is the current one |
| `ConsentJournal.FinanceConsentJournal.AppendRecord` | apps/agent-host/src/consent-journal.ts:186-236 | reads the file again, compares chains, builds, validates, checks both limits and writes; the bytes afterwards are exactly these |
| `ConsentJournal.FinanceConsentJournal.Grant` | apps/agent-host/src/consent-journal.ts:152-164 | one append, or two when a legacy withdrawal is pending |
| `ConsentJournal.FinanceConsentJournal.BeginRevocation` | apps/agent-host/src/consent-journal.ts:166-174 | one append or none |
| `ConsentJournal.FinanceConsentJournal.CompleteRevocation` | apps/agent-host/src/consent-journal.ts:176-184 | one append or none |
| `JournalRuns.AppendIsExact` | apps/agent-host/src/consent-journal.ts:186-236 | an append is accepted exactly when the record is the next step, fits both limits, and the write goes through |
| `JournalRuns.AppendReadsBack` | apps/agent-host/src/consent-journal.ts:186-236 | an accepted append is read back as the old history and the new record |
| `JournalRuns.FailedWrite` | apps/agent-host/src/consent-journal.ts:225-228 | a failed write leaves the old history, the whole new one, or a file that is refused |
| `JournalRuns.AppendExtendsWhatWasRead` | apps/agent-host/src/consent-journal.ts:198-201 | with an injective hash, an append that passes the comparison extends exactly the records the decision was taken on |
| `JournalRuns.GrantIsExact` | apps/agent-host/src/consent-journal.ts:152-164 | on every readable file granting is accepted exactly when consent neither stands nor is being withdrawn under the current version and every record it takes has room and is written: the grant, and before it the completion of a legacy withdrawal under way |
| `JournalRuns.GrantOnLegacyWithdrawal` | apps/agent-host/src/consent-journal.ts:155-159 | a pending legacy withdrawal is completed under its own version first, and the grant then follows it |
| `JournalRuns.GrantLoadsAsGranted` | apps/agent-host/src/consent-journal.ts:152-164 | an accepted grant loads as granted under the current version, one or two records later |
| `JournalRuns.BeginIsExact` | apps/agent-host/src/consent-journal.ts:166-174 | beginning a withdrawal is accepted exactly on a current grant whose write goes through, or when one is under way |
| `JournalRuns.BeginLoadsAsPending` | apps/agent-host/src/consent-journal.ts:166-174 | a withdrawal that is begun loads as pending under the next sequence number |
| `JournalRuns.CompleteIsExact` | apps/agent-host/src/consent-journal.ts:176-184 | completing is accepted exactly on a pending current withdrawal whose write goes through, or when it is complete |
| `JournalRuns.CompleteLoadsAsRevoked` | apps/agent-host/src/consent-journal.ts:176-184 | a withdrawal that is completed loads as revoked under the next sequence number |
| `JournalRuns.RepeatsChangeNothing` | apps/agent-host/src/consent-journal.ts:169-179 | repeating a withdrawal step that is done reports it and leaves the file alone |
| `JournalRuns.LegacyWithdrawalIsRefused` | apps/agent-host/src/consent-journal.ts:170-183 | on a legacy grant or pending record these two build a record that is refused, and write nothing |
| `JournalRuns.WithdrawalNeverGrants` | apps/agent-host/src/consent-journal.ts:166-184 | no step of a withdrawal, however it fails, makes consent load as granted |
| `JournalRuns.DeniedForGood` | apps/agent-host/src/consent-journal.ts:123-138 | a file that is refused loads as revoked and is never changed again by any run |
| `JournalRuns.RunOnlyAppends` | apps/agent-host/src/consent-journal.ts:186-236 | over every run the file only grows, stays within 256 KiB, and every later history extends every earlier one |
| `JournalOutcomes.LoadIsExact` | apps/agent-host/src/consent-journal.ts:111-139 | what every file loads as: without a record missing and unknown, refused as revoked, after a legacy record revoked with unsupported version, and after each current record its status, version and number |
| `JournalOutcomes.GrantedIsExact` | apps/agent-host/src/consent-journal.ts:141-150 | a version is granted exactly when it is the current one, the file is readable, and its last record is a grant under it |
| `JournalOutcomes.RefusalReasonIsExact` | apps/agent-host/src/consent-journal.ts:314-350 | exactly which refused records count as of an unsupported version and which make the journal invalid |
| `JournalOutcomes.StateRefusalsAreExact` | apps/agent-host/src/consent-journal.ts:152-184 | exactly on which histories granting, beginning and completing are refused for the state, and that the file is then left alone |
| `JournalOutcomes.OnlyGrantingGrants` | apps/agent-host/src/consent-journal.ts:111-184 | a journal that does not load as granted does not come to it by any run of withdrawals, whichever writes fail |
| `JournalOutcomes.ConsentLivesAndEnds` | apps/agent-host/src/consent-journal.ts:111-184 | from no journal at all, a grant, a begun and a completed withdrawal load as granted, pending and revoked in turn |
| `ChatStream.FinanceAssistantStreamProjector.StartMessage` | apps/agent-host/src/finance-chat-stream.ts:171-192 | numbers the next message and announces it, up to eight |
| `ChatStream.FinanceAssistantStreamProjector.Publish` | apps/agent-host/src/finance-chat-stream.ts:143-169 | starts an unseen message, refuses late or excess content, and otherwise records and emits it |
| `ChatStream.FinanceAssistantStreamProjector.EmitChunks` | apps/agent-host/src/finance-chat-stream.ts:156-168 | the offset loop emits exactly the numbered chunks of the bytes |
| `ChatStream.FinanceAssistantStreamProjector.ReceiveDelta` | apps/agent-host/src/finance-chat-stream.ts:79-85 | refuses a finished stream, another binding and a bad identifier, ignores an empty delta |
| `ChatStream.FinanceAssistantStreamProjector.CompleteItem` | apps/agent-host/src/finance-chat-stream.ts:87-106 | completes a message exactly when its parts are the given text |
| `ChatStream.FinanceAssistantStreamProjector.FinishTurn` | apps/agent-host/src/finance-chat-stream.ts:108-119 | ends the stream exactly when every message is complete, and hands out their texts and digests |
| `ChatStream.FinanceAssistantStreamProjector.PublishCompletions` | apps/agent-host/src/finance-chat-stream.ts:121-136 | emits the completions of a finished stream in order |
| `ChatStream.FinanceAssistantStreamProjector.Abort` | apps/agent-host/src/finance-chat-stream.ts:138-141 | ends the stream and forgets its messages |
| `ProjectorRuns.ChunksPassGuard` | apps/web/src/lib/finance-assistant-client.ts:409-442 | every chunk emitted passes the client's guard: 1 to 32768 bytes, at most 43692 characters |
| `ProjectorRuns.CompletionsPassGuard` | apps/web/src/lib/finance-assistant-client.ts:444-472 | every completion emitted passes the client's guard |
| `ProjectorRuns.RunKeepsInv` | apps/agent-host/src/finance-chat-stream.ts:79-192 | every run emits a well-formed log: messages start once, chunks are numbered and carry what they say, completions come last and name the length and digest of the whole content; records and budgets agree with the log |
| `ProjectorRuns.AllChunks` | apps/agent-host/src/finance-chat-stream.ts:156-168 | emitting some bytes extends the content of the message by exactly those bytes |
| `StreamWire.ChunkAt` | apps/agent-host/src/finance-chat-stream.ts:156-168 | in a well-formed log the chunk numbered k is the k-th chunk of its message |
| `StreamWire.CompletedAt` | apps/agent-host/src/finance-chat-stream.ts:121-136 | in a well-formed log a completion names the length and digest of the final content |
| `FinanceAssistant.FinanceAssistant.ApplyEvent` | apps/web/src/components/finance-assistant.tsx:129-222 | handles one event as the client does: start, next chunk in order, completion by length and digest |
| `FinanceAssistant.FinanceAssistant.SetSnapshot` | apps/web/src/components/finance-assistant.tsx:112-127 | a snapshot with a finished turn fails and drops the open streams of that turn |
| `EndToEnd.ContentSafety` | apps/web/src/components/finance-assistant.tsx:157-219 | after any projector run and any lossy in-order delivery with any snapshots and events of other turns, every buffer and text shown of the turn is a prefix of the message's canonical bytes, and a message shown complete is all of them |
| `EndToEnd.CompleteMeansTheTextGiven` | apps/agent-host/src/finance-chat-stream.ts:87-106 | once completeItem has accepted a text, every later display of that message is a prefix of it, and is it if it says complete |
| `EndToEnd.RunKeepsSeal` | apps/agent-host/src/finance-chat-stream.ts:87-169 | after an accepted completion no run changes the content of that message |
| `EndToEnd.EventKeepsFaith` | apps/web/src/components/finance-assistant.tsx:157-219 | applying any event of the log keeps what the client knows of each message in agreement with the log |
| `LosslessDelivery.NothingLost` | apps/web/src/components/finance-assistant.tsx:157-219 | when every event of a finished turn arrives, each message ends complete with exactly its canonical bytes and no stream stays open |
| `LosslessDelivery.EventMirrors` | apps/web/src/components/finance-assistant.tsx:157-219 | without loss the client shows after each event exactly what the log says so far |
| `Base64.DecodeEncode` | apps/web/src/lib/finance-assistant-client.ts:492-504 | decoding an encoding gives the bytes back, in both alphabets |
| `Base64.DecodeIsExact` | apps/web/src/lib/finance-assistant-client.ts:492-504 | a text is decoded exactly when it is full groups of the alphabet with at most two paddings at the end, into three bytes a group less the paddings |
| `Base64.SymbolCount` | apps/web/src/lib/finance-assistant-client.ts:409-442 | n bytes take 4 times the ceiling of n/3 characters (section 4 of RFC 4648) |
| `ProjectorOutcomes.ReachedDeltaIsExact` | apps/agent-host/src/finance-chat-stream.ts:79-85 | in every reachable state, told by the texts of the messages alone: a non-empty delta for an open turn is accepted exactly when its item is open, or new with fewer than 8 messages, and 512 KiB a message and 1 MiB a turn hold; then the content of its message grows by exactly its bytes and no other changes; and the error in every other case |
| `ProjectorOutcomes.CompletionIsExact` | apps/agent-host/src/finance-chat-stream.ts:87-106 | an item is completed exactly when its text so far is the text given and it is not complete yet, or it is new and its text fits; and the error and the effect in every other case |
| `ProjectorOutcomes.TextIsWhatWasGiven` | apps/agent-host/src/finance-chat-stream.ts:79-106 | over any run the text of an item is what it had and, in order, its accepted deltas, or the text of the completion that brought it |
| `ProjectorOutcomes.ContentIsWhatWasGiven` | apps/agent-host/src/finance-chat-stream.ts:79-169 | over a whole turn the content that the log carries for a message is the concatenation of its item's accepted deltas, or the text of the completion that brought it |
| `ProjectorOutcomes.FinishIsExact` | apps/agent-host/src/finance-chat-stream.ts:108-119 | a turn ends exactly when it is open and every item is complete, and answers with the texts and digests of its items in order |
| `ProjectorOutcomes.PublishingIsExact` | apps/agent-host/src/finance-chat-stream.ts:121-136 | publishing completions succeeds exactly after the end of the turn, and extends the log by one for each item, in order, with length and digest of its text |
| `ProjectorOutcomes.AbortIsFinal` | apps/agent-host/src/finance-chat-stream.ts:138-141 | nothing is emitted, accepted or remembered after an abort |
| `ClientOutcomes.StartIsExact` | apps/web/src/components/finance-assistant.tsx:157-172 | a message is started once, empty and displayed at the end |
| `ClientOutcomes.ChunkIsExact` | apps/web/src/components/finance-assistant.tsx:173-196 | the chunk that is next is appended and displayed if it carries what it says and fits 512 KiB, and else fails the message; another chunk changes nothing |
| `ClientOutcomes.CompletionIsExact` | apps/web/src/components/finance-assistant.tsx:197-219 | a completion settles a message, as complete exactly if length and digest are those of valid bytes held for it |
| `ClientOutcomes.OnlyVerifiedIsComplete` | apps/web/src/components/finance-assistant.tsx:197-219 | a display turns complete only by such a completion, and no event changes a display of another message |
| `ClientOutcomes.SnapshotIsExact` | apps/web/src/components/finance-assistant.tsx:112-127 | a snapshot whose turn is over fails and drops exactly the streams of that turn |
| `FinanceGateway.FinanceGateway.Publish` | apps/agent-host/src/finance-gateway.ts:85-106 | numbers, keeps and broadcasts an event; an oversized one destroys the subscribers and gets no number |
| `FinanceGateway.FinanceGateway.Subscribe` | apps/agent-host/src/finance-gateway.ts:189-218 | refuses the fifth subscriber, sends a reset or the events after the cursor, and adds the subscriber |
| `GatewayRules.PublishKeepsBuffer` | apps/agent-host/src/finance-gateway.ts:93-98 | the buffer stays the longest suffix of the accepted events that fits 2 MiB, with consecutive identifiers up to the newest |
| `GatewayRules.EvictKeepsLongestSuffix` | apps/agent-host/src/finance-gateway.ts:96-98 | evicting from the front leaves the longest suffix that fits |
| `GatewayRules.ResumeIsExact` | apps/agent-host/src/finance-gateway.ts:203-215 | a subscription with a cursor is sent a reset exactly when the cursor is at least 1 and an event after it is gone; it is sent a reset or exactly the accepted events after the cursor if and only if the cursor is not 0 or nothing was evicted |
| `GatewayRules.StreamsHaveNoGaps` | apps/agent-host/src/finance-gateway.ts:85-218 | over every run, an open subscription that began without a cursor, with the identifier of an event, or from 0 while nothing had been evicted, has been sent, after at most one reset, every event accepted since exactly once and in order |
| `GatewayRules.CursorZeroLosesEvents` | apps/agent-host/src/finance-gateway.ts:195-215 | the explicit cursor 0 is neither reset nor complete: a concrete history in which it loses events |
| `Reconnection.OpeningRises` | apps/agent-host/src/finance-gateway.ts:203-215 | whatever cursor it resumes from, 0 included, a subscription is sent identifiers that rise from that cursor |
| `Reconnection.ReconnectionKeepsOrder` | apps/agent-host/src/finance-gateway.ts:85-218 | over every run of the gateway with any other subscribers, an event source that resumes at the last identifier it read, however often it loses its response and whatever it left unread, reads the events of a projector in the order of its log and none twice |
| `Reconnection.ContentSafetyOverGateway` | apps/web/src/components/finance-assistant.tsx:157-272 | what a projector emits, published among other events and read over any number of connections, leaves the browser with prefixes of the messages' bytes only, and with all of them where it says complete |
| `GatewayOutcomes.PublishIsExact` | apps/agent-host/src/finance-gateway.ts:85-106 | an event of at most 80 KiB is numbered and written to every open subscription, and exactly the slow ones are dropped; a larger one is not numbered and drops all |
| `GatewayOutcomes.SubscribeIsExact` | apps/agent-host/src/finance-gateway.ts:189-218 | a subscription is let in exactly while fewer than four are open |
| `GatewayOutcomes.KeepingUpIsEnough` | apps/agent-host/src/finance-gateway.ts:85-106 | over every run, a subscriber that keeps up and stays connected stays subscribed |
| `GatewayOutcomes.NothingIsMissed` | apps/agent-host/src/finance-gateway.ts:85-218 | over every run, a regular subscriber that keeps up is sent every event published since, once and in order |
| `GaplessDelivery.EverythingArrives` | apps/agent-host/src/finance-gateway.ts:85-218 | a browser that is connected and has read what it was sent has received the whole log so far, once and in order, however often it was disconnected, if no event of the log is over 80 KiB and no new connection resumes after an event it has not read |
| `GaplessDelivery.PassedOverIsLost` | apps/agent-host/src/finance-gateway.ts:203-215 | that condition is exact: an event that a new connection resumes after is never delivered, whatever happens later |
| `GaplessDelivery.NothingLostOverGateway` | apps/web/src/components/finance-assistant.tsx:157-272 | under that condition, every message of a finished turn ends complete in the browser with exactly its canonical bytes, over any number of connections |
| `GaplessDelivery.ReadingCatchesUp` | apps/agent-host/src/finance-gateway.ts:85-218 | a browser that reads on has, after as many reads as there are frames unread, read all it was sent |
| `JsonlFramer.JsonLineFramer.PushChunk` | apps/agent-host/src/jsonl-framer.ts:34-50 | pushing a chunk computes the framing of its lines and reports a failure once |
| `JsonlFramer.JsonLineFramer.PushLines` | apps/agent-host/src/jsonl-framer.ts:39-49 | the loop over newlines from offset to offset computes that framing |
| `JsonlFramer.JsonLineFramer.Append` | apps/agent-host/src/jsonl-framer.ts:58-70 | adds a part within the limit, or fails and drops what is held |
| `JsonlFramer.JsonLineFramer.EmitCurrentFrame` | apps/agent-host/src/jsonl-framer.ts:72-88 | joins the parts, strips one carriage return, decodes and hands out the frame, or fails |
| `JsonlFramer.JsonLineFramer.FinishStream` | apps/agent-host/src/jsonl-framer.ts:52-56 | emits an unfinished last line |
| `JsonlFramer.ChunkingIndependence` | apps/agent-host/src/jsonl-framer.ts:34-88 | for every way of cutting a stream into chunks, frames and failure are those of splitting the whole stream at newlines and reading line by line up to the first bad one |
| `JsonlFramer.PushAllIsOnePush` | apps/agent-host/src/jsonl-framer.ts:34-50 | pushing chunks one after the other is pushing their concatenation |
| `JsonlFramer.LinesSplitAtNewlines` | apps/agent-host/src/jsonl-framer.ts:39-49 | the lines of a stream contain no newline, and joining them with newlines gives the stream back |
| `JsonlFramer.LinesAreUnique` | apps/agent-host/src/jsonl-framer.ts:39-49 | a stream has one way to be cut at its newlines |
| `FramerOutcomes.StreamIsExact` | apps/agent-host/src/jsonl-framer.ts:34-88 | whatever chunks a stream of lines arrives in, each line gives one frame, decoded without one carriage return at its end, up to the first line that is over the limit or does not decode, and the framer fails exactly if there is one |
| `FramerOutcomes.FramesAreUnique` | apps/agent-host/src/jsonl-framer.ts:34-88 | only one list of frames and one failure fit that description |
| `JsonRpcClient.JsonRpcClient.Request` | apps/agent-host/src/json-rpc-client.ts:129-160 | takes the next identifier, registers the request and arms its timer, or refuses |
| `JsonRpcClient.JsonRpcClient.ReceiveResponse` | apps/agent-host/src/json-rpc-client.ts:239-267 | settles the request a response names; an unknown or malformed one closes the transport |
| `JsonRpcClient.JsonRpcClient.TimerFired` | apps/agent-host/src/json-rpc-client.ts:144-149 | rejects the request whose timer fires |
| `JsonRpcClient.JsonRpcClient.WriteFailed` | apps/agent-host/src/json-rpc-client.ts:150-159 | rejects a request whose write failed if it is still pending |
| `JsonRpcClient.JsonRpcClient.Close` | apps/agent-host/src/json-rpc-client.ts:162-169 | closes once and rejects everything pending |
| `JsonRpcClient.JsonRpcClient.RejectPending` | apps/agent-host/src/json-rpc-client.ts:337-343 | the loop rejects each pending request once, oldest first, and empties the table |
| `RpcRules.ExactlyOnceSettlement` | apps/agent-host/src/json-rpc-client.ts:129-343 | over every run: identifiers are issued in increasing order, every issued request is pending or settled once and never both, at most the limit is pending, and once closed nothing is ever pending again |
| `RpcRules.ResolvedByItsOwnResponse` | apps/agent-host/src/json-rpc-client.ts:239-267 | a request is resolved only by a response with its identifier, and with that response's result |
| `RpcRules.NextKeepsInv` | apps/agent-host/src/json-rpc-client.ts:129-343 | every step keeps the table's invariant |
| `RpcOutcomes.RequestIsExact` | apps/agent-host/src/json-rpc-client.ts:129-160 | in every reachable state, a request is issued exactly when the client is open, the table has room, and method and timeout are valid; and the reason in every other case |
| `RpcOutcomes.StepSettlesExactly` | apps/agent-host/src/json-rpc-client.ts:129-343 | which step settles a pending request, and with which outcome: its own response with a result resolves it with that result |
| `RpcOutcomes.FirstEventDecides` | apps/agent-host/src/json-rpc-client.ts:129-343 | over every run a pending request stays pending until the first step that concerns it, and is then settled for good as that step says |
| `Workbooks.WorkbookService.LockInvoices` | apps/api/src/finance_os_api/services/workbooks.py:288-315 | refuses missing rows first, then the first row whose version moved on |
| `Workbooks.WorkbookService.BuildAllDiffs` | apps/api/src/finance_os_api/services/workbooks.py:398-409 | the diffs are the requested cells that differ, in request order |
| `Workbooks.WorkbookService.WriteDiffs` | apps/api/src/finance_os_api/services/workbooks.py:412-414 | writes the cells one after the other |
| `Workbooks.WorkbookService.BumpChangedRows` | apps/api/src/finance_os_api/services/workbooks.py:417-421 | moves each row with a diff one version on, once |
| `Workbooks.WorkbookService.ApplyOwnerChanges` | apps/api/src/finance_os_api/services/workbooks.py:100-148 | commits the diffs as one change set, or changes nothing |
| `Workbooks.WorkbookService.CreateProposal` | apps/api/src/finance_os_api/services/workbooks.py:150-188 | stores the diffs with the versions their rows have, and touches no row |
| `Workbooks.WorkbookService.ApproveProposal` | apps/api/src/finance_os_api/services/workbooks.py:202-273 | checks every version, then commits and marks the proposal approved, or changes nothing |
| `Workbooks.WorkbookService.RejectProposal` | apps/api/src/finance_os_api/services/workbooks.py:275-286 | marks a pending proposal rejected |
| `WorkbookRuns.NextKeepsInv` | apps/api/src/finance_os_api/services/workbooks.py:100-286 | every operation keeps the invariant over rows, ledger and proposals |
| `WorkbookRuns.LedgerTellsTable` | apps/api/src/finance_os_api/services/workbooks.py:117-138 | in every reachable state replaying the ledger gives the table, undoing it leads back to fresh rows, and a version is 1 plus the change sets touching the row |
| `WorkbookRuns.LedgerRecordsReplay` | apps/api/src/finance_os_api/services/workbooks.py:126-135 | each ledger item's before value is the one the replay has reached at that point |
| `WorkbookRuns.SameVersionSameRow` | apps/api/src/finance_os_api/services/workbooks.py:311-315 | over the ledger, a row that has the version it had is the row it was |
| `WorkbookRuns.EqualVersionMeansSameCells` | apps/api/src/finance_os_api/services/workbooks.py:233-236 | in every reachable state an item whose row has the expected version finds exactly the row the proposal was made from |
| `WorkbookRuns.ApprovalIsExact` | apps/api/src/finance_os_api/services/workbooks.py:232-246 | a pending proposal is approved exactly when each of its rows still has the expected version |
| `WorkbookRuns.ApprovalWrites` | apps/api/src/finance_os_api/services/workbooks.py:248-269 | an approval writes exactly the stored pairs of before and proposed, and moves its rows one version on |
| `WorkbookRuns.AtMostOneApproved` | apps/api/src/finance_os_api/services/workbooks.py:202-273 | of two proposals that share a row at the same version at most one is ever approved |
| `WorkbookRuns.DecisionIsFinal` | apps/api/src/finance_os_api/services/workbooks.py:317-339 | a decision is final and what a proposal shows never changes |
| `WorkbookRuns.CommitWrites` | apps/api/src/finance_os_api/services/workbooks.py:412-421 | a change set writes its cells, leaves all others, and moves exactly its rows on |
| `WorkbookRuns.OwnerEditWritesRequest` | apps/api/src/finance_os_api/services/workbooks.py:100-148 | an accepted owner edit leaves every requested cell with the requested value |
| `WorkbookRuns.OnlyRequested` | apps/api/src/finance_os_api/services/workbooks.py:398-409 | every diff is a cell of the request |
| `WorkbookOutcomes.PrepareIsExact` | apps/api/src/finance_os_api/services/workbooks.py:288-315 | a request is accepted exactly if it is well formed, its rows exist at the versions it expects, and some requested cell differs; the reason in every other case; and what is built is exactly the requested cells that differ |
| `WorkbookOutcomes.OwnerEditIsExact` | apps/api/src/finance_os_api/services/workbooks.py:100-148 | an owner edit is accepted exactly then, as one change set of exactly those cells |
| `WorkbookOutcomes.ProposalIsExact` | apps/api/src/finance_os_api/services/workbooks.py:150-188 | a proposal is accepted exactly then, is pending, and shows exactly those cells with the versions of their rows |
| `WorkbookOutcomes.DecisionsAreExact` | apps/api/src/finance_os_api/services/workbooks.py:202-339 | in every reachable state, a proposal is rejected exactly while it is pending, and the refusals of approval and rejection |
| `AssistantConversations.AssistantConversationService.UpdateConversation` | apps/api/src/finance_os_api/services/assistant_conversations.py:148-181 | renames, archives or restores under the expected version, with one event, or changes nothing |
| `AssistantConversations.AssistantConversationService.DeleteContent` | apps/api/src/finance_os_api/services/assistant_conversations.py:183-213 | removes turns, messages and binding and marks the conversation deleted |
| `AssistantConversations.AssistantConversationService.Bind` | apps/api/src/finance_os_api/services/assistant_conversations.py:251-311 | binds a thread that no other conversation has, or updates the configuration of its own |
| `AssistantConversations.AssistantConversationService.Reserve` | apps/api/src/finance_os_api/services/assistant_conversations.py:313-373 | finds the turn again, refuses a reuse, or stores prompt and turn |
| `AssistantConversations.AssistantConversationService.Check` | apps/api/src/finance_os_api/services/assistant_conversations.py:417-432 | adds up the bytes and finds the first answer that is too large or does not match its digest |
| `AssistantConversations.AssistantConversationService.NumberAnswers` | apps/api/src/finance_os_api/services/assistant_conversations.py:433-449 | the running counter numbers the answers on from the message count |
| `AssistantConversations.AssistantConversationService.Complete` | apps/api/src/finance_os_api/services/assistant_conversations.py:375-466 | completes an open turn with its answers, accepts the same again, or changes nothing |
| `AssistantConversations.AssistantConversationService.Fail` | apps/api/src/finance_os_api/services/assistant_conversations.py:468-495 | ends an open turn as interrupted or failed; a turn that is over is left alone |
| `ConversationHistory.NextKeepsInv` | apps/api/src/finance_os_api/services/assistant_conversations.py:103-495 | every operation keeps the invariant of every conversation and the uniqueness of thread bindings |
| `ConversationHistory.StoreIsConsistent` | apps/api/src/finance_os_api/services/assistant_conversations.py:148-495 | in every reachable state messages are numbered 1 to message_count, the version is 1 plus the audit events other than created and provider_bound, and no turn ended twice |
| `ConversationHistory.AnswersFormABlock` | apps/api/src/finance_os_api/services/assistant_conversations.py:433-466 | in every reachable state the answers of a completed turn are one contiguous block after its prompt, and no other turn has any |
| `ConversationHistory.CompletionIsStored` | apps/api/src/finance_os_api/services/assistant_conversations.py:433-466 | after an accepted completion the stored answers of the turn are exactly the ones given |
| `ConversationHistory.CompletionIsIdempotent` | apps/api/src/finance_os_api/services/assistant_conversations.py:387-410 | after an accepted completion, and whatever else happens, the same completion is accepted again and changes nothing, and any other is refused and changes nothing |
| `ConversationHistory.ReservationIsIdempotent` | apps/api/src/finance_os_api/services/assistant_conversations.py:322-333 | after an accepted reservation, the same conversation and prompt find the turn again and everything else is refused, without any change |
| `ConversationHistory.DeletedForGood` | apps/api/src/finance_os_api/services/assistant_conversations.py:517-535 | a deleted conversation never exists again |
| `ConversationOutcomes.CheckPassesExactly` | apps/api/src/finance_os_api/services/assistant_conversations.py:417-432 | the answers pass exactly if each has at most 512 KiB, at most 1 MiB with those before it, and the digest it claims |
| `ConversationOutcomes.CheckIsExact` | apps/api/src/finance_os_api/services/assistant_conversations.py:417-432 | otherwise the first answer that does not decides the error |
| `ConversationOutcomes.CompletionIsExact` | apps/api/src/finance_os_api/services/assistant_conversations.py:375-466 | a completion is accepted exactly for an open turn and 1 to 8 verified answers with distinct identifiers, or for a completed turn that says the same, and exactly what it then changes |
| `ConversationOutcomes.CompletionRefusals` | apps/api/src/finance_os_api/services/assistant_conversations.py:375-466 | the reason in every other case |
| `ConversationOutcomes.ReservationIsExact` | apps/api/src/finance_os_api/services/assistant_conversations.py:313-373 | exactly when a turn is reserved or found again, what a new one stores, and the reason in every other case |
| `ConversationOutcomes.FailureIsExact` | apps/api/src/finance_os_api/services/assistant_conversations.py:468-495 | an open turn ends as interrupted or failed, with one event, and nothing else changes |
| `ConversationOutcomes.CreationIsExact` | apps/api/src/finance_os_api/services/assistant_conversations.py:103-118 | a conversation starts empty, active and unbound at version 1, exactly if its title has a normal form |
| `ConversationOutcomes.UpdateIsExact` | apps/api/src/finance_os_api/services/assistant_conversations.py:148-181 | exactly when an edit is accepted, and that it changes title and status as named, with one version and one event, or nothing |
| `ConversationOutcomes.UpdateRefusals` | apps/api/src/finance_os_api/services/assistant_conversations.py:148-181 | the reason in every other case |
| `ConversationOutcomes.DeletionIsExact` | apps/api/src/finance_os_api/services/assistant_conversations.py:183-213 | what deleting leaves of a conversation, its turns and the others |
| `ConversationOutcomes.BindingIsExact` | apps/api/src/finance_os_api/services/assistant_conversations.py:251-311 | a thread is bound exactly if the conversation has it already, or has none and no other has it |
| `Paging.CursorRoundTrip` | apps/api/src/finance_os_api/services/documents.py:87-108 | every cursor made from a key of at least 1 is read back as that key, and the one made from 0 is refused (sections 3.2 and 5 of RFC 4648) |
| `Paging.DocumentsAreComplete` | apps/api/src/finance_os_api/services/documents.py:56-71 | following document cursors to the end visits every row present at the start exactly once, newest first, for any page size and any rows added between pages |
| `Paging.PageOfKeys` | apps/api/src/finance_os_api/services/documents.py:56-71 | a page is the rest, or the newest of the rest with the oldest of them as cursor |
| `Paging.MessagesAreComplete` | apps/api/src/finance_os_api/services/assistant_conversations.py:215-240 | following message cursors puts together exactly the messages present at the start, in order |
| `Paging.MessageCursorIsValid` | apps/api/src/finance_os_api/services/assistant_conversations.py:236-240 | a message cursor that is handed out is at least 2 |
| `MessageHistory.ConversationIsReadInFull` | apps/api/src/finance_os_api/services/assistant_conversations.py:215-240 | reading a reachable conversation backwards while turns are reserved and completed in between yields messages 1 to message_count as they were at the start |

## Left out

- AgentService: `createSession`, `startTurn`, `stop`, the provider and model catalogue, and notification routing; what they do is among the steps that other handlers may take at any await. A projector and a child process are held or not; the journal, the provider's answer to an unsubscription and the end of the process are outcomes that a revocation is given; requests to the history are listed, not answered.
- AgentService.FinanceAgentService.HandleFatalProcessError: the provider snapshot it sets to an error is not held.
- ServiceRuns.OverlappingRevokeLeavesSession: the second wait for the same child settling first is a fact about the process, cited above and not modelled.
- SessionManager: identifiers and versions are strings as they arrive; schema parsing of events and the snapshot sent to clients are not modelled.
- ToolDispatcher: the tool contract is a verdict on a call and an answer is its kind, data and size; the German texts, the envelope encoding, proposal correlation identifiers and an exception other than a contract error are not modelled. Session and turn objects are compared by serial numbers instead of object identity, and the call digest is the digested fields themselves.
- ConsentJournal: directories, permissions, symbolic links and file descriptors; reading and writing are one step with an optional torn tail or a failed sync. Files that are not valid UTF-8 (decoded with replacement characters by the program) are refused or read through the abstract record decoder. Names that every JavaScript object inherits are an abstract predicate.
- ChatStream: provider texts and deltas are their UTF-8 bytes; the running hash is the hash of the parts so far.
- FinanceAssistant: React state is a list of shown messages with the bytes their text was decoded from. Everything else of the component is rendering.
- FinanceAssistant.FinanceAssistant.ApplyEvent: digest checking, which settles later in the client, is one step with the completion event.
- EndToEnd: sequence numbers and sizes are unbounded naturals, which the guards bound to safe integers. That events arrive in order and none twice is proved of the gateway in `Reconnection`.
- Reconnection: the route that forwards the stream and its cursor to the browser, and a page that is loaded anew, which is a client that has not seen the turn; one projector's log among the events of other turns.
- GatewayRules.StreamsHaveNoGaps: a subscription from 0 after an eviction (see `CursorZeroLosesEvents`) and cursors the gateway never issued are outside it, and so are events that are dropped for their size.
- FinanceGateway: HTTP, authorization and headers; the content of events and of the snapshot in a reset is left to `Reconnection`.
- JsonlFramer: callbacks that throw.
- JsonRpcClient: notifications, requests from the server and the write queue; an identifier is a number and other identifier types are unknown responses.
- Workbooks: rows are keyed by one identifier, column types are one value type and the JSON columns a faithful codec; a proposal's items are read back in the order they were stored; timestamps, actors, request identifiers and the resources returned are not modelled. SQL transactions are single steps that change nothing when they fail.
- AssistantConversations: activities, proposals, listing of conversations, timestamps, actors and event details; a commit that violates a uniqueness constraint is an error that changes nothing. Title normalisation and the title made from a prompt are abstract.
- Paging.DecodeCursor: is stricter than the program on texts it never handed out: Python's decoder skips characters outside the alphabet and `int` accepts signs, spaces and underscores; on every cursor that was handed out the two agree.
- DocumentService.store: storing files and detecting duplicates; a new document only adds a workbook row and a larger key.
- Personal finance, banking, document storage, settings, migrations and the other routes: outside this model.
