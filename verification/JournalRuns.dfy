/** What the journal's operations guarantee: exactly when each is accepted, what it leaves behind when it fails, and
    that over any run the file only grows and is either read in full or denied for good. */
module JournalRuns {
  import opened Wrappers
  import opened Bytes
  import opened Sequences
  import opened ConsentRecords
  import opened JournalFormat
  import opened JournalRules

  predicate Readable(codec: Codec, file: File) {
    Parse(codec, Contents(file)).Ok?
  }

  function History(codec: Codec, file: File): seq<Record>
    requires Readable(codec, file)
  {
    Parse(codec, Contents(file)).value
  }

  /** The line fits the record limit, and the journal with it the file limit. */
  predicate HasRoom(codec: Codec, file: File, r: Record) {
    |Line(codec, r)| <= MAX_RECORD_BYTES && |Contents(file)| + |Line(codec, r)| <= MAX_JOURNAL_BYTES
  }

  predicate WritesAll(codec: Codec, r: Record, io: Io) {
    io.written >= |Line(codec, r)| && io.syncs
  }

  /** What an append needs: the record is the next step, there is room for it, and the write goes through. */
  predicate Accepts(codec: Codec, file: File, action: Action, version: string, io: Io)
    requires Readable(codec, file) && ContractOf(codec, version).Some?
  {
    var next := NextRecord(codec, History(codec, file), action, version, io.now);
    MayFollow(History(codec, file), action, version) && HasRoom(codec, file, next) && WritesAll(codec, next, io)
  }

  /** Appending is accepted exactly then, and otherwise leaves the bytes alone unless the write itself failed. */
  lemma AppendIsExact(codec: Codec, file: File, action: Action, version: string, io: Io)
    requires Readable(codec, file) && ContractOf(codec, version).Some? && codec.canonical(io.now)
    ensures var r := Append(codec, file, History(codec, file), action, version, io).1;
            r.Ok? <==> Accepts(codec, file, action, version, io)
  {
    BuiltRecordIsValid(codec, History(codec, file), action, version, io.now);
  }

  lemma AppendRefuses(codec: Codec, file: File, action: Action, version: string, io: Io)
    requires Readable(codec, file) && ContractOf(codec, version).Some? && codec.canonical(io.now)
    requires !MayFollow(History(codec, file), action, version)
    ensures Append(codec, file, History(codec, file), action, version, io)
            == (Some(Contents(file)), Err(Invalid(InvalidJournal)))
  {
    BuiltRecordIsValid(codec, History(codec, file), action, version, io.now);
  }

  /** An accepted append is read back as the old records and the new one. */
  lemma AppendReadsBack(codec: Codec, file: File, action: Action, version: string, io: Io)
    requires Faithful(codec) && Readable(codec, file) && ContractOf(codec, version).Some? && codec.canonical(io.now)
    requires Accepts(codec, file, action, version, io)
    ensures var records := History(codec, file);
            var next := NextRecord(codec, records, action, version, io.now);
            && Append(codec, file, records, action, version, io) == (Some(Contents(file) + Line(codec, next)), Ok(next))
            && ReadRecords(codec, Some(Contents(file) + Line(codec, next))) == Ok(records + [next])
  {
    BuiltRecordIsValid(codec, History(codec, file), action, version, io.now);
    AppendParses(codec, Contents(file), NextRecord(codec, History(codec, file), action, version, io.now));
  }

  lemma FailedWriteLeaves(codec: Codec, file: File, action: Action, version: string, io: Io)
    requires Readable(codec, file) && ContractOf(codec, version).Some? && codec.canonical(io.now)
    requires Append(codec, file, History(codec, file), action, version, io).1 == Err(WriteFailed)
    ensures var next := NextRecord(codec, History(codec, file), action, version, io.now);
            && MayFollow(History(codec, file), action, version) && HasRoom(codec, file, next)
            && Append(codec, file, History(codec, file), action, version, io).0
               == Some(Written(Contents(file), Line(codec, next), io.written))
  {
    BuiltRecordIsValid(codec, History(codec, file), action, version, io.now);
  }

  /** A write that fails leaves the old history, the old history and the whole new record, or a file that is denied. */
  lemma FailedWrite(codec: Codec, file: File, action: Action, version: string, io: Io)
    requires Faithful(codec) && Readable(codec, file) && ContractOf(codec, version).Some? && codec.canonical(io.now)
    requires Append(codec, file, History(codec, file), action, version, io).1 == Err(WriteFailed)
    ensures var records := History(codec, file);
            var next := NextRecord(codec, records, action, version, io.now);
            ReadRecords(codec, Append(codec, file, records, action, version, io).0)
            == if io.written == 0 then Ok(records)
               else if io.written < |Line(codec, next)| then Err(InvalidJournal)
               else Ok(records + [next])
  {
    var next := NextRecord(codec, History(codec, file), action, version, io.now);
    FailedWriteLeaves(codec, file, action, version, io);
    BuiltRecordIsValid(codec, History(codec, file), action, version, io.now);
    PartOfLine(codec, Contents(file), next, io.written);
  }

  lemma PartOfLine(codec: Codec, contents: seq<byte>, next: Record, written: nat)
    requires Faithful(codec) && Parse(codec, contents).Ok?
    requires ValidateRecord(codec, next, Last(Parse(codec, contents).value)) == None
    requires |Line(codec, next)| <= MAX_RECORD_BYTES && |contents| + |Line(codec, next)| <= MAX_JOURNAL_BYTES
    ensures Parse(codec, Written(contents, Line(codec, next), written))
         == if written == 0 then Parse(codec, contents)
            else if written < |Line(codec, next)| then Err(InvalidJournal)
            else Ok(Parse(codec, contents).value + [next])
  {
    if written == 0 {
      AppendEmpty(contents);
    } else if written < |Line(codec, next)| {
      TornLine(codec, contents, next, written);
    } else {
      AppendParses(codec, contents, next);
    }
  }

  /** A decision is taken on exactly the history it extends: if the caller's validated records pass the comparison of
      hashes, they are the records of the file. */
  lemma AppendExtendsWhatWasRead(codec: Codec, file: File, records: seq<Record>, action: Action, version: string,
          io: Io)
    requires InjectiveHash(codec) && ValidChain(codec, records) && ContractOf(codec, version).Some?
    requires Append(codec, file, records, action, version, io).1.Ok?
    ensures ReadRecords(codec, file) == Ok(records)
    ensures Append(codec, file, records, action, version, io).1
            == Ok(NextRecord(codec, records, action, version, io.now))
  {
    ParsedIsValid(codec, Contents(file));
    SameHashesSameHistory(codec, records, Parse(codec, Contents(file)).value);
  }

  // ---------------------------------------------------------------- exactly when

  /** Consent may be granted unless it stands, or is being withdrawn, under the current version. */
  predicate Grantable(records: seq<Record>) {
    records == [] || !(IsCurrent(records[|records| - 1]) && records[|records| - 1].core.action != RevokeComplete)
  }

  lemma LastIsKnown(codec: Codec, file: File)
    requires Readable(codec, file) && History(codec, file) != []
    ensures var last := History(codec, file)[|History(codec, file)| - 1]; IsLegacy(last) || IsCurrent(last)
  {
    var records := History(codec, file);
    ParsedIsValid(codec, Contents(file));
    LegacyThenCurrent(codec, records, |records| - 1, |records| - 1);
  }

  lemma SnapshotIsLoaded(codec: Codec, file: File, records: seq<Record>, r: Record)
    requires ReadRecords(codec, file) == Ok(records + [r])
    ensures Load(codec, file) == SnapshotFor(r)
  {
  }

  lemma GrantMayFollow(records: seq<Record>)
    requires records != [] ==> IsLegacy(records[|records| - 1]) || IsCurrent(records[|records| - 1])
    requires !PendingLegacy(Last(records))
    ensures MayFollow(records, Action.Grant, CURRENT_VERSION) <==> Grantable(records)
  {
  }

  lemma GrantAfterIsExact(codec: Codec, file: File, io: Io)
    requires Readable(codec, file) && codec.canonical(io.now) && !PendingLegacy(Last(History(codec, file)))
    ensures GrantAfter(codec, file, History(codec, file), io).1.Ok?
            <==> Grantable(History(codec, file)) && Accepts(codec, file, Action.Grant, CURRENT_VERSION, io)
    ensures Grantable(History(codec, file)) <==> MayFollow(History(codec, file), Action.Grant, CURRENT_VERSION)
  {
    if History(codec, file) != [] { LastIsKnown(codec, file); }
    GrantMayFollow(History(codec, file));
    AppendIsExact(codec, file, Action.Grant, CURRENT_VERSION, io);
  }

  lemma NextIsNumbered(codec: Codec, file: File, action: Action, version: string, now: string)
    requires Readable(codec, file) && ContractOf(codec, version).Some?
    ensures NextRecord(codec, History(codec, file), action, version, now).core.sequence == |History(codec, file)| + 1
  {
    var records := History(codec, file);
    ParsedIsValid(codec, Contents(file));
    if records != [] { ChainIsNumbered(codec, records, |records| - 1); }
  }

  function StatusOf(action: Action): Status {
    match action
    case Grant => Granted
    case RevokePending => Pending
    case RevokeComplete => Revoked
  }

  /** What is loaded after an accepted append under the current version. */
  lemma AppendedLoads(codec: Codec, file: File, action: Action, io: Io)
    requires Faithful(codec) && Readable(codec, file) && codec.canonical(io.now)
    requires Accepts(codec, file, action, CURRENT_VERSION, io)
    ensures var records := History(codec, file);
            var (after, r) := AppendSnapshot(codec, file, records, action, io);
            && r.Ok? && r.value == Load(codec, after)
            && r.value == Snapshot(if action == Action.Grant then None else Some(NotGranted), |records| + 1,
                                   StatusOf(action), Some(CURRENT_VERSION))
            && ReadRecords(codec, after) == Ok(records + [NextRecord(codec, records, action, CURRENT_VERSION, io.now)])
  {
    var records := History(codec, file);
    AppendReadsBack(codec, file, action, CURRENT_VERSION, io);
    NextIsNumbered(codec, file, action, CURRENT_VERSION, io.now);
    var next := NextRecord(codec, records, action, CURRENT_VERSION, io.now);
    SnapshotIsLoaded(codec, Some(Contents(file) + Line(codec, next)), records, next);
  }

  lemma GrantAfterLoads(codec: Codec, file: File, io: Io)
    requires Faithful(codec) && Readable(codec, file) && codec.canonical(io.now)
    requires GrantAfter(codec, file, History(codec, file), io).1.Ok?
    ensures var records := History(codec, file);
            var (after, r) := GrantAfter(codec, file, records, io);
            && ReadRecords(codec, after)
               == Ok(records + [NextRecord(codec, records, Action.Grant, CURRENT_VERSION, io.now)])
            && r.value == Load(codec, after) == Snapshot(None, |records| + 1, Granted, Some(CURRENT_VERSION))
  {
    AppendIsExact(codec, file, Action.Grant, CURRENT_VERSION, io);
    AppendedLoads(codec, file, Action.Grant, io);
  }

  /** A legacy withdrawal under way is completed under its own version before the grant; both records must go
      through. */
  lemma GrantOnLegacyWithdrawal(codec: Codec, file: File, first: Io, second: Io)
    requires Faithful(codec) && Readable(codec, file) && codec.canonical(first.now)
    requires PendingLegacy(Last(History(codec, file))) && Accepts(codec, file, RevokeComplete, LEGACY_VERSION, first)
    ensures var records := History(codec, file);
            var completed := NextRecord(codec, records, RevokeComplete, LEGACY_VERSION, first.now);
            var between := Some(Contents(file) + Line(codec, completed));
            && ReadRecords(codec, between) == Ok(records + [completed]) && Grantable(records + [completed])
            && GrantConsent(codec, file, first, second) == GrantAfter(codec, between, records + [completed], second)
  {
    AppendReadsBack(codec, file, RevokeComplete, LEGACY_VERSION, first);
  }

  lemma GrantNeedsLegacyCompletion(codec: Codec, file: File, first: Io, second: Io)
    requires Readable(codec, file) && codec.canonical(first.now) && PendingLegacy(Last(History(codec, file)))
    requires GrantConsent(codec, file, first, second).1.Ok?
    ensures Accepts(codec, file, RevokeComplete, LEGACY_VERSION, first)
  {
    AppendIsExact(codec, file, RevokeComplete, LEGACY_VERSION, first);
  }

  lemma PendingLegacyMayComplete(records: seq<Record>)
    requires PendingLegacy(Last(records))
    ensures MayFollow(records, RevokeComplete, LEGACY_VERSION)
  {
  }

  /** With a legacy withdrawal under way, granting is accepted exactly when the record that completes it and the grant
      after it both have room and are written. */
  lemma GrantOnLegacyIsExact(codec: Codec, file: File, first: Io, second: Io)
    requires Faithful(codec) && Readable(codec, file) && codec.canonical(first.now) && codec.canonical(second.now)
    requires PendingLegacy(Last(History(codec, file)))
    ensures var completed := NextRecord(codec, History(codec, file), RevokeComplete, LEGACY_VERSION, first.now);
            var granted := NextRecord(codec, History(codec, file) + [completed], Action.Grant, CURRENT_VERSION,
                                      second.now);
            GrantConsent(codec, file, first, second).1.Ok?
            <==> && HasRoom(codec, file, completed) && WritesAll(codec, completed, first)
                 && HasRoom(codec, Some(Contents(file) + Line(codec, completed)), granted)
                 && WritesAll(codec, granted, second)
  {
    var records := History(codec, file);
    PendingLegacyMayComplete(records);
    if Accepts(codec, file, RevokeComplete, LEGACY_VERSION, first) {
      var completed := NextRecord(codec, records, RevokeComplete, LEGACY_VERSION, first.now);
      GrantOnLegacyWithdrawal(codec, file, first, second);
      GrantAfterIsExact(codec, Some(Contents(file) + Line(codec, completed)), second);
    } else if GrantConsent(codec, file, first, second).1.Ok? {
      GrantNeedsLegacyCompletion(codec, file, first, second);
    }
  }

  /** On every readable file, granting is accepted exactly when consent neither stands nor is being withdrawn under the
      current version and every record it takes has room and is written: the grant, and before it the completion of a
      legacy withdrawal under way. No record built is ever one the validator refuses. */
  lemma GrantIsExact(codec: Codec, file: File, first: Io, second: Io)
    requires Faithful(codec) && Readable(codec, file) && codec.canonical(first.now) && codec.canonical(second.now)
    ensures var records := History(codec, file);
            var completed := NextRecord(codec, records, RevokeComplete, LEGACY_VERSION, first.now);
            var legacy := PendingLegacy(Last(records));
            var between := if legacy then Some(Contents(file) + Line(codec, completed)) else file;
            var granted := NextRecord(codec, if legacy then records + [completed] else records, Action.Grant,
                                      CURRENT_VERSION, second.now);
            GrantConsent(codec, file, first, second).1.Ok?
            <==> && Grantable(records)
                 && (legacy ==> HasRoom(codec, file, completed) && WritesAll(codec, completed, first))
                 && HasRoom(codec, between, granted) && WritesAll(codec, granted, second)
  {
    if PendingLegacy(Last(History(codec, file))) {
      GrantOnLegacyIsExact(codec, file, first, second);
    } else {
      GrantAfterIsExact(codec, file, second);
    }
  }

  lemma GrantAfterLegacyLoads(codec: Codec, file: File, first: Io, second: Io)
    requires Faithful(codec) && Readable(codec, file) && codec.canonical(first.now) && codec.canonical(second.now)
    requires PendingLegacy(Last(History(codec, file))) && GrantConsent(codec, file, first, second).1.Ok?
    ensures var (after, r) := GrantConsent(codec, file, first, second);
            r.value == Load(codec, after) == Snapshot(None, |History(codec, file)| + 2, Granted, Some(CURRENT_VERSION))
  {
    var completed := NextRecord(codec, History(codec, file), RevokeComplete, LEGACY_VERSION, first.now);
    GrantNeedsLegacyCompletion(codec, file, first, second);
    GrantOnLegacyWithdrawal(codec, file, first, second);
    GrantAfterLoads(codec, Some(Contents(file) + Line(codec, completed)), second);
  }

  /** However it came about, an accepted grant loads as granted under the current version, one or two records later. */
  lemma GrantLoadsAsGranted(codec: Codec, file: File, first: Io, second: Io)
    requires Faithful(codec) && Readable(codec, file) && codec.canonical(first.now) && codec.canonical(second.now)
    requires GrantConsent(codec, file, first, second).1.Ok?
    ensures var (after, r) := GrantConsent(codec, file, first, second);
            var more := if PendingLegacy(Last(History(codec, file))) then 2 else 1;
            r.value == Load(codec, after)
              == Snapshot(None, |History(codec, file)| + more, Granted, Some(CURRENT_VERSION))
  {
    if PendingLegacy(Last(History(codec, file))) {
      GrantAfterLegacyLoads(codec, file, first, second);
    } else {
      GrantAfterLoads(codec, file, second);
    }
  }

  predicate LastIs(records: seq<Record>, action: Action) {
    records != [] && records[|records| - 1].core.action == action
  }

  predicate LastIsCurrent(records: seq<Record>, action: Action) {
    LastIs(records, action) && IsCurrent(records[|records| - 1])
  }

  /** Beginning a withdrawal is accepted exactly on a current grant, or when one is under way already. */
  lemma BeginIsExact(codec: Codec, file: File, io: Io)
    requires Readable(codec, file) && codec.canonical(io.now)
    ensures var records := History(codec, file);
            var next := NextRecord(codec, records, RevokePending, CURRENT_VERSION, io.now);
            BeginRevocation(codec, file, io).1.Ok?
            <==> LastIs(records, RevokePending)
                 || (LastIsCurrent(records, Action.Grant) && HasRoom(codec, file, next) && WritesAll(codec, next, io))
  {
    AppendIsExact(codec, file, RevokePending, CURRENT_VERSION, io);
  }

  /** A withdrawal that is under way, or complete, already is reported as it is and left alone. */
  lemma RepeatsChangeNothing(codec: Codec, file: File, io: Io)
    requires Readable(codec, file)
    ensures LastIs(History(codec, file), RevokePending)
            ==> BeginRevocation(codec, file, io) == (file, Ok(Load(codec, file)))
    ensures LastIs(History(codec, file), RevokeComplete) ==>
              CompleteRevocation(codec, file, io) == (file, Ok(Load(codec, file)))
                && Load(codec, file).status == Revoked
  {
  }

  lemma WithdrawalsAreAppends(codec: Codec, file: File, io: Io)
    requires Readable(codec, file)
    ensures LastIs(History(codec, file), Action.Grant) ==>
              BeginRevocation(codec, file, io) == AppendSnapshot(codec, file, History(codec, file), RevokePending, io)
    ensures LastIs(History(codec, file), RevokePending) ==>
              CompleteRevocation(codec, file, io)
                == AppendSnapshot(codec, file, History(codec, file), RevokeComplete, io)
  {
  }

  lemma BeginLoadsAsPending(codec: Codec, file: File, io: Io)
    requires Faithful(codec) && Readable(codec, file) && codec.canonical(io.now)
    requires LastIsCurrent(History(codec, file), Action.Grant) && BeginRevocation(codec, file, io).1.Ok?
    ensures var (after, r) := BeginRevocation(codec, file, io);
            r.value == Load(codec, after)
              == Snapshot(Some(NotGranted), |History(codec, file)| + 1, Pending, Some(CURRENT_VERSION))
  {
    WithdrawalsAreAppends(codec, file, io);
    BeginIsExact(codec, file, io);
    AppendedLoads(codec, file, RevokePending, io);
  }

  /** Completing a withdrawal is accepted exactly on a pending one under the current version, or when it is complete. */
  lemma CompleteIsExact(codec: Codec, file: File, io: Io)
    requires Readable(codec, file) && codec.canonical(io.now)
    ensures var records := History(codec, file);
            var next := NextRecord(codec, records, RevokeComplete, CURRENT_VERSION, io.now);
            CompleteRevocation(codec, file, io).1.Ok?
            <==> LastIs(records, RevokeComplete)
                 || (LastIsCurrent(records, RevokePending) && HasRoom(codec, file, next) && WritesAll(codec, next, io))
  {
    AppendIsExact(codec, file, RevokeComplete, CURRENT_VERSION, io);
  }

  lemma CompleteLoadsAsRevoked(codec: Codec, file: File, io: Io)
    requires Faithful(codec) && Readable(codec, file) && codec.canonical(io.now)
    requires LastIsCurrent(History(codec, file), RevokePending) && CompleteRevocation(codec, file, io).1.Ok?
    ensures var (after, r) := CompleteRevocation(codec, file, io);
            r.value == Load(codec, after)
              == Snapshot(Some(NotGranted), |History(codec, file)| + 1, Revoked, Some(CURRENT_VERSION))
  {
    WithdrawalsAreAppends(codec, file, io);
    CompleteIsExact(codec, file, io);
    AppendedLoads(codec, file, RevokeComplete, io);
  }

  /** On a legacy consent the record these two build names the current version, is refused, and nothing is written. */
  lemma LegacyWithdrawalIsRefused(codec: Codec, file: File, io: Io)
    requires Readable(codec, file) && codec.canonical(io.now) && History(codec, file) != []
    requires IsLegacy(History(codec, file)[|History(codec, file)| - 1])
    ensures LastIs(History(codec, file), Action.Grant) ==>
              BeginRevocation(codec, file, io) == (Some(Contents(file)), Err(Invalid(InvalidJournal)))
    ensures LastIs(History(codec, file), RevokePending) ==>
              CompleteRevocation(codec, file, io) == (Some(Contents(file)), Err(Invalid(InvalidJournal)))
  {
    if LastIs(History(codec, file), Action.Grant) {
      AppendRefuses(codec, file, RevokePending, CURRENT_VERSION, io);
    } else if LastIs(History(codec, file), RevokePending) {
      AppendRefuses(codec, file, RevokeComplete, CURRENT_VERSION, io);
    }
  }

  // ---------------------------------------------------------------- runs

  /** The file keeps its bytes, may have grown, and is within its limit. */
  predicate Grown(before: File, after: File) {
    Contents(before) <= Contents(after) && |Contents(after)| <= MAX_JOURNAL_BYTES
  }

  lemma AppendOnly(codec: Codec, file: File, records: seq<Record>, action: Action, version: string, io: Io)
    requires ContractOf(codec, version).Some? && |Contents(file)| <= MAX_JOURNAL_BYTES
    ensures Grown(file, Append(codec, file, records, action, version, io).0)
  {
  }

  lemma GrantAfterOnlyAppends(codec: Codec, file: File, records: seq<Record>, io: Io)
    requires |Contents(file)| <= MAX_JOURNAL_BYTES
    ensures Grown(file, GrantAfter(codec, file, records, io).0)
  {
    AppendOnly(codec, file, records, Action.Grant, CURRENT_VERSION, io);
  }

  lemma GrantOnlyAppends(codec: Codec, file: File, first: Io, second: Io)
    requires |Contents(file)| <= MAX_JOURNAL_BYTES
    ensures Grown(file, GrantConsent(codec, file, first, second).0)
  {
    if Readable(codec, file) {
      var records := History(codec, file);
      if PendingLegacy(Last(records)) {
        AppendOnly(codec, file, records, RevokeComplete, LEGACY_VERSION, first);
        var (between, completed) := Append(codec, file, records, RevokeComplete, LEGACY_VERSION, first);
        if completed.Ok? {
          GrantAfterOnlyAppends(codec, between, records + [completed.value], second);
        }
      } else {
        GrantAfterOnlyAppends(codec, file, records, second);
      }
    }
  }

  lemma WithdrawalOnlyAppends(codec: Codec, file: File, io: Io)
    requires |Contents(file)| <= MAX_JOURNAL_BYTES
    ensures Grown(file, BeginRevocation(codec, file, io).0) && Grown(file, CompleteRevocation(codec, file, io).0)
  {
    if Readable(codec, file) {
      AppendOnly(codec, file, History(codec, file), RevokePending, CURRENT_VERSION, io);
      AppendOnly(codec, file, History(codec, file), RevokeComplete, CURRENT_VERSION, io);
      WithdrawalsAppend(codec, file, io);
    }
  }

  lemma PerformOnlyAppends(codec: Codec, file: File, op: Op)
    requires |Contents(file)| <= MAX_JOURNAL_BYTES
    ensures Grown(file, Perform(codec, file, op).0)
  {
    match op
    case DoGrant(first, second) => GrantOnlyAppends(codec, file, first, second);
    case DoBegin(io) => WithdrawalOnlyAppends(codec, file, io);
    case DoComplete(io) => WithdrawalOnlyAppends(codec, file, io);
  }

  /** However an append ends, the bytes are the old ones, or the new record is what is loaded, or the file is denied. */
  lemma AppendLoadsItsRecord(codec: Codec, file: File, action: Action, version: string, io: Io)
    requires Faithful(codec) && Readable(codec, file) && ContractOf(codec, version).Some? && codec.canonical(io.now)
    ensures var after := Append(codec, file, History(codec, file), action, version, io).0;
            || Contents(after) == Contents(file)
            || Load(codec, after).status == Revoked
            || Load(codec, after) == SnapshotFor(NextRecord(codec, History(codec, file), action, version, io.now))
  {
    var (after, r) := Append(codec, file, History(codec, file), action, version, io);
    var next := NextRecord(codec, History(codec, file), action, version, io.now);
    if r.Ok? {
      AppendIsExact(codec, file, action, version, io);
      AppendReadsBack(codec, file, action, version, io);
      SnapshotIsLoaded(codec, after, History(codec, file), next);
    } else if r.error == WriteFailed {
      FailedWriteLeaves(codec, file, action, version, io);
      FailedWrite(codec, file, action, version, io);
      AppendEmpty(Contents(file));
      if io.written >= |Line(codec, next)| { SnapshotIsLoaded(codec, after, History(codec, file), next); }
    }
  }

  /** Consent loads as granted only if nothing was written. */
  predicate NotNewlyGranted(codec: Codec, before: File, after: File) {
    Load(codec, after).status == Granted ==> Contents(after) == Contents(before)
  }

  lemma OtherActionsNeverGrant(codec: Codec, file: File, action: Action, io: Io)
    requires Faithful(codec) && Readable(codec, file) && codec.canonical(io.now) && action != Action.Grant
    ensures NotNewlyGranted(codec, file, Append(codec, file, History(codec, file), action, CURRENT_VERSION, io).0)
  {
    AppendLoadsItsRecord(codec, file, action, CURRENT_VERSION, io);
    assert SnapshotFor(NextRecord(codec, History(codec, file), action, CURRENT_VERSION, io.now)).status != Granted;
  }

  lemma WithdrawalsAppend(codec: Codec, file: File, io: Io)
    requires Readable(codec, file)
    ensures BeginRevocation(codec, file, io).0 in
              {file, Append(codec, file, History(codec, file), RevokePending, CURRENT_VERSION, io).0}
    ensures CompleteRevocation(codec, file, io).0 in
              {file, Append(codec, file, History(codec, file), RevokeComplete, CURRENT_VERSION, io).0}
  {
  }

  /** No step of a withdrawal, however it fails, ever makes consent load as granted: if it does afterwards, nothing was
      written and it did before. */
  lemma WithdrawalNeverGrants(codec: Codec, file: File, io: Io)
    requires Faithful(codec) && Readable(codec, file) && codec.canonical(io.now)
    ensures NotNewlyGranted(codec, file, BeginRevocation(codec, file, io).0)
    ensures NotNewlyGranted(codec, file, CompleteRevocation(codec, file, io).0)
  {
    OtherActionsNeverGrant(codec, file, RevokePending, io);
    OtherActionsNeverGrant(codec, file, RevokeComplete, io);
    WithdrawalsAppend(codec, file, io);
  }

  /** A file that is refused is refused for good: nothing changes it, and nothing is granted on it. */
  lemma {:induction false} DeniedForGood(codec: Codec, file: File, ops: seq<Op>)
    requires !Readable(codec, file)
    ensures Run(codec, file, ops) == file && Load(codec, file).status == Revoked
    decreases |ops|
  {
    if ops != [] {
      assert Perform(codec, file, ops[0]) == (file, Err(Invalid(Parse(codec, Contents(file)).error)));
      DeniedForGood(codec, file, ops[1..]);
    }
  }

  /** Over every run, whatever is torn off its writes: the file only grows, stays within its limit, and a later history
      extends every earlier one. */
  lemma {:induction false} RunOnlyAppends(codec: Codec, file: File, ops: seq<Op>)
    requires |Contents(file)| <= MAX_JOURNAL_BYTES
    ensures var after := Run(codec, file, ops);
            && Contents(file) <= Contents(after) && |Contents(after)| <= MAX_JOURNAL_BYTES
            && (Readable(codec, file) && Readable(codec, after) ==> History(codec, file) <= History(codec, after))
    decreases |ops|
  {
    if ops != [] {
      PerformOnlyAppends(codec, file, ops[0]);
      RunOnlyAppends(codec, Perform(codec, file, ops[0]).0, ops[1..]);
    }
    var before, after := Contents(file), Contents(Run(codec, file, ops));
    assert after[..|before|] == before;
    if Parse(codec, after).Ok? { PrefixParsesAtBoundaries(codec, after, |before|); }
  }
}
