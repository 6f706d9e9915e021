/** What the journal says of consent, told by the history it holds: what every file loads as, when a version is granted,
    and that only granting ever leads there. */
module JournalOutcomes {
  import opened Wrappers
  import opened ConsentRecords
  import opened JournalFormat
  import opened JournalRules
  import opened JournalRuns

  /** The last record of a history says so. */
  predicate EndsWith(records: seq<Record>, action: Action, version: string) {
    && records != []
    && records[|records| - 1].core.action == action && records[|records| - 1].core.consentVersion == version
  }

  /** The snapshot of a readable history of `n` records. */
  predicate LoadsAs(codec: Codec, file: File, denial: Option<Denial>, sequence: int, status: Status,
          version: Option<string>)
  {
    Load(codec, file) == Snapshot(denial, sequence, status, version)
  }

  lemma LastIsNumbered(codec: Codec, file: File)
    requires Readable(codec, file) && History(codec, file) != []
    ensures var records := History(codec, file); records[|records| - 1].core.sequence == |records|
  {
    var records := History(codec, file);
    ParsedIsValid(codec, Contents(file));
    ChainIsNumbered(codec, records, |records| - 1);
  }

  /** What every file loads as: without a file or a record consent is unknown; a file that is refused, and a history
      that ends under the legacy version, count as revoked; else consent is what the last record says, under its
      number. */
  lemma LoadIsExact(codec: Codec, file: File)
    ensures file.None? ==> LoadsAs(codec, file, Some(Missing), 0, Unknown, None)
    ensures !Readable(codec, file) ==>
              LoadsAs(codec, file, Some(Refused(Parse(codec, Contents(file)).error)), 0, Revoked, None)
    ensures Readable(codec, file) ==>
              var records := History(codec, file);
              var (n, current, legacy) := (|records|, "2026-08-31.v2", "2026-08-28.v1");
              && (records == [] ==> LoadsAs(codec, file, Some(Missing), 0, Unknown, None))
              && (EndsWith(records, Action.Grant, current) ==>
                    LoadsAs(codec, file, None, n, Granted, Some(current)))
              && (EndsWith(records, RevokePending, current) ==>
                    LoadsAs(codec, file, Some(NotGranted), n, Pending, Some(current)))
              && (EndsWith(records, RevokeComplete, current) ==>
                    LoadsAs(codec, file, Some(NotGranted), n, Revoked, Some(current)))
              && (records != [] && records[n - 1].core.consentVersion == legacy ==>
                    LoadsAs(codec, file, Some(Refused(UnsupportedVersion)), n, Revoked, Some(legacy)))
              && (records != [] ==> records[n - 1].core.consentVersion in {current, legacy})
  {
    if Readable(codec, file) && History(codec, file) != [] {
      LastIsNumbered(codec, file);
      LastIsKnown(codec, file);
    }
    EmptyIsReadable(codec);
  }

  lemma EmptyIsReadable(codec: Codec)
    ensures Parse(codec, []) == Ok([])
  {
  }

  /** A version is granted exactly when it is the current one, the file is readable and its last record grants it. */
  lemma GrantedIsExact(codec: Codec, file: File, version: string)
    ensures IsGranted(codec, file, version) <==>
              version == "2026-08-31.v2" && Readable(codec, file)
                && EndsWith(History(codec, file), Action.Grant, version)
  {
    LoadIsExact(codec, file);
  }

  // ---------------------------------------------------------------- refusals

  /** A record is refused as of an unsupported version exactly when it names another schema, or a version without a
      contract that no JavaScript object inherits; whatever else is wrong with it makes the journal invalid. */
  lemma RefusalReasonIsExact(codec: Codec, r: Record, previous: Option<Record>)
    requires !(Contracted(codec, r) && Linked(r, previous) && LifeStep(r, previous))
    ensures ValidateRecord(codec, r, previous) ==
            if r.core.schemaVersion != 1
               || (r.core.consentVersion !in {"2026-08-31.v2", "2026-08-28.v1"}
                   && !codec.inherited(r.core.consentVersion))
            then Some(UnsupportedVersion)
            else Some(InvalidJournal)
  {
    ValidatorIsExact(codec, r, previous);
  }

  /** Each operation is refused for its state, and leaves the file alone, exactly where the history gives no occasion
      for it: granting what stands or is being withdrawn, withdrawing what was not granted or is withdrawn, completing
      what was not begun. A file that is refused refuses all three for its own reason. */
  lemma StateRefusalsAreExact(codec: Codec, file: File, first: Io, io: Io)
    requires codec.canonical(first.now) && codec.canonical(io.now)
    ensures !Readable(codec, file) ==>
              var refused := (file, Result<Snapshot, Failure>.Err(Invalid(Parse(codec, Contents(file)).error)));
              && GrantConsent(codec, file, first, io) == refused && BeginRevocation(codec, file, io) == refused
              && CompleteRevocation(codec, file, io) == refused
    ensures Readable(codec, file) ==>
              var (records, refused) := (History(codec, file), (file, Result<Snapshot, Failure>.Err(InvalidState)));
              && (!Grantable(records) ==> GrantConsent(codec, file, first, io) == refused)
              && (records == [] || LastIs(records, RevokeComplete) ==> BeginRevocation(codec, file, io) == refused)
              && (records == [] || LastIs(records, Action.Grant) ==> CompleteRevocation(codec, file, io) == refused)
  {
  }

  // ---------------------------------------------------------------- how consent comes to be granted

  /** The clock gives canonical timestamps. */
  predicate Timed(codec: Codec, ops: seq<Op>) {
    forall i | 0 <= i < |ops| ::
      match ops[i]
      case DoGrant(first, second) => codec.canonical(first.now) && codec.canonical(second.now)
      case DoBegin(io) => codec.canonical(io.now)
      case DoComplete(io) => codec.canonical(io.now)
  }

  predicate NoGrant(ops: seq<Op>) {
    forall i | 0 <= i < |ops| :: !ops[i].DoGrant?
  }

  lemma WithdrawalStaysDenied(codec: Codec, file: File, op: Op)
    requires Faithful(codec) && !op.DoGrant? && codec.canonical(op.io.now)
    requires Load(codec, file).status != Granted
    ensures Load(codec, Perform(codec, file, op).0).status != Granted
  {
    if Readable(codec, file) {
      WithdrawalNeverGrants(codec, file, op.io);
    } else {
      DeniedForGood(codec, file, [op]);
      assert Perform(codec, file, op).0 == file;
    }
  }

  /** Without an attempt to grant it consent is never granted: a journal that does not load as granted does not come to
      it by any run of withdrawals, whichever of their writes fail. */
  lemma {:induction false} OnlyGrantingGrants(codec: Codec, file: File, ops: seq<Op>, version: string)
    requires Faithful(codec) && Timed(codec, ops) && NoGrant(ops) && Load(codec, file).status != Granted
    ensures !IsGranted(codec, Run(codec, file, ops), version)
    decreases |ops|
  {
    if ops != [] {
      WithdrawalStaysDenied(codec, file, ops[0]);
      forall i | 0 <= i < |ops[1..]| ensures ops[1..][i] == ops[i + 1] {
      }
      OnlyGrantingGrants(codec, Perform(codec, file, ops[0]).0, ops[1..], version);
    }
  }

  // ---------------------------------------------------------------- the life of consent

  /** The writes of one operation go through. */
  predicate Goes(codec: Codec, file: File, action: Action, io: Io)
    requires Readable(codec, file)
  {
    var next := NextRecord(codec, History(codec, file), action, CURRENT_VERSION, io.now);
    codec.canonical(io.now) && HasRoom(codec, file, next) && WritesAll(codec, next, io)
  }

  /** From no journal at all: consent is granted, a withdrawal begins and is completed, and after each step the
      version is granted, pending, and revoked. */
  lemma ConsentLivesAndEnds(codec: Codec, first: Io, grant: Io, begin: Io, complete: Io)
    requires Faithful(codec) && codec.canonical(first.now)
    requires Parse(codec, []).Ok? && Goes(codec, None, Action.Grant, grant)
    requires var granted := GrantConsent(codec, None, first, grant).0;
             && Readable(codec, granted) && Goes(codec, granted, RevokePending, begin)
             && var pending := BeginRevocation(codec, granted, begin).0;
                Readable(codec, pending) && Goes(codec, pending, RevokeComplete, complete)
    ensures var granted := GrantConsent(codec, None, first, grant).0;
            var pending := BeginRevocation(codec, granted, begin).0;
            var revoked := CompleteRevocation(codec, pending, complete).0;
            && IsGranted(codec, granted, CURRENT_VERSION)
            && Load(codec, pending).status == Pending && Load(codec, revoked).status == Revoked
            && !IsGranted(codec, pending, CURRENT_VERSION) && !IsGranted(codec, revoked, CURRENT_VERSION)
  {
    EmptyIsReadable(codec);
    var granted := GrantConsent(codec, None, first, grant).0;
    var pending := BeginRevocation(codec, granted, begin).0;
    GrantIsExact(codec, None, first, grant);
    GrantLoadsAsGranted(codec, None, first, grant);
    GrantedIsExact(codec, granted, CURRENT_VERSION);
    BeginIsExact(codec, granted, begin);
    BeginLoadsAsPending(codec, granted, begin);
    LoadIsExact(codec, pending);
    PendingEndsPending(codec, pending);
    CompleteIsExact(codec, pending, complete);
    CompleteLoadsAsRevoked(codec, pending, complete);
  }

  lemma PendingEndsPending(codec: Codec, file: File)
    requires Readable(codec, file) && Load(codec, file).status == Pending
    ensures LastIsCurrent(History(codec, file), RevokePending)
  {
    LoadIsExact(codec, file);
  }
}
