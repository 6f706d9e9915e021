/** The consent journal's operations as functions on the journal file. */
module JournalRules {
  import opened Wrappers
  import opened Bytes
  import opened ConsentRecords
  import opened JournalFormat

  /** The file's bytes, or none when there is no file. */
  type File = Option<seq<byte>>

  /** One write: the time it is made, how many bytes the system takes, and whether they reach the disk. */
  datatype Io = Io(now: string, written: nat, syncs: bool)

  datatype Failure = Invalid(reason: Reason) | InvalidState | WriteFailed | ConsentDenied

  datatype Denial = Missing | NotGranted | Refused(reason: Reason)

  datatype Status = Unknown | Granted | Pending | Revoked

  datatype Snapshot = Snapshot(denial: Option<Denial>, sequence: int, status: Status, version: Option<string>)

  function Contents(file: File): seq<byte> {
    if file.Some? then file.value else []
  }

  function ReadRecords(codec: Codec, file: File): Result<seq<Record>, Reason> {
    Parse(codec, Contents(file))
  }

  function SnapshotFor(r: Record): Snapshot {
    if !IsCurrent(r) then Snapshot(Some(Refused(UnsupportedVersion)), r.core.sequence, Revoked,
                                   Some(r.core.consentVersion))
    else
      match r.core.action
      case Grant => Snapshot(None, r.core.sequence, Granted, Some(r.core.consentVersion))
      case RevokePending => Snapshot(Some(NotGranted), r.core.sequence, Pending, Some(r.core.consentVersion))
      case RevokeComplete => Snapshot(Some(NotGranted), r.core.sequence, Revoked, Some(r.core.consentVersion))
  }

  function Load(codec: Codec, file: File): Snapshot {
    match ReadRecords(codec, file)
    case Err(reason) => Snapshot(Some(Refused(reason)), 0, Revoked, None)
    case Ok(records) => if records == [] then Snapshot(Some(Missing), 0, Unknown, None)
      else SnapshotFor(records[|records| - 1])
  }

  predicate IsGranted(codec: Codec, file: File, version: string) {
    version == CURRENT_VERSION && Load(codec, file).status == Granted && Load(codec, file).version == Some(version)
  }

  /** What a write leaves: the system may take only part of a line. */
  function Written(contents: seq<byte>, line: seq<byte>, n: nat): seq<byte> {
    contents + if n < |line| then line[..n] else line
  }

  /** The journal is opened, and created if need be, before anything is decided on what it holds now. */
  function Append(codec: Codec, file: File, records: seq<Record>, action: Action, version: string, io: Io)
    : (File, Result<Record, Failure>)
    requires ContractOf(codec, version).Some?
  {
    var contents := Contents(file);
    match Parse(codec, contents)
    case Err(reason) => (Some(contents), Err(Invalid(reason)))
    case Ok(current) =>
      if !SameRecordChain(records, current) then (Some(contents), Err(Invalid(InvalidJournal)))
      else
        var record := NextRecord(codec, current, action, version, io.now);
        var line := Line(codec, record);
        match ValidateRecord(codec, record, Last(current))
        case Some(reason) => (Some(contents), Err(Invalid(reason)))
        case None =>
          if |line| > MAX_RECORD_BYTES || |contents| + |line| > MAX_JOURNAL_BYTES
          then (Some(contents), Err(InvalidState))
          else (Some(Written(contents, line, io.written)),
                if io.written < |line| || !io.syncs then Err(WriteFailed) else Ok(record))
  }

  function AppendSnapshot(codec: Codec, file: File, records: seq<Record>, action: Action, io: Io)
    : (File, Result<Snapshot, Failure>)
  {
    var (after, r) := Append(codec, file, records, action, CURRENT_VERSION, io);
    (after, if r.Ok? then Ok(SnapshotFor(r.value)) else Err(r.error))
  }

  predicate PendingLegacy(latest: Option<Record>) {
    latest.Some? && latest.value.core.action == RevokePending && IsLegacy(latest.value)
  }

  function GrantAfter(codec: Codec, file: File, records: seq<Record>, io: Io): (File, Result<Snapshot, Failure>) {
    var latest := Last(records);
    if latest.Some? && latest.value.core.action != RevokeComplete && !CanUpgrade(latest.value)
    then (file, Err(InvalidState))
    else AppendSnapshot(codec, file, records, Action.Grant, io)
  }

  /** A pending legacy withdrawal is completed first, under its own version; `first` and `second` are the two writes. */
  function GrantConsent(codec: Codec, file: File, first: Io, second: Io): (File, Result<Snapshot, Failure>) {
    match ReadRecords(codec, file)
    case Err(reason) => (file, Err(Invalid(reason)))
    case Ok(records) =>
      if !PendingLegacy(Last(records)) then GrantAfter(codec, file, records, second)
      else
        var (after, completed) := Append(codec, file, records, RevokeComplete, LEGACY_VERSION, first);
        if completed.Err? then (after, Err(completed.error))
        else GrantAfter(codec, after, records + [completed.value], second)
  }

  function BeginRevocation(codec: Codec, file: File, io: Io): (File, Result<Snapshot, Failure>) {
    match ReadRecords(codec, file)
    case Err(reason) => (file, Err(Invalid(reason)))
    case Ok(records) =>
      var latest := Last(records);
      if latest.Some? && latest.value.core.action == RevokePending then (file, Ok(SnapshotFor(latest.value)))
      else if latest.None? || latest.value.core.action != Action.Grant then (file, Err(InvalidState))
      else AppendSnapshot(codec, file, records, RevokePending, io)
  }

  function CompleteRevocation(codec: Codec, file: File, io: Io): (File, Result<Snapshot, Failure>) {
    match ReadRecords(codec, file)
    case Err(reason) => (file, Err(Invalid(reason)))
    case Ok(records) =>
      var latest := Last(records);
      if latest.Some? && latest.value.core.action == RevokeComplete then (file, Ok(SnapshotFor(latest.value)))
      else if latest.None? || latest.value.core.action != RevokePending then (file, Err(InvalidState))
      else AppendSnapshot(codec, file, records, RevokeComplete, io)
  }

  // ---------------------------------------------------------------- runs

  datatype Op = DoGrant(first: Io, second: Io) | DoBegin(io: Io) | DoComplete(io: Io)

  function Perform(codec: Codec, file: File, op: Op): (File, Result<Snapshot, Failure>) {
    match op
    case DoGrant(first, second) => GrantConsent(codec, file, first, second)
    case DoBegin(io) => BeginRevocation(codec, file, io)
    case DoComplete(io) => CompleteRevocation(codec, file, io)
  }

  function Run(codec: Codec, file: File, ops: seq<Op>): File
    decreases |ops|
  {
    if ops == [] then file else Run(codec, Perform(codec, file, ops[0]).0, ops[1..])
  }
}
