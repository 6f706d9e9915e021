/** The consent journal: an append-only file of chained records, read back in full before every decision. */
module ConsentJournal {
  import opened Wrappers
  import opened Bytes
  import opened Sequences
  import opened ConsentRecords
  import opened JournalFormat
  import opened JournalRules

  class FinanceConsentJournal {
    const codec: Codec
    var file: File

    constructor (codec: Codec, file: File)
      ensures this.codec == codec && this.file == file
    {
      this.codec := codec;
      this.file := file;
    }

    /** Stops at the first line that is refused. */
    method ParseJournal(contents: seq<byte>) returns (r: Result<seq<Record>, Reason>)
      ensures r == Parse(codec, contents)
    {
      if |contents| > MAX_JOURNAL_BYTES { return Err(InvalidJournal); }
      if contents == [] { return Ok([]); }
      if contents[|contents| - 1] != NEWLINE { return Err(InvalidJournal); }
      var lines := Lines(contents[..|contents| - 1]);
      if |lines| > MAX_JOURNAL_RECORDS || [] in lines { return Err(InvalidJournal); }
      var records: seq<Record> := [];
      for i := 0 to |lines|
        invariant ReadLines(codec, lines[..i]) == Ok(records)
      {
        var line := lines[i];
        assert lines[..i + 1][..i] == lines[..i];
        assert ReadLines(codec, lines[..i + 1]) == ReadLine(codec, records, line);
        if ReadLine(codec, records, line).Err? { RefusalIsFinal(codec, lines, i + 1); }
        if |line| + 1 > MAX_RECORD_BYTES { return Err(InvalidJournal); }
        var value := codec.decode(line);
        if value.None? { return Err(InvalidJournal); }
        var refusal := ValidateRecord(codec, value.value, Last(records));
        if refusal.Some? { return Err(refusal.value); }
        records := records + [value.value];
      }
      TakeAll(lines);
      r := Ok(records);
    }

    method ReadCurrent() returns (r: Result<seq<Record>, Reason>)
      ensures r == ReadRecords(codec, file)
    {
      if file.None? { return Ok([]); }
      r := ParseJournal(file.value);
    }

    method LoadSnapshot() returns (snapshot: Snapshot)
      ensures snapshot == Load(codec, file)
    {
      var records := ReadCurrent();
      match records
      case Err(reason) => snapshot := Snapshot(Some(Refused(reason)), 0, Revoked, None);
      case Ok(read) =>
        if read == [] { return Snapshot(Some(Missing), 0, Unknown, None); }
        snapshot := SnapshotFor(read[|read| - 1]);
    }

    method AssertGranted(version: string) returns (r: Result<(), Failure>)
      ensures r == if IsGranted(codec, file, version) then Ok(()) else Err(ConsentDenied)
    {
      var snapshot := LoadSnapshot();
      if version != CURRENT_VERSION || snapshot.status != Granted || snapshot.version != Some(version) {
        return Err(ConsentDenied);
      }
      r := Ok(());
    }

    method AppendRecord(records: seq<Record>, action: Action, version: string, io: Io)
      returns (r: Result<Record, Failure>)
      requires ContractOf(codec, version).Some?
      modifies this
      ensures (file, r) == Append(codec, old(file), records, action, version, io)
    {
      if file.None? { file := Some([]); }
      var parsed := ParseJournal(file.value);
      if parsed.Err? { return Err(Invalid(parsed.error)); }
      var current := parsed.value;
      if !SameRecordChain(records, current) { return Err(Invalid(InvalidJournal)); }
      var record := NextRecord(codec, current, action, version, io.now);
      var refusal := ValidateRecord(codec, record, Last(current));
      if refusal.Some? { return Err(Invalid(refusal.value)); }
      var line := Line(codec, record);
      if |line| > MAX_RECORD_BYTES { return Err(InvalidState); }
      if |file.value| + |line| > MAX_JOURNAL_BYTES { return Err(InvalidState); }
      file := Some(Written(file.value, line, io.written));
      if io.written < |line| { return Err(WriteFailed); }
      if !io.syncs { return Err(WriteFailed); }
      r := Ok(record);
    }

    method Grant(first: Io, second: Io) returns (r: Result<Snapshot, Failure>)
      modifies this
      ensures (file, r) == GrantConsent(codec, old(file), first, second)
    {
      var read := ReadCurrent();
      if read.Err? { return Err(Invalid(read.error)); }
      var records := read.value;
      var latest := Last(records);
      if latest.Some? && latest.value.core.action == RevokePending && IsLegacy(latest.value) {
        var completed := AppendRecord(records, RevokeComplete, latest.value.core.consentVersion, first);
        if completed.Err? { return Err(completed.error); }
        records := records + [completed.value];
        latest := Some(completed.value);
        assert latest == Last(records);
      }
      if latest.Some? && latest.value.core.action != RevokeComplete && !CanUpgrade(latest.value) {
        return Err(InvalidState);
      }
      var granted := AppendRecord(records, Action.Grant, CURRENT_VERSION, second);
      if granted.Err? { return Err(granted.error); }
      r := Ok(SnapshotFor(granted.value));
    }

    method BeginRevocation(io: Io) returns (r: Result<Snapshot, Failure>)
      modifies this
      ensures (file, r) == JournalRules.BeginRevocation(codec, old(file), io)
    {
      var read := ReadCurrent();
      if read.Err? { return Err(Invalid(read.error)); }
      var latest := Last(read.value);
      if latest.Some? && latest.value.core.action == RevokePending { return Ok(SnapshotFor(latest.value)); }
      if latest.None? || latest.value.core.action != Action.Grant { return Err(InvalidState); }
      var appended := AppendRecord(read.value, RevokePending, CURRENT_VERSION, io);
      if appended.Err? { return Err(appended.error); }
      r := Ok(SnapshotFor(appended.value));
    }

    method CompleteRevocation(io: Io) returns (r: Result<Snapshot, Failure>)
      modifies this
      ensures (file, r) == JournalRules.CompleteRevocation(codec, old(file), io)
    {
      var read := ReadCurrent();
      if read.Err? { return Err(Invalid(read.error)); }
      var latest := Last(read.value);
      if latest.Some? && latest.value.core.action == RevokeComplete { return Ok(SnapshotFor(latest.value)); }
      if latest.None? || latest.value.core.action != RevokePending { return Err(InvalidState); }
      var appended := AppendRecord(read.value, RevokeComplete, CURRENT_VERSION, io);
      if appended.Err? { return Err(appended.error); }
      r := Ok(SnapshotFor(appended.value));
    }
  }
}
