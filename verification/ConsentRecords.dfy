/** The records of the consent journal: what one must say, what may follow what, and how the hashes chain them. */
module ConsentRecords {
  import opened Wrappers
  import opened Bytes
  import opened Sequences

  const PROVIDER := "openai"
  const SCHEMA_VERSION := 1
  const CURRENT_VERSION := "2026-08-31.v2"
  const LEGACY_VERSION := "2026-08-28.v1"
  const LEGACY_NOTICE_HASH := "0157249b491057ec118c84158b528996871d34f6616d78cc98e0bd58c4e1d48e"
  const DATA_CATEGORIES := [
    "chat_messages", "financial_overview", "transactions", "receivables_and_payment_status",
      "reviewable_change_proposals"]

  datatype Action = Grant | RevokePending | RevokeComplete

  datatype Core = Core(
    action: Action, categories: seq<string>, consentVersion: string, noticeHash: string, occurredAt: string,
    previousHash: Option<string>, provider: string, schemaVersion: int, sequence: int)

  datatype Record = Record(core: Core, recordHash: string)

  /** What the journal relies on: the hash of a record's core, its JSON text and back, which timestamps are canonical,
      the hash of the current notice, and the names every JavaScript object answers to, so that looking one of them up
      as a version finds something. */
  datatype Codec = Codec(
    hash: Core -> string, encode: Record -> seq<byte>, decode: seq<byte> -> Option<Record>, canonical: string -> bool,
    currentNoticeHash: string, inherited: string -> bool)

  datatype Reason = InvalidJournal | UnsupportedVersion

  datatype Contract = Contract(categories: seq<string>, noticeHash: string)

  function ContractOf(codec: Codec, version: string): Option<Contract> {
    if version == CURRENT_VERSION then Some(Contract(DATA_CATEGORIES, codec.currentNoticeHash))
    else if version == LEGACY_VERSION then Some(Contract(DATA_CATEGORIES, LEGACY_NOTICE_HASH))
    else None
  }

  predicate IsLegacy(r: Record) {
    r.core.consentVersion == LEGACY_VERSION
  }

  predicate IsCurrent(r: Record) {
    r.core.consentVersion == CURRENT_VERSION
  }

  predicate CanUpgrade(r: Record) {
    IsLegacy(r) && r.core.action in {Grant, RevokeComplete}
  }

  function Last(records: seq<Record>): Option<Record> {
    if records == [] then None else Some(records[|records| - 1])
  }

  function SequenceAfter(previous: Option<Record>): int {
    if previous.Some? then previous.value.core.sequence + 1 else 1
  }

  function HashOf(previous: Option<Record>): Option<string> {
    if previous.Some? then Some(previous.value.recordHash) else None
  }

  predicate IsUpgrade(r: Record, previous: Option<Record>) {
    previous.Some? && CanUpgrade(previous.value) && IsCurrent(r) && r.core.action == Grant
  }

  function ExpectedAction(r: Record, previous: Option<Record>): Action {
    if previous.None? || IsUpgrade(r, previous) then Grant
    else
      match previous.value.core.action
      case Grant => RevokePending
      case RevokePending => RevokeComplete
      case RevokeComplete => Grant
  }

  /** Why a record is refused after `previous`, in the order of the checks. */
  function ValidateRecord(codec: Codec, r: Record, previous: Option<Record>): Option<Reason> {
    var contract := ContractOf(codec, r.core.consentVersion);
    if r.core.schemaVersion != SCHEMA_VERSION then Some(UnsupportedVersion)
    else if contract.None? && !codec.inherited(r.core.consentVersion) then Some(UnsupportedVersion)
    else if contract.None?
      || r.core.provider != PROVIDER
      || r.core.noticeHash != contract.value.noticeHash
      || r.core.categories != contract.value.categories
      || r.core.sequence != SequenceAfter(previous)
      || r.core.previousHash != HashOf(previous)
      || r.recordHash != codec.hash(r.core)
      || !codec.canonical(r.core.occurredAt) then Some(InvalidJournal)
    else if previous.Some? && previous.value.core.consentVersion != r.core.consentVersion && !IsUpgrade(r, previous)
    then Some(InvalidJournal)
    else if r.core.action != ExpectedAction(r, previous) then Some(InvalidJournal)
    else None
  }

  // ---------------------------------------------------------------- the life of a consent

  /** What a record says about itself, under whichever contract it names. */
  predicate Contracted(codec: Codec, r: Record) {
    && ContractOf(codec, r.core.consentVersion).Some?
    && r.core.schemaVersion == SCHEMA_VERSION && r.core.provider == PROVIDER
    && r.core.categories == DATA_CATEGORIES
    && r.core.noticeHash == (if IsCurrent(r) then codec.currentNoticeHash else LEGACY_NOTICE_HASH)
    && r.recordHash == codec.hash(r.core) && codec.canonical(r.core.occurredAt)
  }

  predicate Linked(r: Record, previous: Option<Record>) {
    r.core.sequence == SequenceAfter(previous) && r.core.previousHash == HashOf(previous)
  }

  predicate GoesOn(before: Action, after: Action) {
    match before
    case Grant => after == RevokePending
    case RevokePending => after == RevokeComplete
    case RevokeComplete => after == Grant
  }

  /** One version goes round grant, pending, complete; a legacy consent that is not being withdrawn may be granted anew
      under the current version; nothing else follows anything. */
  predicate LifeStep(r: Record, previous: Option<Record>) {
    match previous
    case None => r.core.action == Grant
    case Some(p) =>
      || (p.core.consentVersion == r.core.consentVersion && GoesOn(p.core.action, r.core.action))
      || (IsLegacy(p) && p.core.action != RevokePending && IsCurrent(r) && r.core.action == Grant)
  }

  /** The validator accepts exactly the contracted, linked next steps of a consent's life. */
  lemma ValidatorIsExact(codec: Codec, r: Record, previous: Option<Record>)
    ensures ValidateRecord(codec, r, previous) == None
            <==> Contracted(codec, r) && Linked(r, previous) && LifeStep(r, previous)
  {
  }

  /** Records that were validated one after the other. */
  predicate ValidChain(codec: Codec, records: seq<Record>) {
    records != [] ==>
      var before := records[..|records| - 1];
      ValidChain(codec, before) && ValidateRecord(codec, records[|records| - 1], Last(before)) == None
  }

  lemma {:induction false} ChainAt(codec: Codec, records: seq<Record>, i: nat)
    requires ValidChain(codec, records) && i < |records|
    ensures ValidateRecord(codec, records[i], if i == 0 then None else Some(records[i - 1])) == None
    decreases |records|
  {
    if i < |records| - 1 { ChainAt(codec, records[..|records| - 1], i); }
  }

  lemma ChainAppend(codec: Codec, records: seq<Record>, r: Record)
    requires ValidChain(codec, records) && ValidateRecord(codec, r, Last(records)) == None
    ensures ValidChain(codec, records + [r])
  {
    ButLast(records, r);
  }

  lemma {:induction false} ChainIsNumbered(codec: Codec, records: seq<Record>, i: nat)
    requires ValidChain(codec, records) && i < |records|
    ensures records[i].core.sequence == i + 1
    decreases i
  {
    ChainAt(codec, records, i);
    if i > 0 { ChainIsNumbered(codec, records, i - 1); }
  }

  lemma ChainStep(codec: Codec, records: seq<Record>, j: nat)
    requires ValidChain(codec, records) && j < |records|
    ensures IsLegacy(records[j]) || IsCurrent(records[j])
    ensures j > 0 && IsCurrent(records[j - 1]) ==> IsCurrent(records[j])
  {
    ChainAt(codec, records, j);
    ValidatorIsExact(codec, records[j], if j == 0 then None else Some(records[j - 1]));
  }

  /** Every accepted journal is one block of the legacy version followed by one block of the current version: once a
      record is current all later ones are, and the first is a grant. */
  lemma {:induction false} LegacyThenCurrent(codec: Codec, records: seq<Record>, i: nat, j: nat)
    requires ValidChain(codec, records) && i <= j < |records|
    ensures IsLegacy(records[j]) || IsCurrent(records[j])
    ensures IsCurrent(records[i]) ==> IsCurrent(records[j])
    ensures records[0].core.action == Grant
    decreases j - i
  {
    ChainAt(codec, records, 0);
    ChainStep(codec, records, j);
    if i < j {
      LegacyThenCurrent(codec, records, i, j - 1);
    }
  }

  /** In each block every withdrawal is begun before it is completed, and each completed one was granted. */
  lemma WithdrawalsAreInOrder(codec: Codec, records: seq<Record>, i: nat)
    requires ValidChain(codec, records) && i < |records| && records[i].core.action != Grant
    ensures i > 0 && records[i - 1].core.consentVersion == records[i].core.consentVersion
    ensures records[i - 1].core.action == if records[i].core.action == RevokePending then Grant else RevokePending
  {
    ChainAt(codec, records, i);
  }

  // ---------------------------------------------------------------- the hash chain

  ghost predicate InjectiveHash(codec: Codec) {
    forall a, b :: codec.hash(a) == codec.hash(b) ==> a == b
  }

  lemma EqualHashes(codec: Codec, a: Record, b: Record, before: Option<Record>, prior: Option<Record>)
    requires InjectiveHash(codec) && ValidateRecord(codec, a, before) == None && ValidateRecord(codec, b, prior) == None
    requires a.recordHash == b.recordHash
    ensures a == b
  {
    assert codec.hash(a.core) == codec.hash(b.core);
  }

  /** The last hash binds the whole history. */
  lemma {:induction false} LastHashBindsHistory(codec: Codec, a: seq<Record>, b: seq<Record>)
    requires InjectiveHash(codec) && ValidChain(codec, a) && ValidChain(codec, b) && a != [] && b != []
    requires a[|a| - 1].recordHash == b[|b| - 1].recordHash
    ensures a == b
    decreases |a|
  {
    var (x, y) := (a[..|a| - 1], b[..|b| - 1]);
    EqualHashes(codec, a[|a| - 1], b[|b| - 1], Last(x), Last(y));
    ChainIsNumbered(codec, a, |a| - 1);
    ChainIsNumbered(codec, b, |b| - 1);
    if |a| > 1 { LastHashBindsHistory(codec, x, y); }
    assert a == x + [a[|a| - 1]] && b == y + [b[|b| - 1]];
  }

  predicate SameRecordChain(left: seq<Record>, right: seq<Record>) {
    |left| == |right| && forall i | 0 <= i < |left| :: left[i].recordHash == right[i].recordHash
  }

  /** Two validated journals with the same hashes are the same journal. */
  lemma SameHashesSameHistory(codec: Codec, left: seq<Record>, right: seq<Record>)
    requires InjectiveHash(codec) && ValidChain(codec, left) && ValidChain(codec, right)
    ensures SameRecordChain(left, right) <==> left == right
  {
    if SameRecordChain(left, right) && left != [] { LastHashBindsHistory(codec, left, right); }
  }

  // ---------------------------------------------------------------- what the journal writes

  /** The record an append builds. */
  function NextRecord(codec: Codec, records: seq<Record>, action: Action, version: string, now: string): Record
    requires ContractOf(codec, version).Some?
  {
    var contract := ContractOf(codec, version).value;
    var core := Core(action, contract.categories, version, contract.noticeHash, now, HashOf(Last(records)), PROVIDER,
                     SCHEMA_VERSION,
                     SequenceAfter(Last(records)));
    Record(core, codec.hash(core))
  }

  /** Whether a record of this action and version may come next. */
  predicate MayFollow(records: seq<Record>, action: Action, version: string) {
    match Last(records)
    case None => action == Grant
    case Some(p) =>
      || (p.core.consentVersion == version && GoesOn(p.core.action, action))
      || (CanUpgrade(p) && version == CURRENT_VERSION && action == Grant)
  }

  /** A built record is accepted exactly when its action and version are the next step; everything else in it is
      right. */
  lemma BuiltRecordIsValid(codec: Codec, records: seq<Record>, action: Action, version: string, now: string)
    requires ContractOf(codec, version).Some? && codec.canonical(now)
    ensures var r := NextRecord(codec, records, action, version, now);
            && Contracted(codec, r) && Linked(r, Last(records))
            && (ValidateRecord(codec, r, Last(records)) == None <==> MayFollow(records, action, version))
            && (!MayFollow(records, action, version)
                ==> ValidateRecord(codec, r, Last(records)) == Some(InvalidJournal))
  {
    ValidatorIsExact(codec, NextRecord(codec, records, action, version, now), Last(records));
  }
}
