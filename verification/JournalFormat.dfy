/** The journal as bytes: one record a line, read back with every check, and what a prefix of it reads as. */
module JournalFormat {
  import opened Wrappers
  import opened Bytes
  import opened Sequences
  import opened ConsentRecords

  const MAX_JOURNAL_BYTES := 256 * 1024
  const MAX_JOURNAL_RECORDS := 1024
  const MAX_RECORD_BYTES := 4096

  /** One more line, read after some records. */
  function ReadLine(codec: Codec, records: seq<Record>, line: seq<byte>): Result<seq<Record>, Reason> {
    if |line| + 1 > MAX_RECORD_BYTES then Err(InvalidJournal)
    else
      match codec.decode(line)
      case None => Err(InvalidJournal)
      case Some(r) =>
        match ValidateRecord(codec, r, Last(records))
        case Some(reason) => Err(reason)
        case None => Ok(records + [r])
  }

  function ReadLines(codec: Codec, lines: seq<seq<byte>>): Result<seq<Record>, Reason> {
    if lines == [] then Ok([])
    else
      var before := ReadLines(codec, lines[..|lines| - 1]);
      if before.Err? then before else ReadLine(codec, before.value, lines[|lines| - 1])
  }

  function Parse(codec: Codec, contents: seq<byte>): Result<seq<Record>, Reason> {
    if |contents| > MAX_JOURNAL_BYTES then Err(InvalidJournal)
    else if contents == [] then Ok([])
    else if contents[|contents| - 1] != NEWLINE then Err(InvalidJournal)
    else
      var lines := Lines(contents[..|contents| - 1]);
      if |lines| > MAX_JOURNAL_RECORDS || [] in lines then Err(InvalidJournal)
      else ReadLines(codec, lines)
  }

  function Line(codec: Codec, r: Record): seq<byte> {
    codec.encode(r) + [NEWLINE]
  }

  /** The text of some records. */
  function Print(codec: Codec, records: seq<Record>): seq<byte> {
    if records == [] then [] else Print(codec, records[..|records| - 1]) + Line(codec, records[|records| - 1])
  }

  /** JSON text is read back as it was written and has no raw newline; a contracted record names its five categories and
      two hashes of 64 digits, which alone take more than 255 bytes in any spelling. */
  ghost predicate Faithful(codec: Codec) {
    && (forall r {:trigger codec.encode(r)} :: codec.decode(codec.encode(r)) == Some(r))
    && (forall r :: NEWLINE !in codec.encode(r))
    && (forall line, r {:trigger codec.decode(line), Contracted(codec, r)} ::
          codec.decode(line) == Some(r) && Contracted(codec, r) ==> |line| >= 256)
  }

  // ---------------------------------------------------------------- lines

  lemma SplitAtFirst(s: seq<byte>, i: nat)
    requires i < |s| && s[i] == NEWLINE && Absent(s, NEWLINE, 0, i)
    ensures Lines(s) == [s[..i]] + Lines(s[i + 1..])
  {
    FirstIs(s, NEWLINE, i);
  }

  lemma {:induction false} SplitJoin(a: seq<byte>, b: seq<byte>)
    ensures Lines(a + [NEWLINE] + b) == Lines(a) + Lines(b)
    decreases |a|
  {
    var s := a + [NEWLINE] + b;
    match IndexOf(a, NEWLINE)
    case None =>
      SplitAtFirst(s, |a|);
      assert s[..|a|] == a && s[|a| + 1..] == b;
    case Some(i) =>
      SplitAtFirst(s, i);
      assert s[..i] == a[..i] && s[i + 1..] == a[i + 1..] + [NEWLINE] + b;
      SplitJoin(a[i + 1..], b);
      AppendAssoc([a[..i]], Lines(a[i + 1..]), Lines(b));
  }

  lemma SplitWhole(line: seq<byte>)
    requires NEWLINE !in line
    ensures Lines(line) == [line]
  {
  }

  /** Cutting a text after a newline cuts its list of lines. */
  lemma SplitCut(s: seq<byte>, k: nat)
    requires 0 < k <= |s| && s[k - 1] == NEWLINE
    ensures Lines(s) == Lines(s[..k - 1]) + Lines(s[k..])
  {
    assert s == s[..k - 1] + [NEWLINE] + s[k..];
    SplitJoin(s[..k - 1], s[k..]);
  }

  lemma ReadStep(codec: Codec, lines: seq<seq<byte>>)
    requires lines != [] && ReadLines(codec, lines).Ok?
    ensures ReadLines(codec, lines[..|lines| - 1]).Ok?
    ensures ReadLines(codec, lines[..|lines| - 1]).value <= ReadLines(codec, lines).value
    ensures |ReadLines(codec, lines).value| == |ReadLines(codec, lines[..|lines| - 1]).value| + 1
  {
  }

  lemma {:induction false} ReadPrefix(codec: Codec, lines: seq<seq<byte>>, k: nat)
    requires k <= |lines| && ReadLines(codec, lines).Ok?
    ensures ReadLines(codec, lines[..k]).Ok? && ReadLines(codec, lines[..k]).value <= ReadLines(codec, lines).value
    decreases |lines|
  {
    if k == |lines| {
      TakeAll(lines);
    } else {
      ReadStep(codec, lines);
      TakeTake(lines, |lines| - 1, k);
      ReadPrefix(codec, lines[..|lines| - 1], k);
    }
  }

  /** Once a line is refused, the lines after it do not matter. */
  lemma {:induction false} RefusalIsFinal(codec: Codec, lines: seq<seq<byte>>, k: nat)
    requires k <= |lines| && ReadLines(codec, lines[..k]).Err?
    ensures ReadLines(codec, lines) == ReadLines(codec, lines[..k])
    decreases |lines|
  {
    if k == |lines| {
      TakeAll(lines);
    } else {
      TakeTake(lines, |lines| - 1, k);
      RefusalIsFinal(codec, lines[..|lines| - 1], k);
    }
  }

  lemma {:induction false} ReadIsValid(codec: Codec, lines: seq<seq<byte>>)
    requires ReadLines(codec, lines).Ok?
    ensures ValidChain(codec, ReadLines(codec, lines).value) && |ReadLines(codec, lines).value| == |lines|
    decreases |lines|
  {
    if lines != [] {
      var before := ReadLines(codec, lines[..|lines| - 1]).value;
      ReadIsValid(codec, lines[..|lines| - 1]);
      ChainAppend(codec, before, codec.decode(lines[|lines| - 1]).value);
    }
  }

  /** What is read is a validated chain. */
  lemma ParsedIsValid(codec: Codec, contents: seq<byte>)
    requires Parse(codec, contents).Ok?
    ensures ValidChain(codec, Parse(codec, contents).value)
  {
    if contents != [] { ReadIsValid(codec, Lines(contents[..|contents| - 1])); }
  }

  // ---------------------------------------------------------------- the byte limit binds before the record limit

  function TotalLength(lines: seq<seq<byte>>): nat {
    if lines == [] then 0 else TotalLength(lines[..|lines| - 1]) + |lines[|lines| - 1]| + 1
  }

  lemma {:induction false} TotalJoin(a: seq<seq<byte>>, b: seq<seq<byte>>)
    ensures TotalLength(a + b) == TotalLength(a) + TotalLength(b)
    decreases |b|
  {
    if b == [] {
      AppendEmpty(a);
    } else {
      var init, last := b[..|b| - 1], b[|b| - 1];
      TotalJoin(a, init);
      assert a + b == (a + init) + [last];
      ButLast(a + init, last);
    }
  }

  lemma {:induction false} SplitKeepsLength(s: seq<byte>)
    ensures TotalLength(Lines(s)) == |s| + 1
    decreases |s|
  {
    match IndexOf(s, NEWLINE)
    case None => assert [s][..0] == [];
    case Some(i) =>
      SplitKeepsLength(s[i + 1..]);
      TotalJoin([s[..i]], Lines(s[i + 1..]));
      assert [s[..i]][..0] == [];
  }

  lemma {:induction false} LinesAreLong(codec: Codec, lines: seq<seq<byte>>)
    requires Faithful(codec) && ReadLines(codec, lines).Ok?
    ensures TotalLength(lines) >= 257 * |lines|
    decreases |lines|
  {
    if lines != [] {
      var last := lines[|lines| - 1];
      var before := ReadLines(codec, lines[..|lines| - 1]).value;
      LinesAreLong(codec, lines[..|lines| - 1]);
      ValidatorIsExact(codec, codec.decode(last).value, Last(before));
    }
  }

  lemma FewRecords(codec: Codec, contents: seq<byte>)
    requires Faithful(codec) && Parse(codec, contents).Ok?
    ensures 257 * |Parse(codec, contents).value| <= |contents|
    ensures |Parse(codec, contents).value| < MAX_JOURNAL_RECORDS - 1
  {
    if contents != [] {
      var lines := Lines(contents[..|contents| - 1]);
      SplitKeepsLength(contents[..|contents| - 1]);
      LinesAreLong(codec, lines);
      ReadIsValid(codec, lines);
    }
  }

  // ---------------------------------------------------------------- appending

  lemma ReadAppend(codec: Codec, lines: seq<seq<byte>>, line: seq<byte>)
    requires ReadLines(codec, lines).Ok?
    ensures ReadLines(codec, lines + [line]) == ReadLine(codec, ReadLines(codec, lines).value, line)
  {
    ButLast(lines, line);
  }

  lemma ParseText(codec: Codec, text: seq<byte>)
    requires |text| + 1 <= MAX_JOURNAL_BYTES && |Lines(text)| <= MAX_JOURNAL_RECORDS && [] !in Lines(text)
    ensures Parse(codec, text + [NEWLINE]) == ReadLines(codec, Lines(text))
  {
    ButLast(text, NEWLINE);
  }

  lemma AppendToText(codec: Codec, text: seq<byte>, line: seq<byte>)
    requires Parse(codec, text + [NEWLINE]).Ok? && |Parse(codec, text + [NEWLINE]).value| < MAX_JOURNAL_RECORDS
    requires NEWLINE !in line && line != [] && |text| + |line| + 2 <= MAX_JOURNAL_BYTES
    ensures Parse(codec, text + [NEWLINE] + line + [NEWLINE])
            == ReadLine(codec, Parse(codec, text + [NEWLINE]).value, line)
  {
    var lines := Lines(text);
    ButLast(text, NEWLINE);
    ReadIsValid(codec, lines);
    SplitJoin(text, line);
    SplitWhole(line);
    ParseText(codec, text + [NEWLINE] + line);
    ReadAppend(codec, lines, line);
  }

  lemma ParsedEndsInNewline(codec: Codec, contents: seq<byte>)
    requires contents != [] && Parse(codec, contents).Ok?
    ensures contents == contents[..|contents| - 1] + [NEWLINE]
  {
    TakeNext(contents, |contents| - 1);
    TakeAll(contents);
  }

  /** One more line: it is read after the old ones, whatever it says. */
  lemma AppendLine(codec: Codec, contents: seq<byte>, line: seq<byte>)
    requires Parse(codec, contents).Ok? && |Parse(codec, contents).value| < MAX_JOURNAL_RECORDS
    requires NEWLINE !in line && line != [] && |contents| + |line| + 1 <= MAX_JOURNAL_BYTES
    ensures Parse(codec, contents + (line + [NEWLINE])) == ReadLine(codec, Parse(codec, contents).value, line)
  {
    AppendAssoc(contents, line, [NEWLINE]);
    if contents == [] {
      assert [] + line + [NEWLINE] == line + [NEWLINE];
      SplitWhole(line);
      ParseText(codec, line);
      ReadAppend(codec, [], line);
      assert [] + [line] == [line];
    } else {
      ParsedEndsInNewline(codec, contents);
      AppendToText(codec, contents[..|contents| - 1], line);
    }
  }

  lemma ContractedLineIsLong(codec: Codec, r: Record, previous: Option<Record>)
    requires Faithful(codec) && ValidateRecord(codec, r, previous) == None
    ensures |codec.encode(r)| >= 256 && NEWLINE !in codec.encode(r) && codec.decode(codec.encode(r)) == Some(r)
  {
    ValidatorIsExact(codec, r, previous);
    assert codec.decode(codec.encode(r)).Some?;
  }

  /** Appending the line of a valid next record to a journal that is read as `records` makes one that is read as those
      records and the new one, whatever spelling the old lines are in. The limit of 1024 records never gets in the way:
      the byte limit is reached first. */
  lemma AppendParses(codec: Codec, contents: seq<byte>, r: Record)
    requires Faithful(codec) && Parse(codec, contents).Ok?
    requires ValidateRecord(codec, r, Last(Parse(codec, contents).value)) == None
    requires |Line(codec, r)| <= MAX_RECORD_BYTES && |contents| + |Line(codec, r)| <= MAX_JOURNAL_BYTES
    ensures Parse(codec, contents + Line(codec, r)) == Ok(Parse(codec, contents).value + [r])
  {
    var records := Parse(codec, contents).value;
    FewRecords(codec, contents);
    ContractedLineIsLong(codec, r, Last(records));
    AppendLine(codec, contents, codec.encode(r));
  }

  predicate LinesFit(codec: Codec, records: seq<Record>) {
    forall i | 0 <= i < |records| :: |Line(codec, records[i])| <= MAX_RECORD_BYTES
  }

  /** Printing and reading: a valid chain that fits is read back as itself. */
  lemma {:induction false} PrintParses(codec: Codec, records: seq<Record>)
    requires Faithful(codec) && ValidChain(codec, records) && LinesFit(codec, records)
    requires |Print(codec, records)| <= MAX_JOURNAL_BYTES
    ensures Parse(codec, Print(codec, records)) == Ok(records)
    decreases |records|
  {
    if records != [] {
      var before, last := records[..|records| - 1], records[|records| - 1];
      PrintParses(codec, before);
      AppendParses(codec, Print(codec, before), last);
      TakeNext(records, |records| - 1);
      TakeAll(records);
    }
  }

  // ---------------------------------------------------------------- torn writes

  lemma BoundaryPrefix(codec: Codec, text: seq<byte>, k: nat)
    requires Parse(codec, text + [NEWLINE]).Ok? && k < |text| && text[k] == NEWLINE
    ensures Parse(codec, text[..k] + [NEWLINE]).Ok?
    ensures Parse(codec, text[..k] + [NEWLINE]).value <= Parse(codec, text + [NEWLINE]).value
  {
    var (some, all) := (Lines(text[..k]), Lines(text));
    ButLast(text, NEWLINE);
    SplitCut(text, k + 1);
    assert all[..|some|] == some;
    forall line | line in some ensures line in all {
      var i :| 0 <= i < |some| && some[i] == line;
      assert all[i] == line;
    }
    ParseText(codec, text[..k]);
    ReadPrefix(codec, all, |some|);
  }

  lemma CutText(contents: seq<byte>, k: nat)
    requires 0 < k < |contents| && contents[k - 1] == NEWLINE
    ensures contents[..|contents| - 1][..k - 1] + [NEWLINE] == contents[..k]
  {
    TakeTake(contents, |contents| - 1, k - 1);
    TakeNext(contents, k - 1);
  }

  /** Any prefix of a journal is read only if it ends where a record ends; it is then read as the first of its records.
      Everywhere else it is refused as invalid. */
  lemma PrefixParsesAtBoundaries(codec: Codec, contents: seq<byte>, k: nat)
    requires Parse(codec, contents).Ok? && k <= |contents|
    ensures Parse(codec, contents[..k]).Ok? <==> k == 0 || contents[k - 1] == NEWLINE
    ensures Parse(codec, contents[..k]).Ok? ==> Parse(codec, contents[..k]).value <= Parse(codec, contents).value
    ensures Parse(codec, contents[..k]).Err? ==> Parse(codec, contents[..k]).error == InvalidJournal
  {
    if k == |contents| {
      TakeAll(contents);
    } else if k > 0 && contents[k - 1] == NEWLINE {
      ParsedEndsInNewline(codec, contents);
      BoundaryPrefix(codec, contents[..|contents| - 1], k - 1);
      CutText(contents, k);
    }
  }

  /** A line that was only partly written makes the journal unreadable, however much of it was there. */
  lemma TornLine(codec: Codec, contents: seq<byte>, r: Record, written: nat)
    requires NEWLINE !in codec.encode(r) && 0 < written < |Line(codec, r)|
    ensures Parse(codec, contents + Line(codec, r)[..written]) == Err(InvalidJournal)
  {
    var part := Line(codec, r)[..written];
    assert part[|part| - 1] == codec.encode(r)[written - 1] != NEWLINE;
    LastOfJoin(contents, part);
  }

  lemma LastOfJoin(a: seq<byte>, b: seq<byte>)
    requires b != []
    ensures (a + b)[|a + b| - 1] == b[|b| - 1]
  {
  }
}
