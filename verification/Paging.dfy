/** Walking a growing table from its newest row to its oldest by cursors: documents through a text cursor, messages
    through their sequence numbers. */
module Paging {
  import opened Wrappers
  import opened Sequences
  import Base64

  /** The keys of a table in the order its rows were added; keys only grow. */
  predicate IsTable(keys: seq<nat>) {
    (forall i, j | 0 <= i < j < |keys| :: keys[i] < keys[j]) && (forall i | 0 <= i < |keys| :: keys[i] >= 1)
  }

  /** `order by key desc limit max`, of the rows below a key if there is one. */
  function Select(keys: seq<nat>, before: Option<nat>, max: nat): seq<nat> {
    if keys == [] || max == 0 then []
    else
      var rest, last := keys[..|keys| - 1], keys[|keys| - 1];
      if before.None? || last < before.value then [last] + Select(rest, before, max - 1) else Select(rest, before, max)
  }

  // ---------------------------------------------------------------- document cursors

  datatype Error = InvalidCursor

  function EncodeCursor(id: nat): string {
    Base64.Strip(Base64.Encode(Base64.UrlSafe, Base64.ToDecimal(id)))
  }

  function DecodeCursor(cursor: string): Result<nat, Error> {
    var bytes := Base64.Decode(Base64.UrlSafe, Base64.Pad(cursor));
    if bytes.None? then Err(InvalidCursor)
    else
      var id := Base64.FromDecimal(bytes.value);
      if id.None? || id.value < 1 then Err(InvalidCursor) else Ok(id.value)
  }

  /** Every cursor that is handed out is read back as the key it was made of. */
  lemma CursorRoundTrip(id: nat)
    ensures DecodeCursor(EncodeCursor(id)) == if id >= 1 then Ok(id) else Err(InvalidCursor)
  {
    Base64.PadStripEncode(Base64.UrlSafe, Base64.ToDecimal(id));
    Base64.DecodeEncode(Base64.UrlSafe, Base64.ToDecimal(id));
    Base64.FromToDecimal(id);
  }

  /** The key that a request starts below, if it names one. */
  function StartOf(cursor: Option<string>): Result<Option<nat>, Error> {
    if cursor.None? then Ok(None)
    else
      var id := DecodeCursor(cursor.value);
      if id.Ok? then Ok(Some(id.value)) else Err(id.error)
  }

  /** The newest rows below a key, and the oldest of them if there are more. */
  function NewestPage(ids: seq<nat>, before: Option<nat>, limit: nat): (seq<nat>, Option<nat>)
    requires limit >= 1
  {
    var rows := Select(ids, before, limit + 1);
    if |rows| > limit then (rows[..limit], Some(rows[limit - 1])) else (rows, None)
  }

  function CursorOf(key: Option<nat>): Option<string> {
    if key.Some? then Some(EncodeCursor(key.value)) else None
  }

  /** One page of documents, newest first, and the cursor of the next one. */
  function ListDocuments(ids: seq<nat>, cursor: Option<string>, limit: nat): Result<(seq<nat>, Option<string>), Error>
    requires limit >= 1
  {
    var start := StartOf(cursor);
    if start.Err? then Err(start.error)
    else
      var (page, oldest) := NewestPage(ids, start.value, limit);
      Ok((page, CursorOf(oldest)))
  }

  // ---------------------------------------------------------------- message cursors

  function Reverse(s: seq<nat>): seq<nat> {
    if s == [] then [] else [s[|s| - 1]] + Reverse(s[..|s| - 1])
  }

  lemma {:induction false} ReverseLength(s: seq<nat>)
    ensures |Reverse(s)| == |s|
    decreases |s|
  {
    if s != [] { ReverseLength(s[..|s| - 1]); }
  }

  /** One page of messages in their order, and the cursor of the page before. */
  function ListMessages(sequences: seq<nat>, before: Option<nat>, limit: nat): (seq<nat>, Option<nat>)
    requires limit >= 1
  {
    var rows := Select(sequences, before, limit + 1);
    var page := Reverse(if |rows| > limit then rows[..limit] else rows);
    (page, if |rows| > limit && |page| > 0 then Some(page[0]) else None)
  }

  // ---------------------------------------------------------------- what a page is

  /** The rows below a key. */
  function Older(keys: seq<nat>, before: Option<nat>): seq<nat> {
    if keys == [] then []
    else if before.None? || keys[|keys| - 1] < before.value then keys
    else Older(keys[..|keys| - 1], before)
  }

  lemma {:induction false} OlderIsPrefix(keys: seq<nat>, before: Option<nat>)
    requires IsTable(keys)
    ensures Older(keys, before) <= keys
    ensures before.Some? ==> forall i | 0 <= i < |Older(keys, before)| :: Older(keys, before)[i] < before.value
    ensures before.Some? ==> forall i | |Older(keys, before)| <= i < |keys| :: keys[i] >= before.value
    decreases |keys|
  {
    if keys != [] && !(before.None? || keys[|keys| - 1] < before.value) { OlderIsPrefix(keys[..|keys| - 1], before); }
  }

  /** The last `n` rows. */
  function Newest(keys: seq<nat>, n: nat): seq<nat> {
    if n >= |keys| then keys else keys[|keys| - n..]
  }

  lemma NewestNext(keys: seq<nat>, n: nat)
    requires keys != [] && n >= 1
    ensures Reverse(Newest(keys, n)) == [keys[|keys| - 1]] + Reverse(Newest(keys[..|keys| - 1], n - 1))
  {
    if n < |keys| { LastOfSlice(keys, |keys| - n); }
  }

  lemma TableInit(keys: seq<nat>)
    requires IsTable(keys) && keys != []
    ensures IsTable(keys[..|keys| - 1]) && forall i | 0 <= i < |keys| - 1 :: keys[i] < keys[|keys| - 1]
  {
  }

  lemma SelectAll(keys: seq<nat>, before: Option<nat>, max: nat)
    requires keys != [] && max > 0 && Older(keys, before) == keys
             && Older(keys[..|keys| - 1], before) == keys[..|keys| - 1]
    requires before.None? || keys[|keys| - 1] < before.value
    requires Select(keys[..|keys| - 1], before, max - 1) == Reverse(Newest(keys[..|keys| - 1], max - 1))
    ensures Select(keys, before, max) == Reverse(Newest(keys, max))
  {
    NewestNext(keys, max);
  }

  /** A query answers the newest of the older rows. */
  lemma {:induction false} SelectIsNewest(keys: seq<nat>, before: Option<nat>, max: nat)
    requires IsTable(keys)
    ensures Select(keys, before, max) == Reverse(Newest(Older(keys, before), max))
    decreases |keys|
  {
    if keys != [] && max > 0 {
      var rest := keys[..|keys| - 1];
      TableInit(keys);
      if before.None? || keys[|keys| - 1] < before.value {
        AllOlder(rest, before);
        SelectIsNewest(rest, before, max - 1);
        SelectAll(keys, before, max);
      } else {
        SelectIsNewest(rest, before, max);
      }
    }
  }

  lemma AllOlder(keys: seq<nat>, before: Option<nat>)
    requires before.None? || forall i | 0 <= i < |keys| :: keys[i] < before.value
    ensures Older(keys, before) == keys
  {
  }

  lemma LastOfSlice(s: seq<nat>, from: nat)
    requires from < |s|
    ensures Reverse(s[from..]) == [s[|s| - 1]] + Reverse(s[..|s| - 1][from..])
  {
    assert s[from..][..|s| - from - 1] == s[..|s| - 1][from..];
  }

  lemma {:induction false} ReverseAppend(a: seq<nat>, b: seq<nat>)
    ensures Reverse(a + b) == Reverse(b) + Reverse(a)
    decreases |b|
  {
    if b == [] {
      AppendEmpty(a);
      assert [] + Reverse(a) == Reverse(a);
    } else {
      var init, last := b[..|b| - 1], b[|b| - 1];
      TakeNext(b, |b| - 1);
      TakeAll(b);
      AppendAssoc(a, init, [last]);
      ButLast(a + init, last);
      ReverseAppend(a, init);
      AppendAssoc([last], Reverse(init), Reverse(a));
    }
  }

  lemma {:induction false} ReverseTwice(s: seq<nat>)
    ensures Reverse(Reverse(s)) == s
    decreases |s|
  {
    if s != [] {
      var init, last := s[..|s| - 1], s[|s| - 1];
      ReverseTwice(init);
      ReverseAppend([last], Reverse(init));
      assert [last][..0] == [];
      assert Reverse([last]) == [last] + Reverse([]) == [last];
      TakeNext(s, |s| - 1);
      TakeAll(s);
    }
  }

  lemma OneMore(older: seq<nat>, limit: nat)
    requires 1 <= limit < |older|
    ensures Reverse(Newest(older, limit + 1)) == Reverse(older[|older| - limit..]) + [older[|older| - limit - 1]]
  {
    var (k, first) := (|older| - limit, [older[|older| - limit - 1]]);
    assert Newest(older, limit + 1) == first + older[k..];
    ReverseAppend(first, older[k..]);
    assert first[..0] == [];
    assert Reverse(first) == first;
  }

  lemma TakeOfReverse(page: seq<nat>, x: nat)
    ensures |Reverse(page) + [x]| == |page| + 1 && (Reverse(page) + [x])[..|page|] == Reverse(page)
  {
    ReverseLength(page);
    ButLast(Reverse(page), x);
  }

  lemma PageOfOlder(older: seq<nat>, limit: nat)
    requires 1 <= limit < |older|
    ensures |Reverse(Newest(older, limit + 1))| == limit + 1
    ensures Reverse(Newest(older, limit + 1))[..limit] == Reverse(older[|older| - limit..])
  {
    OneMore(older, limit);
    TakeOfReverse(older[|older| - limit..], older[|older| - limit - 1]);
  }

  /** With more rows than fit a page, one more than the page is found, and the page is the newest of them. */
  lemma PageOfMany(keys: seq<nat>, before: Option<nat>, limit: nat)
    requires IsTable(keys) && limit >= 1 && |Older(keys, before)| > limit
    ensures |Select(keys, before, limit + 1)| == limit + 1
    ensures Select(keys, before, limit + 1)[..limit] == Reverse(Older(keys, before)[|Older(keys, before)| - limit..])
  {
    SelectIsNewest(keys, before, limit + 1);
    PageOfOlder(Older(keys, before), limit);
  }

  /** What is older than the oldest row of a page is the rest, and there is some. */
  lemma RestOfMany(keys: seq<nat>, before: Option<nat>, k: nat)
    requires IsTable(keys) && 1 <= k < |Older(keys, before)|
    ensures Older(keys, Some(Older(keys, before)[k])) == Older(keys, before)[..k] && Older(keys, before)[k] >= 2
  {
    OlderIsPrefix(keys, before);
    OlderAt(keys, k);
    assert keys[..k] == Older(keys, before)[..k] && keys[k] == Older(keys, before)[k];
    assert keys[k - 1] < keys[k];
  }

  lemma {:induction false} OlderAt(keys: seq<nat>, k: nat)
    requires IsTable(keys) && k < |keys|
    ensures Older(keys, Some(keys[k])) == keys[..k]
    decreases |keys|
  {
    var rest := keys[..|keys| - 1];
    if k == |keys| - 1 {
      AllOlder(rest, Some(keys[k]));
    } else {
      assert keys[k] < keys[|keys| - 1];
      OlderAt(rest, k);
      TakeTake(keys, |keys| - 1, k);
    }
  }

  // ---------------------------------------------------------------- walking

  /** The table as it is found at each page: rows may have been added since the page before. */
  predicate Grows(tables: seq<seq<nat>>) {
    && (forall i | 0 <= i < |tables| :: IsTable(tables[i]))
    && (forall i | 0 <= i < |tables| - 1 :: tables[i] <= tables[i + 1])
  }

  /** Following cursors from one to the next: what was listed, and whether the end was reached. */
  function WalkDocuments(tables: seq<seq<nat>>, cursor: Option<string>, limit: nat): (seq<nat>, bool)
    requires limit >= 1
  {
    if tables == [] then ([], false)
    else
      match ListDocuments(tables[0], cursor, limit)
      case Err(_) => ([], false)
      case Ok((page, next)) =>
        if next.None? then (page, true)
        else
          var (rest, done) := WalkDocuments(tables[1..], next, limit);
          (page + rest, done)
  }

  /** The same for messages: each page is put before what has been listed. */
  function WalkMessages(tables: seq<seq<nat>>, before: Option<nat>, limit: nat): (seq<nat>, bool)
    requires limit >= 1
  {
    if tables == [] then ([], false)
    else
      var (page, next) := ListMessages(tables[0], before, limit);
      if next.None? then (page, true)
      else
        var (rest, done) := WalkMessages(tables[1..], next, limit);
        (rest + page, done)
  }

  lemma LastPage(keys: seq<nat>, before: Option<nat>, limit: nat)
    requires IsTable(keys) && |Older(keys, before)| <= limit
    ensures Select(keys, before, limit + 1) == Reverse(Older(keys, before))
            && |Select(keys, before, limit + 1)| <= limit
  {
    SelectIsNewest(keys, before, limit + 1);
    ReverseLength(Older(keys, before));
  }

  lemma GrowsTail(tables: seq<seq<nat>>)
    requires Grows(tables) && |tables| > 0
    ensures Grows(tables[1..])
  {
    var rest := tables[1..];
    forall i | 0 <= i < |rest| ensures IsTable(rest[i]) && (i < |rest| - 1 ==> rest[i] <= rest[i + 1]) {
      assert rest[i] == tables[i + 1];
      if i < |rest| - 1 { assert rest[i + 1] == tables[i + 2]; }
    }
  }

  lemma NextOlder(tables: seq<seq<nat>>, before: Option<nat>, limit: nat)
    requires Grows(tables) && |tables| > 1 && limit >= 1 && |Older(tables[0], before)| > limit
    ensures var older := Older(tables[0], before);
            Older(tables[1], Some(older[|older| - limit])) == older[..|older| - limit]
  {
    var k := |Older(tables[0], before)| - limit;
    assert tables[0] <= tables[0 + 1];
    StillOlder(tables[0], tables[1], before, k);
  }

  lemma StillOlder(keys: seq<nat>, grown: seq<nat>, before: Option<nat>, k: nat)
    requires IsTable(keys) && IsTable(grown) && keys <= grown && k < |Older(keys, before)|
    ensures Older(grown, Some(Older(keys, before)[k])) == Older(keys, before)[..k]
  {
    OlderIsPrefix(keys, before);
    OlderAt(grown, k);
    assert grown[k] == Older(keys, before)[k] && grown[..k] == Older(keys, before)[..k];
  }

  /** The same on keys. */
  function WalkKeys(tables: seq<seq<nat>>, before: Option<nat>, limit: nat): (seq<nat>, bool)
    requires limit >= 1
  {
    if tables == [] then ([], false)
    else
      var (page, oldest) := NewestPage(tables[0], before, limit);
      if oldest.None? then (page, true)
      else
        var (rest, done) := WalkKeys(tables[1..], oldest, limit);
        (page + rest, done)
  }

  lemma LastOfPage(rows: seq<nat>, page: seq<nat>, limit: nat)
    requires |page| == limit >= 1 && |rows| == limit + 1 && rows[..limit] == Reverse(page)
    ensures rows[limit - 1] == page[0]
  {
    OldestOfPage(page);
    assert rows[..limit][limit - 1] == rows[limit - 1];
  }

  /** A page: the rest, or the newest of the rest and the oldest of them. */
  lemma PageOfKeys(keys: seq<nat>, before: Option<nat>, limit: nat)
    requires IsTable(keys) && limit >= 1
    ensures var older := Older(keys, before);
            NewestPage(keys, before, limit)
            == if |older| <= limit then (Reverse(older), None)
               else (Reverse(older[|older| - limit..]), Some(older[|older| - limit]))
  {
    var older := Older(keys, before);
    if |older| <= limit {
      LastPage(keys, before, limit);
    } else {
      PageOfMany(keys, before, limit);
      LastOfPage(Select(keys, before, limit + 1), older[|older| - limit..], limit);
    }
  }

  lemma {:induction false} WalkFrom(tables: seq<seq<nat>>, before: Option<nat>, limit: nat)
    requires Grows(tables) && limit >= 1 && |tables| > 0 && |Older(tables[0], before)| < |tables| * limit
    ensures WalkKeys(tables, before, limit) == (Reverse(Older(tables[0], before)), true)
    decreases |tables|
  {
    var older := Older(tables[0], before);
    PageOfKeys(tables[0], before, limit);
    if |older| > limit {
      var k := |older| - limit;
      Enough(|older|, |tables|, limit);
      NextOlder(tables, before, limit);
      GrowsTail(tables);
      WalkFrom(tables[1..], Some(older[k]), limit);
      JoinBack(older, k);
    }
  }

  lemma StartOfCursor(key: Option<nat>)
    requires key.Some? ==> key.value >= 1
    ensures StartOf(CursorOf(key)) == Ok(key)
  {
    if key.Some? { CursorRoundTrip(key.value); }
  }

  /** Going through the cursor texts is going through the keys. */
  lemma {:induction false} CursorsStandForKeys(tables: seq<seq<nat>>, before: Option<nat>, limit: nat)
    requires Grows(tables) && limit >= 1 && (before.Some? ==> before.value >= 1)
    ensures WalkDocuments(tables, CursorOf(before), limit) == WalkKeys(tables, before, limit)
    decreases |tables|
  {
    if tables != [] {
      var (page, oldest) := NewestPage(tables[0], before, limit);
      StartOfCursor(before);
      if oldest.Some? {
        PageOfKeys(tables[0], before, limit);
        RestOfMany(tables[0], before, |Older(tables[0], before)| - limit);
        GrowsTail(tables);
        CursorsStandForKeys(tables[1..], oldest, limit);
      }
    }
  }

  lemma JoinBack(s: seq<nat>, k: nat)
    requires k <= |s|
    ensures s[..k] + s[k..] == s && Reverse(s[k..]) + Reverse(s[..k]) == Reverse(s)
  {
    Rejoin(s, k);
    ReverseAppend(s[..k], s[k..]);
  }

  lemma Enough(rows: nat, pages: nat, limit: nat)
    requires rows < pages * limit && limit < rows
    ensures pages > 1 && rows - limit < (pages - 1) * limit
  {
  }

  lemma {:induction false} OldestOfPage(page: seq<nat>)
    requires page != []
    ensures |Reverse(page)| == |page| && Reverse(page)[|page| - 1] == page[0]
    decreases |page|
  {
    ReverseLength(page);
    if |page| > 1 {
      OldestOfPage(page[..|page| - 1]);
    }
  }

  /** Following the document cursors from the first page to the end visits every row that was there at the start exactly
      once, newest first, for any page size and whatever is stored between the pages. */
  lemma DocumentsAreComplete(tables: seq<seq<nat>>, limit: nat)
    requires Grows(tables) && limit >= 1 && |tables| > 0 && |tables[0]| < |tables| * limit
    ensures WalkDocuments(tables, None, limit) == (Reverse(tables[0]), true)
  {
    AllOlder(tables[0], None);
    WalkFrom(tables, None, limit);
    CursorsStandForKeys(tables, None, limit);
  }

  lemma PageReversed(rows: seq<nat>, older: seq<nat>, limit: nat)
    requires 1 <= limit < |older| && |rows| == limit + 1 && rows[..limit] == Reverse(older[|older| - limit..])
    ensures Reverse(rows[..limit]) == older[|older| - limit..]
    ensures Reverse(rows[..limit])[0] == older[|older| - limit]
  {
    ReverseTwice(older[|older| - limit..]);
  }

  lemma MessagePage(keys: seq<nat>, before: Option<nat>, limit: nat)
    requires IsTable(keys) && limit >= 1
    ensures var older := Older(keys, before);
            ListMessages(keys, before, limit)
            == if |older| <= limit then (older, None) else (older[|older| - limit..], Some(older[|older| - limit]))
  {
    var older := Older(keys, before);
    if |older| <= limit {
      LastPage(keys, before, limit);
      ReverseTwice(older);
    } else {
      PageOfMany(keys, before, limit);
      PageReversed(Select(keys, before, limit + 1), older, limit);
    }
  }

  /** A message cursor that is handed out is at least 2, which is what the next request must pass. */
  lemma MessageCursorIsValid(sequences: seq<nat>, before: Option<nat>, limit: nat)
    requires IsTable(sequences) && limit >= 1 && ListMessages(sequences, before, limit).1.Some?
    ensures ListMessages(sequences, before, limit).1.value >= 2
  {
    MessagePage(sequences, before, limit);
    RestOfMany(sequences, before, |Older(sequences, before)| - limit);
  }

  lemma {:induction false} WalkMessagesFrom(tables: seq<seq<nat>>, before: Option<nat>, limit: nat)
    requires Grows(tables) && limit >= 1 && |tables| > 0 && |Older(tables[0], before)| < |tables| * limit
    ensures WalkMessages(tables, before, limit) == (Older(tables[0], before), true)
    decreases |tables|
  {
    var older := Older(tables[0], before);
    MessagePage(tables[0], before, limit);
    if |older| > limit {
      var k := |older| - limit;
      Enough(|older|, |tables|, limit);
      NextOlder(tables, before, limit);
      GrowsTail(tables);
      WalkMessagesFrom(tables[1..], Some(older[k]), limit);
      JoinBack(older, k);
    }
  }

  /** Following the message cursors puts together exactly the messages that were there at the start, in their order. */
  lemma MessagesAreComplete(tables: seq<seq<nat>>, limit: nat)
    requires Grows(tables) && limit >= 1 && |tables| > 0 && |tables[0]| < |tables| * limit
    ensures WalkMessages(tables, None, limit) == (tables[0], true)
  {
    AllOlder(tables[0], None);
    WalkMessagesFrom(tables, None, limit);
  }
}
