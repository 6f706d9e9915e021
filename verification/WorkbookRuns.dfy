/** What every run of the workbook keeps: the ledger replays to the table and undoes to the start, versions count change
    sets, and an approved proposal wrote exactly what it showed. */
module WorkbookRuns {
  import opened Wrappers
  import opened Sequences
  import opened WorkbookRules

  // ---------------------------------------------------------------- replaying the ledger

  /** The cells of one row after some items. */
  function ApplyItems(items: seq<Diff>, row: RowId, cells: Cells): Cells {
    if items == [] then cells
    else
      var before, d := ApplyItems(items[..|items| - 1], row, cells), items[|items| - 1];
      if d.row == row then before[d.field := d.after] else before
  }

  /** A row as the ledger tells it: fresh, then one version on for each change set that touches it. */
  function RowOf(ledger: seq<ChangeSet>, row: RowId): Row {
    if ledger == [] then FRESH_ROW
    else
      var before, items := RowOf(ledger[..|ledger| - 1], row), ledger[|ledger| - 1].items;
      if Touches(items, row) then Row(before.version + 1, ApplyItems(items, row, before.cells)) else before
  }

  function CountTouching(ledger: seq<ChangeSet>, row: RowId): nat {
    if ledger == [] then 0
    else CountTouching(ledger[..|ledger| - 1], row) + if Touches(ledger[|ledger| - 1].items, row) then 1 else 0
  }

  lemma {:induction false} VersionCountsChangeSets(ledger: seq<ChangeSet>, row: RowId)
    ensures RowOf(ledger, row).version == 1 + CountTouching(ledger, row)
    decreases |ledger|
  {
    if ledger != [] { VersionCountsChangeSets(ledger[..|ledger| - 1], row); }
  }

  lemma {:induction false} UntouchedCells(items: seq<Diff>, row: RowId, cells: Cells)
    requires !Touches(items, row)
    ensures ApplyItems(items, row, cells) == cells
    decreases |items|
  {
    if items != [] {
      var last := |items| - 1;
      assert items[last].row != row;
      assert forall i | 0 <= i < last :: items[..last][i] == items[i];
      UntouchedCells(items[..last], row, cells);
    }
  }

  /** Writing the diffs to the table writes them to each of its rows. */
  lemma {:induction false} AppliedRow(rows: map<RowId, Row>, diffs: seq<Diff>, row: RowId)
    requires row in rows && forall i | 0 <= i < |diffs| :: diffs[i].row in rows
    ensures ApplyDiffs(rows, diffs)[row] == rows[row].(cells := ApplyItems(diffs, row, rows[row].cells))
    decreases |diffs|
  {
    if diffs != [] { AppliedRow(rows, diffs[..|diffs| - 1], row); }
  }

  /** The table is what the ledger tells. */
  ghost predicate RowsInv(s: Store) {
    && (forall r | r in s.rows :: s.rows[r] == RowOf(s.ledger, r))
    && (forall r: RowId | r !in s.rows :: RowOf(s.ledger, r) == FRESH_ROW)
  }

  lemma CommitKeepsRows(s: Store, diffs: seq<Diff>, proposal: Option<nat>)
    requires RowsInv(s) && forall i | 0 <= i < |diffs| :: diffs[i].row in s.rows
    ensures RowsInv(Commit(s, diffs, proposal))
  {
    var after := Commit(s, diffs, proposal);
    ButLast(s.ledger, ChangeSet(diffs, proposal));
    forall r | r in after.rows ensures after.rows[r] == RowOf(after.ledger, r) {
      AppliedRow(s.rows, diffs, r);
      if !Touches(diffs, r) { UntouchedCells(diffs, r, s.rows[r].cells); }
    }
  }

  // ---------------------------------------------------------------- what a change set records

  predicate DistinctCells(diffs: seq<Diff>) {
    forall i, j | 0 <= i < j < |diffs| :: (diffs[i].row, diffs[i].field) != (diffs[j].row, diffs[j].field)
  }

  /** Each diff goes from the row's cell to another value. */
  predicate ChangesRows(rows: map<RowId, Row>, diffs: seq<Diff>) {
    forall i | 0 <= i < |diffs| ::
      && diffs[i].row in rows && diffs[i].before == CellOf(rows[diffs[i].row].cells, diffs[i].field)
      && diffs[i].before != diffs[i].after
  }

  lemma {:induction false} CellDiffsAreChanges(row: RowId, current: Cells, cells: seq<(Field, Value)>)
    requires DistinctFields(cells)
    ensures forall i | 0 <= i < |CellDiffs(row, current, cells)| ::
              var d := CellDiffs(row, current, cells)[i];
              && d.row == row && d.before == CellOf(current, d.field) && d.before != d.after
                 && (d.field, d.after) in cells
    ensures DistinctCells(CellDiffs(row, current, cells))
    decreases |cells|
  {
    if cells != [] {
      var init, last := cells[..|cells| - 1], cells[|cells| - 1];
      var before, all := CellDiffs(row, current, init), CellDiffs(row, current, cells);
      CellDiffsAreChanges(row, current, init);
      forall i | 0 <= i < |before|
        ensures before[i].field != last.0 && (before[i].field, before[i].after) in cells && all[i] == before[i]
      {
        var k :| 0 <= k < |init| && init[k] == (before[i].field, before[i].after);
        assert cells[k] == init[k];
      }
      assert last in cells;
    }
  }

  lemma {:induction false} BuiltDiffsAreChanges(rows: map<RowId, Row>, changes: seq<Change>)
    requires forall i | 0 <= i < |changes| :: changes[i].row in rows && DistinctFields(changes[i].cells)
    requires forall i, j | 0 <= i < j < |changes| :: changes[i].row != changes[j].row
    ensures ChangesRows(rows, BuildDiffs(rows, changes)) && DistinctCells(BuildDiffs(rows, changes))
    ensures forall i | 0 <= i < |BuildDiffs(rows, changes)| ::
              exists k | 0 <= k < |changes| :: changes[k].row == BuildDiffs(rows, changes)[i].row
    decreases |changes|
  {
    if changes != [] {
      var init, last := changes[..|changes| - 1], changes[|changes| - 1];
      var before, more := BuildDiffs(rows, init), CellDiffs(last.row, rows[last.row].cells, last.cells);
      BuiltDiffsAreChanges(rows, init);
      CellDiffsAreChanges(last.row, rows[last.row].cells, last.cells);
      forall i | 0 <= i < |before|
        ensures before[i].row != last.row && exists k | 0 <= k < |changes| :: changes[k].row == before[i].row
      {
        var k :| 0 <= k < |init| && init[k].row == before[i].row;
        assert changes[k].row == before[i].row;
      }
      JoinChanges(rows, before, more, last.row);
    }
  }

  lemma JoinChanges(rows: map<RowId, Row>, a: seq<Diff>, b: seq<Diff>, row: RowId)
    requires ChangesRows(rows, a) && ChangesRows(rows, b) && DistinctCells(a) && DistinctCells(b)
    requires (forall i | 0 <= i < |a| :: a[i].row != row) && (forall i | 0 <= i < |b| :: b[i].row == row)
    ensures ChangesRows(rows, a + b) && DistinctCells(a + b)
  {
  }

  /** The value an item replaces is the one the replay has reached at that point. */
  predicate RecordsReplay(ledger: seq<ChangeSet>, items: seq<Diff>) {
    forall i | 0 <= i < |items| ::
      items[i].before == CellOf(ApplyItems(items[..i], items[i].row, RowOf(ledger, items[i].row).cells), items[i].field)
  }

  lemma {:induction false} OtherCellsStay(items: seq<Diff>, row: RowId, field: Field, cells: Cells)
    requires forall i | 0 <= i < |items| :: (items[i].row, items[i].field) != (row, field)
    ensures CellOf(ApplyItems(items, row, cells), field) == CellOf(cells, field)
    decreases |items|
  {
    if items != [] { OtherCellsStay(items[..|items| - 1], row, field, cells); }
  }

  lemma ChangesRecordReplay(s: Store, diffs: seq<Diff>)
    requires RowsInv(s) && ChangesRows(s.rows, diffs) && DistinctCells(diffs)
    ensures RecordsReplay(s.ledger, diffs)
  {
    forall i | 0 <= i < |diffs|
      ensures diffs[i].before == CellOf(ApplyItems(diffs[..i], diffs[i].row, RowOf(s.ledger, diffs[i].row).cells),
                                        diffs[i].field)
    {
      OtherCellsStay(diffs[..i], diffs[i].row, diffs[i].field, s.rows[diffs[i].row].cells);
    }
  }

  // ---------------------------------------------------------------- the invariant

  predicate EntryAt(ledger: seq<ChangeSet>, k: nat)
    requires k < |ledger|
  {
    ledger[k].items != [] && RecordsReplay(ledger[..k], ledger[k].items)
  }

  predicate EntriesInv(ledger: seq<ChangeSet>) {
    forall k | 0 <= k < |ledger| :: EntryAt(ledger, k)
  }

  function StoredDiff(item: Item): Diff {
    Diff(item.row, item.field, item.before, item.proposed)
  }

  function StoredDiffs(items: seq<Item>): seq<Diff> {
    seq(|items|, i requires 0 <= i < |items| => StoredDiff(items[i]))
  }

  /** A proposal shows the cells of its rows as they were when it was made. */
  predicate ItemInv(ledger: seq<ChangeSet>, item: Item) {
    var row := RowOf(ledger, item.row);
    item.expectedVersion == row.version && item.before == CellOf(row.cells, item.field) && item.before != item.proposed
  }

  predicate ProposalInv(s: Store, p: Proposal) {
    && p.madeAt <= |s.ledger| && p.items != [] && ItemsHaveRows(s.rows, p.items)
    && DistinctCells(StoredDiffs(p.items))
    && forall i | 0 <= i < |p.items| :: ItemInv(s.ledger[..p.madeAt], p.items[i])
  }

  /** The k-th change set, if it is a proposal's, is of an approved one and holds its stored pairs, written when its
      rows had the versions it was made on. */
  predicate EntryOfProposal(proposals: seq<Proposal>, ledger: seq<ChangeSet>, k: nat)
    requires k < |ledger|
  {
    ledger[k].proposal.Some? ==>
      var id := ledger[k].proposal.value;
      && id < |proposals| && proposals[id].status == Approved
      && ledger[k].items == StoredDiffs(proposals[id].items)
      && forall i | 0 <= i < |proposals[id].items| ::
           RowOf(ledger[..k], proposals[id].items[i].row).version == proposals[id].items[i].expectedVersion
  }

  predicate Decided(ledger: seq<ChangeSet>, id: nat) {
    exists k | 0 <= k < |ledger| :: ledger[k].proposal == Some(id)
  }

  /** The change sets of proposals are theirs, one for each approved proposal. */
  predicate DecisionsInv(proposals: seq<Proposal>, ledger: seq<ChangeSet>) {
    && (forall k | 0 <= k < |ledger| :: EntryOfProposal(proposals, ledger, k))
    && (forall k, l | 0 <= k < l < |ledger| && ledger[k].proposal.Some? :: ledger[k].proposal != ledger[l].proposal)
    && (forall id | 0 <= id < |proposals| && proposals[id].status == Approved :: Decided(ledger, id))
  }

  ghost predicate Inv(s: Store) {
    && RowsInv(s) && EntriesInv(s.ledger) && DecisionsInv(s.proposals, s.ledger)
    && forall id | 0 <= id < |s.proposals| :: ProposalInv(s, s.proposals[id])
  }

  lemma CommitKeepsEntries(s: Store, diffs: seq<Diff>, proposal: Option<nat>)
    requires RowsInv(s) && EntriesInv(s.ledger) && diffs != [] && ChangesRows(s.rows, diffs) && DistinctCells(diffs)
    ensures EntriesInv(Commit(s, diffs, proposal).ledger)
  {
    var after := Commit(s, diffs, proposal).ledger;
    ChangesRecordReplay(s, diffs);
    forall k | 0 <= k < |after| ensures EntryAt(after, k) {
      TakeOfAppend(s.ledger, ChangeSet(diffs, proposal), k);
      assert k < |s.ledger| ==> EntryAt(s.ledger, k);
    }
  }

  lemma TakeOfAppend<T>(s: seq<T>, x: T, k: nat)
    requires k <= |s|
    ensures (s + [x])[..k] == s[..k] && (k == |s| ==> s[..k] == s)
  {
  }

  /** What is appended to the ledger, and rows that are added, leave a proposal as it was. */
  lemma ProposalStays(s: Store, after: Store, p: Proposal)
    requires ProposalInv(s, p) && s.rows.Keys <= after.rows.Keys && s.ledger <= after.ledger
    ensures ProposalInv(after, p)
  {
    assert after.ledger[..p.madeAt] == s.ledger[..p.madeAt];
    forall i | 0 <= i < |p.items| ensures p.items[i].row in after.rows {
      assert p.items[i].row in s.rows.Keys;
    }
  }

  lemma PreparedAreChanges(s: Store, changes: seq<Change>)
    requires Prepare(s, changes).Ok?
    ensures var diffs := Prepare(s, changes).value;
            diffs != [] && ChangesRows(s.rows, diffs) && DistinctCells(diffs)
  {
    BuiltDiffsAreChanges(s.rows, changes);
  }

  lemma EntryStays(proposals: seq<Proposal>, after: seq<Proposal>, ledger: seq<ChangeSet>, entry: ChangeSet, k: nat)
    requires k < |ledger| && EntryOfProposal(proposals, ledger, k) && |proposals| <= |after|
    requires forall id | 0 <= id < |proposals| && proposals[id].status == Approved :: after[id] == proposals[id]
    ensures EntryOfProposal(after, ledger + [entry], k)
  {
    TakeOfAppend(ledger, entry, k);
  }

  lemma DecidedStays(ledger: seq<ChangeSet>, entry: ChangeSet, id: nat)
    ensures Decided(ledger, id) || entry.proposal == Some(id) ==> Decided(ledger + [entry], id)
  {
    var after := ledger + [entry];
    assert after[|ledger|] == entry;
    if Decided(ledger, id) {
      var k :| 0 <= k < |ledger| && ledger[k].proposal == Some(id);
      assert after[k].proposal == Some(id);
    }
  }

  lemma OwnerEditKeepsDecisions(proposals: seq<Proposal>, ledger: seq<ChangeSet>, entry: ChangeSet)
    requires DecisionsInv(proposals, ledger) && entry.proposal.None?
    ensures DecisionsInv(proposals, ledger + [entry])
  {
    forall k | 0 <= k < |ledger| + 1 ensures EntryOfProposal(proposals, ledger + [entry], k) {
      if k < |ledger| { EntryStays(proposals, proposals, ledger, entry, k); }
    }
    forall id | 0 <= id < |proposals| && proposals[id].status == Approved ensures Decided(ledger + [entry], id) {
      DecidedStays(ledger, entry, id);
    }
  }

  lemma OwnerEditKeepsInv(s: Store, changes: seq<Change>)
    requires Inv(s)
    ensures Inv(ApplyOwnerChanges(s, changes).0)
  {
    if Prepare(s, changes).Ok? {
      var diffs := Prepare(s, changes).value;
      PreparedAreChanges(s, changes);
      var after := Commit(s, diffs, None);
      CommitKeepsRows(s, diffs, None);
      CommitKeepsEntries(s, diffs, None);
      OwnerEditKeepsDecisions(s.proposals, s.ledger, ChangeSet(diffs, None));
      forall id | 0 <= id < |s.proposals| ensures ProposalInv(after, s.proposals[id]) {
        ProposalStays(s, after, s.proposals[id]);
      }
    }
  }

  lemma MadeProposalInv(s: Store, diffs: seq<Diff>)
    requires RowsInv(s) && diffs != [] && ChangesRows(s.rows, diffs) && DistinctCells(diffs)
    ensures ProposalInv(s, Proposal(Pending, ItemsOf(s.rows, diffs), |s.ledger|))
    ensures StoredDiffs(ItemsOf(s.rows, diffs)) == diffs
  {
    var items := ItemsOf(s.rows, diffs);
    assert StoredDiffs(items) == diffs;
    TakeAll(s.ledger);
    forall i | 0 <= i < |items| ensures items[i].row in s.rows && ItemInv(s.ledger, items[i]) {
      assert diffs[i].row in s.rows;
    }
  }

  lemma ProposeKeepsInv(s: Store, changes: seq<Change>)
    requires Inv(s)
    ensures Inv(CreateProposal(s, changes).0)
  {
    if Prepare(s, changes).Ok? {
      var diffs := Prepare(s, changes).value;
      var after := CreateProposal(s, changes).0;
      PreparedAreChanges(s, changes);
      MadeProposalInv(s, diffs);
      forall k | 0 <= k < |s.ledger| ensures EntryOfProposal(after.proposals, s.ledger, k) {
        assert EntryOfProposal(s.proposals, s.ledger, k);
      }
      forall id | 0 <= id < |after.proposals| ensures ProposalInv(after, after.proposals[id]) {
        if id < |s.proposals| { ProposalStays(s, after, s.proposals[id]); }
        else { ProposalStays(s, after, after.proposals[id]); }
      }
    }
  }

  // ---------------------------------------------------------------- equal versions, equal cells

  /** Optimistic concurrency is sound: a row that has the version it had is the row it was. */
  lemma {:induction false} SameVersionSameRow(ledger: seq<ChangeSet>, n: nat, row: RowId)
    requires n <= |ledger|
    ensures RowOf(ledger[..n], row).version <= RowOf(ledger, row).version
    ensures RowOf(ledger[..n], row).version == RowOf(ledger, row).version
            ==> RowOf(ledger[..n], row) == RowOf(ledger, row)
    decreases |ledger|
  {
    if n == |ledger| {
      TakeAll(ledger);
    } else {
      TakeTake(ledger, |ledger| - 1, n);
      SameVersionSameRow(ledger[..|ledger| - 1], n, row);
    }
  }

  /** Every item's row still has the version that the proposal was made on. */
  predicate UpToDate(rows: map<RowId, Row>, items: seq<Item>)
    requires ItemsHaveRows(rows, items)
  {
    forall i | 0 <= i < |items| :: rows[items[i].row].version == items[i].expectedVersion
  }

  lemma {:induction false} ApprovalChecksEveryVersion(rows: map<RowId, Row>, items: seq<Item>)
    requires ItemsHaveRows(rows, items)
    ensures ApprovalDiffs(rows, items).Ok? <==> UpToDate(rows, items)
    ensures ApprovalDiffs(rows, items).Err? ==>
              ApprovalDiffs(rows, items).error.StaleVersion? && exists i | 0 <= i < |items| ::
                items[i].row == ApprovalDiffs(rows, items).error.row
                  && rows[items[i].row].version != items[i].expectedVersion
    decreases |items|
  {
    if items != [] {
      var init := items[..|items| - 1];
      ApprovalChecksEveryVersion(rows, init);
      if ApprovalDiffs(rows, init).Err? {
        var i :| 0 <= i < |init| && init[i].row == ApprovalDiffs(rows, init).error.row
          && rows[init[i].row].version != init[i].expectedVersion;
        assert items[i] == init[i];
      }
    }
  }

  lemma {:induction false} ApprovalDiffsAre(rows: map<RowId, Row>, items: seq<Item>)
    requires ItemsHaveRows(rows, items) && ApprovalDiffs(rows, items).Ok?
    requires forall i | 0 <= i < |items| :: items[i].before == CellOf(rows[items[i].row].cells, items[i].field)
    ensures ApprovalDiffs(rows, items).value == StoredDiffs(items)
    decreases |items|
  {
    if items != [] { ApprovalDiffsAre(rows, items[..|items| - 1]); }
  }

  /** An approval that is accepted writes exactly the stored pairs of before and proposed. */
  lemma ApprovalWritesStoredPairs(s: Store, id: nat)
    requires Inv(s) && id < |s.proposals| && ApprovalDiffs(s.rows, s.proposals[id].items).Ok?
    ensures ApprovalDiffs(s.rows, s.proposals[id].items).value == StoredDiffs(s.proposals[id].items)
  {
    var p := s.proposals[id];
    ApprovalChecksEveryVersion(s.rows, p.items);
    forall i | 0 <= i < |p.items| ensures p.items[i].before == CellOf(s.rows[p.items[i].row].cells, p.items[i].field) {
      assert ItemInv(s.ledger[..p.madeAt], p.items[i]);
      SameVersionSameRow(s.ledger, p.madeAt, p.items[i].row);
    }
    ApprovalDiffsAre(s.rows, p.items);
  }

  lemma ApprovedDiffsAreChanges(s: Store, id: nat)
    requires Inv(s) && id < |s.proposals| && ApprovalDiffs(s.rows, s.proposals[id].items).Ok?
    ensures var diffs := ApprovalDiffs(s.rows, s.proposals[id].items).value;
            diffs != [] && ChangesRows(s.rows, diffs) && DistinctCells(diffs)
  {
    var items := s.proposals[id].items;
    ApprovalWritesStoredPairs(s, id);
    ApprovalChecksEveryVersion(s.rows, items);
    forall i | 0 <= i < |items|
      ensures items[i].before == CellOf(s.rows[items[i].row].cells, items[i].field)
              && items[i].before != items[i].proposed
    {
      assert ItemInv(s.ledger[..s.proposals[id].madeAt], items[i]);
      SameVersionSameRow(s.ledger, s.proposals[id].madeAt, items[i].row);
    }
  }

  lemma ApprovalEntry(s: Store, id: nat)
    requires Inv(s) && LockProposal(s, id).None? && ApprovalDiffs(s.rows, s.proposals[id].items).Ok?
    ensures ApproveProposal(s, id).0.ledger == s.ledger + [ChangeSet(StoredDiffs(s.proposals[id].items), Some(id))]
    ensures EntryOfProposal(ApproveProposal(s, id).0.proposals, ApproveProposal(s, id).0.ledger, |s.ledger|)
  {
    var items := s.proposals[id].items;
    ApprovalWritesStoredPairs(s, id);
    ApprovalChecksEveryVersion(s.rows, items);
    TakeOfAppend(s.ledger, ChangeSet(StoredDiffs(items), Some(id)), |s.ledger|);
    forall i | 0 <= i < |items| ensures RowOf(s.ledger, items[i].row).version == items[i].expectedVersion {
      assert s.rows[items[i].row] == RowOf(s.ledger, items[i].row);
    }
  }

  lemma ApprovalKeepsDecisions(proposals: seq<Proposal>, ledger: seq<ChangeSet>, id: nat, entry: ChangeSet)
    requires DecisionsInv(proposals, ledger) && id < |proposals| && proposals[id].status == Pending
             && entry.proposal == Some(id)
    requires EntryOfProposal(proposals[id := proposals[id].(status := Approved)], ledger + [entry], |ledger|)
    ensures DecisionsInv(proposals[id := proposals[id].(status := Approved)], ledger + [entry])
  {
    var after := proposals[id := proposals[id].(status := Approved)];
    forall k | 0 <= k < |ledger| + 1 ensures EntryOfProposal(after, ledger + [entry], k) {
      if k < |ledger| { EntryStays(proposals, after, ledger, entry, k); }
    }
    forall k | 0 <= k < |ledger| ensures ledger[k].proposal != Some(id) {
      assert EntryOfProposal(proposals, ledger, k);
    }
    forall other | 0 <= other < |after| && after[other].status == Approved ensures Decided(ledger + [entry], other) {
      DecidedStays(ledger, entry, other);
    }
  }

  lemma ApproveKeepsInv(s: Store, id: nat)
    requires Inv(s)
    ensures Inv(ApproveProposal(s, id).0)
  {
    if LockProposal(s, id).None? && ApprovalDiffs(s.rows, s.proposals[id].items).Ok? {
      var diffs := ApprovalDiffs(s.rows, s.proposals[id].items).value;
      var after := ApproveProposal(s, id).0;
      ApprovedDiffsAreChanges(s, id);
      CommitKeepsRows(s, diffs, Some(id));
      CommitKeepsEntries(s, diffs, Some(id));
      ApprovalEntry(s, id);
      ApprovalKeepsDecisions(s.proposals, s.ledger, id, ChangeSet(diffs, Some(id)));
      forall k | 0 <= k < |after.proposals| ensures ProposalInv(after, after.proposals[k]) {
        ProposalStays(s, after, s.proposals[k]);
      }
    }
  }

  lemma RejectKeepsInv(s: Store, id: nat)
    requires Inv(s)
    ensures Inv(RejectProposal(s, id).0)
  {
    var after := RejectProposal(s, id).0;
    forall k | 0 <= k < |s.ledger| ensures EntryOfProposal(after.proposals, s.ledger, k) {
      assert EntryOfProposal(s.proposals, s.ledger, k);
    }
    forall k | 0 <= k < |after.proposals| ensures ProposalInv(after, after.proposals[k]) {
      assert ProposalInv(s, s.proposals[k]);
    }
  }

  lemma AddRowKeepsInv(s: Store, row: RowId)
    requires Inv(s)
    ensures Inv(AddRow(s, row))
  {
    var after := AddRow(s, row);
    forall k | 0 <= k < |after.proposals| ensures ProposalInv(after, after.proposals[k]) {
      ProposalStays(s, after, s.proposals[k]);
    }
  }

  lemma NextKeepsInv(s: Store, op: Op)
    requires Inv(s) && ProposalsHaveRows(s)
    ensures Inv(Next(s, op))
  {
    match op
    case NewRow(row) => AddRowKeepsInv(s, row);
    case OwnerEdit(changes) => OwnerEditKeepsInv(s, changes);
    case Propose(changes) => ProposeKeepsInv(s, changes);
    case Approve(id) => ApproveKeepsInv(s, id);
    case Reject(id) => RejectKeepsInv(s, id);
  }

  lemma InvHasRows(s: Store)
    requires Inv(s)
    ensures ProposalsHaveRows(s)
  {
    forall id | 0 <= id < |s.proposals| ensures ItemsHaveRows(s.rows, s.proposals[id].items) {
      assert ProposalInv(s, s.proposals[id]);
    }
  }

  // ---------------------------------------------------------------- what an accepted change writes

  lemma {:induction false} WrittenCell(items: seq<Diff>, cells: Cells, i: nat)
    requires DistinctCells(items) && i < |items|
    ensures CellOf(ApplyItems(items, items[i].row, cells), items[i].field) == items[i].after
    decreases |items|
  {
    var last := |items| - 1;
    if i < last { WrittenCell(items[..last], cells, i); }
  }

  /** A committed change set writes each of its cells, leaves every other cell, and moves exactly its rows one version
      on. */
  lemma CommitWrites(s: Store, diffs: seq<Diff>, proposal: Option<nat>, row: RowId, field: Field)
    requires ChangesRows(s.rows, diffs) && DistinctCells(diffs) && row in s.rows
    ensures var after := Commit(s, diffs, proposal).rows;
            && row in after
            && after[row].version == s.rows[row].version + (if Touches(diffs, row) then 1 else 0)
            && (forall i | 0 <= i < |diffs| && diffs[i].row == row && diffs[i].field == field ::
                  CellOf(after[row].cells, field) == diffs[i].after)
            && ((forall i | 0 <= i < |diffs| :: (diffs[i].row, diffs[i].field) != (row, field)) ==>
                  CellOf(after[row].cells, field) == CellOf(s.rows[row].cells, field))
  {
    AppliedRow(s.rows, diffs, row);
    forall i | 0 <= i < |diffs| && diffs[i].row == row && diffs[i].field == field
      ensures CellOf(ApplyItems(diffs, row, s.rows[row].cells), field) == diffs[i].after
    {
      WrittenCell(diffs, s.rows[row].cells, i);
    }
    if forall i | 0 <= i < |diffs| :: (diffs[i].row, diffs[i].field) != (row, field) {
      OtherCellsStay(diffs, row, field, s.rows[row].cells);
    }
  }

  lemma {:induction false} CellDiffsCover(row: RowId, current: Cells, cells: seq<(Field, Value)>, k: nat)
    requires k < |cells|
    ensures var (field, value) := cells[k];
            CellOf(current, field) == value
              || Diff(row, field, CellOf(current, field), value) in CellDiffs(row, current, cells)
    decreases |cells|
  {
    var last := |cells| - 1;
    if k < last { CellDiffsCover(row, current, cells[..last], k); }
  }

  lemma {:induction false} BuildDiffsCover(rows: map<RowId, Row>, changes: seq<Change>, j: nat, k: nat)
    requires (forall i | 0 <= i < |changes| :: changes[i].row in rows) && j < |changes| && k < |changes[j].cells|
    ensures var (row, (field, value)) := (changes[j].row, changes[j].cells[k]);
            CellOf(rows[row].cells, field) == value
              || Diff(row, field, CellOf(rows[row].cells, field), value) in BuildDiffs(rows, changes)
    decreases |changes|
  {
    var last := |changes| - 1;
    if j < last {
      BuildDiffsCover(rows, changes[..last], j, k);
    } else {
      CellDiffsCover(changes[j].row, rows[changes[j].row].cells, changes[j].cells, k);
    }
  }

  // ---------------------------------------------------------------- undoing the ledger

  function UndoItems(items: seq<Diff>, row: RowId, cells: Cells): Cells {
    if items == [] then cells
    else
      var d := items[|items| - 1];
      UndoItems(items[..|items| - 1], row, if d.row == row then cells[d.field := d.before] else cells)
  }

  function UndoLedger(ledger: seq<ChangeSet>, row: RowId, cells: Cells): Cells {
    if ledger == [] then cells
    else UndoLedger(ledger[..|ledger| - 1], row, UndoItems(ledger[|ledger| - 1].items, row, cells))
  }

  predicate SameCells(a: Cells, b: Cells) {
    forall f: Field :: CellOf(a, f) == CellOf(b, f)
  }

  /** The values before are those that the items up to there produce from `start`. */
  predicate BeforesFrom(items: seq<Diff>, row: RowId, start: Cells) {
    forall i | 0 <= i < |items| && items[i].row == row ::
      items[i].before == CellOf(ApplyItems(items[..i], row, start), items[i].field)
  }

  lemma UndoingCell(cells: Cells, start: Cells, field: Field, after: Value)
    requires SameCells(cells, start[field := after])
    ensures SameCells(cells[field := CellOf(start, field)], start)
  {
    forall f: Field ensures CellOf(cells[field := CellOf(start, field)], f) == CellOf(start, f) {
      assert CellOf(cells, f) == CellOf(start[field := after], f);
    }
  }

  lemma {:induction false} UndoingItems(items: seq<Diff>, row: RowId, start: Cells, cells: Cells)
    requires BeforesFrom(items, row, start) && SameCells(cells, ApplyItems(items, row, start))
    ensures SameCells(UndoItems(items, row, cells), start)
    decreases |items|
  {
    if items != [] {
      var init, d := items[..|items| - 1], items[|items| - 1];
      forall i | 0 <= i < |init| && init[i].row == row
        ensures init[i].before == CellOf(ApplyItems(init[..i], row, start), init[i].field)
      {
        TakeTake(items, |items| - 1, i);
        assert items[i] == init[i];
      }
      var last := |items| - 1;
      if d.row == row {
        assert items[last].before == CellOf(ApplyItems(items[..last], row, start), d.field);
        UndoingCell(cells, ApplyItems(init, row, start), d.field, d.after);
      }
      UndoingItems(init, row, start, if d.row == row then cells[d.field := d.before] else cells);
    }
  }

  lemma EntriesInit(ledger: seq<ChangeSet>)
    requires EntriesInv(ledger) && ledger != []
    ensures EntriesInv(ledger[..|ledger| - 1]) && RecordsReplay(ledger[..|ledger| - 1], ledger[|ledger| - 1].items)
  {
    var init := ledger[..|ledger| - 1];
    assert EntryAt(ledger, |ledger| - 1);
    forall k | 0 <= k < |init| ensures EntryAt(init, k) {
      TakeTake(ledger, |ledger| - 1, k);
      assert EntryAt(ledger, k);
    }
  }

  lemma UndoingEntry(before: seq<ChangeSet>, entry: ChangeSet, row: RowId, cells: Cells)
    requires RecordsReplay(before, entry.items) && SameCells(cells, RowOf(before + [entry], row).cells)
    ensures SameCells(UndoItems(entry.items, row, cells), RowOf(before, row).cells)
  {
    ButLast(before, entry);
    if !Touches(entry.items, row) { UntouchedCells(entry.items, row, RowOf(before, row).cells); }
    UndoingItems(entry.items, row, RowOf(before, row).cells, cells);
  }

  lemma {:induction false} UndoingLedger(ledger: seq<ChangeSet>, row: RowId, cells: Cells)
    requires EntriesInv(ledger) && SameCells(cells, RowOf(ledger, row).cells)
    ensures SameCells(UndoLedger(ledger, row, cells), FRESH_ROW.cells)
    decreases |ledger|
  {
    if ledger != [] {
      var init, entry := ledger[..|ledger| - 1], ledger[|ledger| - 1];
      EntriesInit(ledger);
      TakeNext(ledger, |ledger| - 1);
      TakeAll(ledger);
      UndoingEntry(init, entry, row, cells);
      UndoingLedger(init, row, UndoItems(entry.items, row, cells));
    }
  }

  // ---------------------------------------------------------------- whole runs

  ghost function Run(s: Store, ops: seq<Op>): (end: Store)
    requires Inv(s)
    ensures Inv(end)
    decreases |ops|
  {
    if ops == [] then s
    else
      InvHasRows(s);
      NextKeepsInv(s, ops[0]);
      Run(Next(s, ops[0]), ops[1..])
  }

  lemma EmptyStoreInv()
    ensures Inv(EMPTY_STORE)
  {
  }

  ghost function Reach(ops: seq<Op>): (s: Store)
    ensures Inv(s)
  {
    EmptyStoreInv();
    Run(EMPTY_STORE, ops)
  }

  /** A decision is final, and what a proposal shows never changes. */
  lemma {:induction false} DecisionIsFinal(s: Store, ops: seq<Op>, id: nat)
    requires Inv(s) && id < |s.proposals|
    ensures id < |Run(s, ops).proposals| && Run(s, ops).proposals[id].items == s.proposals[id].items
    ensures s.proposals[id].status != Pending ==> Run(s, ops).proposals[id] == s.proposals[id]
    decreases |ops|
  {
    if ops != [] {
      InvHasRows(s);
      NextKeepsInv(s, ops[0]);
      DecisionIsFinal(Next(s, ops[0]), ops[1..], id);
    }
  }

  /** In every reachable state, replaying the ledger from fresh rows gives the table, undoing it leads back to them,
      and a row's version is 1 plus the number of change sets that touch it. */
  lemma LedgerTellsTable(ops: seq<Op>, row: RowId)
    requires row in Reach(ops).rows
    ensures var s := Reach(ops);
            && s.rows[row].cells == RowOf(s.ledger, row).cells
            && s.rows[row].version == 1 + CountTouching(s.ledger, row)
            && SameCells(UndoLedger(s.ledger, row, s.rows[row].cells), FRESH_ROW.cells)
  {
    var s := Reach(ops);
    VersionCountsChangeSets(s.ledger, row);
    UndoingLedger(s.ledger, row, s.rows[row].cells);
  }

  /** Each item of the ledger names the value that the replay has reached at that point, and its change set has some. */
  lemma LedgerRecordsReplay(ops: seq<Op>, k: nat, i: nat)
    requires k < |Reach(ops).ledger| && i < |Reach(ops).ledger[k].items|
    ensures var (ledger, d) := (Reach(ops).ledger, Reach(ops).ledger[k].items[i]);
            d.before == CellOf(ApplyItems(ledger[k].items[..i], d.row, RowOf(ledger[..k], d.row).cells), d.field)
  {
    assert EntryAt(Reach(ops).ledger, k);
  }

  /** In every reachable state: if an item's row has the version the proposal expects, the row is the one the proposal
      was made from, cell for cell, and the item shows its cell. */
  lemma EqualVersionMeansSameCells(ops: seq<Op>, id: nat, i: nat)
    requires id < |Reach(ops).proposals| && i < |Reach(ops).proposals[id].items|
    ensures var (s, p) := (Reach(ops), Reach(ops).proposals[id]);
            var item := p.items[i];
            && p.madeAt <= |s.ledger| && item.row in s.rows
            && item.before == CellOf(RowOf(s.ledger[..p.madeAt], item.row).cells, item.field)
            && (s.rows[item.row].version == item.expectedVersion
                ==> s.rows[item.row] == RowOf(s.ledger[..p.madeAt], item.row))
  {
    var (s, p) := (Reach(ops), Reach(ops).proposals[id]);
    assert ProposalInv(s, p) && ItemInv(s.ledger[..p.madeAt], p.items[i]);
    SameVersionSameRow(s.ledger, p.madeAt, p.items[i].row);
  }

  /** A pending proposal is approved exactly when each of its rows still has the version expected. */
  lemma ApprovalIsExact(ops: seq<Op>, id: nat)
    requires LockProposal(Reach(ops), id).None?
    ensures ItemsHaveRows(Reach(ops).rows, Reach(ops).proposals[id].items)
    ensures ApproveProposal(Reach(ops), id).1.None? <==> UpToDate(Reach(ops).rows, Reach(ops).proposals[id].items)
  {
    InvHasRows(Reach(ops));
    ApprovalChecksEveryVersion(Reach(ops).rows, Reach(ops).proposals[id].items);
  }

  lemma ApprovedStore(s: Store, id: nat)
    requires Inv(s) && LockProposal(s, id).None? && ApprovalDiffs(s.rows, s.proposals[id].items).Ok?
    ensures ApproveProposal(s, id)
            == (WithStatus(Commit(s, StoredDiffs(s.proposals[id].items), Some(id)), id, Approved), None)
  {
    ApprovalWritesStoredPairs(s, id);
  }

  /** It then writes exactly the stored pairs of before and proposed: each proposed cell holds the value proposed, and
      each row is one version on. */
  lemma ApprovalWrites(ops: seq<Op>, id: nat, i: nat)
    requires LockProposal(Reach(ops), id).None? && i < |Reach(ops).proposals[id].items|
    requires ItemsHaveRows(Reach(ops).rows, Reach(ops).proposals[id].items) && ApproveProposal(Reach(ops), id).1.None?
    ensures var (s, items) := (Reach(ops), Reach(ops).proposals[id].items);
            var after := ApproveProposal(s, id).0;
            && after.ledger == s.ledger + [ChangeSet(StoredDiffs(items), Some(id))]
               && after.proposals[id].status == Approved
            && items[i].row in after.rows && CellOf(after.rows[items[i].row].cells, items[i].field) == items[i].proposed
            && after.rows[items[i].row].version == items[i].expectedVersion + 1
  {
    var (s, items) := (Reach(ops), Reach(ops).proposals[id].items);
    var diffs := StoredDiffs(items);
    ApprovalChecksEveryVersion(s.rows, items);
    ApprovedStore(s, id);
    ApprovalWritesStoredPairs(s, id);
    ApprovedDiffsAreChanges(s, id);
    assert diffs[i] == StoredDiff(items[i]);
    CommitWrites(s, diffs, Some(id), items[i].row, items[i].field);
  }

  lemma {:induction false} VersionGrowsAt(ledger: seq<ChangeSet>, k: nat, l: nat, row: RowId)
    requires k < l <= |ledger| && Touches(ledger[k].items, row)
    ensures RowOf(ledger[..k], row).version < RowOf(ledger[..l], row).version
  {
    TakeNext(ledger, k);
    ButLast(ledger[..k], ledger[k]);
    TakeTake(ledger, l, k + 1);
    SameVersionSameRow(ledger[..l], k + 1, row);
  }

  lemma ApprovedOnlyOnce(s: Store, k: nat, l: nat, i: nat, j: nat)
    requires Inv(s) && k < l < |s.ledger| && s.ledger[k].proposal.Some? && s.ledger[l].proposal.Some?
    requires s.ledger[k].proposal.value < |s.proposals| && s.ledger[l].proposal.value < |s.proposals|
    requires i < |s.proposals[s.ledger[k].proposal.value].items| && j < |s.proposals[s.ledger[l].proposal.value].items|
    ensures var (a, b) := (s.proposals[s.ledger[k].proposal.value].items[i],
                           s.proposals[s.ledger[l].proposal.value].items[j]);
            !(a.row == b.row && a.expectedVersion == b.expectedVersion)
  {
    var (p, q) := (s.proposals[s.ledger[k].proposal.value], s.proposals[s.ledger[l].proposal.value]);
    assert EntryOfProposal(s.proposals, s.ledger, k) && EntryOfProposal(s.proposals, s.ledger, l);
    assert s.ledger[k].items[i] == StoredDiff(p.items[i]);
    if p.items[i].row == q.items[j].row { VersionGrowsAt(s.ledger, k, l, p.items[i].row); }
  }

  /** Of two proposals that share a row at the same version at most one is ever approved. */
  lemma AtMostOneApproved(ops: seq<Op>, id: nat, other: nat, i: nat, j: nat)
    requires id < |Reach(ops).proposals| && other < |Reach(ops).proposals| && id != other
    requires i < |Reach(ops).proposals[id].items| && j < |Reach(ops).proposals[other].items|
    requires Reach(ops).proposals[id].items[i].row == Reach(ops).proposals[other].items[j].row
    requires Reach(ops).proposals[id].items[i].expectedVersion == Reach(ops).proposals[other].items[j].expectedVersion
    ensures !(Reach(ops).proposals[id].status == Approved && Reach(ops).proposals[other].status == Approved)
  {
    var s := Reach(ops);
    if s.proposals[id].status == Approved && s.proposals[other].status == Approved {
      assert Decided(s.ledger, id) && Decided(s.ledger, other);
      var k :| 0 <= k < |s.ledger| && s.ledger[k].proposal == Some(id);
      var l :| 0 <= l < |s.ledger| && s.ledger[l].proposal == Some(other);
      if k < l { ApprovedOnlyOnce(s, k, l, i, j); } else { ApprovedOnlyOnce(s, l, k, j, i); }
    }
  }

  /** An accepted owner edit leaves every requested cell with the value requested. */
  lemma OwnerEditWritesRequest(ops: seq<Op>, changes: seq<Change>, j: nat, k: nat)
    requires ApplyOwnerChanges(Reach(ops), changes).1.None? && j < |changes| && k < |changes[j].cells|
    ensures var after := ApplyOwnerChanges(Reach(ops), changes).0;
            && changes[j].row in after.rows
            && CellOf(after.rows[changes[j].row].cells, changes[j].cells[k].0) == changes[j].cells[k].1
  {
    var s := Reach(ops);
    var diffs := Prepare(s, changes).value;
    var (row, (field, value)) := (changes[j].row, changes[j].cells[k]);
    assert row in s.rows;
    PreparedAreChanges(s, changes);
    CommitWrites(s, diffs, None, row, field);
    BuildDiffsCover(s.rows, changes, j, k);
    if CellOf(s.rows[row].cells, field) == value { EqualCellStays(s, changes, j, k); }
  }

  /** A diff writes a cell of the request. */
  predicate Requested(changes: seq<Change>, d: Diff) {
    exists m | 0 <= m < |changes| :: changes[m].row == d.row && (d.field, d.after) in changes[m].cells
  }

  /** A cell that already has the value requested is not touched. */
  lemma EqualCellStays(s: Store, changes: seq<Change>, j: nat, k: nat)
    requires Prepare(s, changes).Ok? && j < |changes| && k < |changes[j].cells| && changes[j].row in s.rows
    requires CellOf(s.rows[changes[j].row].cells, changes[j].cells[k].0) == changes[j].cells[k].1
    ensures forall i | 0 <= i < |Prepare(s, changes).value| ::
              (Prepare(s, changes).value[i].row, Prepare(s, changes).value[i].field)
              != (changes[j].row, changes[j].cells[k].0)
  {
    var diffs := Prepare(s, changes).value;
    PreparedAreChanges(s, changes);
    OnlyRequested(s.rows, changes);
    forall i | 0 <= i < |diffs| ensures (diffs[i].row, diffs[i].field) != (changes[j].row, changes[j].cells[k].0) {
      assert Requested(changes, diffs[i]);
      RequestedOnce(changes, diffs[i], j, k);
    }
  }

  lemma RequestedOnce(changes: seq<Change>, d: Diff, j: nat, k: nat)
    requires ValidRequest(changes) && Requested(changes, d) && j < |changes| && k < |changes[j].cells|
    ensures d.row == changes[j].row && d.field == changes[j].cells[k].0 ==> d.after == changes[j].cells[k].1
  {
    var m :| 0 <= m < |changes| && changes[m].row == d.row && (d.field, d.after) in changes[m].cells;
    var n :| 0 <= n < |changes[m].cells| && changes[m].cells[n] == (d.field, d.after);
    assert d.row == changes[j].row ==> m == j;
  }

  lemma {:induction false} OnlyRequested(rows: map<RowId, Row>, changes: seq<Change>)
    requires forall i | 0 <= i < |changes| :: changes[i].row in rows && DistinctFields(changes[i].cells)
    ensures forall i | 0 <= i < |BuildDiffs(rows, changes)| :: Requested(changes, BuildDiffs(rows, changes)[i])
    decreases |changes|
  {
    if changes != [] {
      var init, last := changes[..|changes| - 1], changes[|changes| - 1];
      var before, more := BuildDiffs(rows, init), CellDiffs(last.row, rows[last.row].cells, last.cells);
      OnlyRequested(rows, init);
      CellDiffsAreChanges(last.row, rows[last.row].cells, last.cells);
      forall i | 0 <= i < |before| ensures Requested(changes, before[i]) {
        assert Requested(init, before[i]);
        var m :| 0 <= m < |init| && init[m].row == before[i].row && (before[i].field, before[i].after) in init[m].cells;
        assert changes[m] == init[m];
      }
      forall i | 0 <= i < |more| ensures Requested(changes, more[i]) {
        assert changes[|changes| - 1].row == more[i].row;
      }
    }
  }
}
