/** Which requests the workbook accepts, and exactly what an accepted one changes or proposes. */
module WorkbookOutcomes {
  import opened Wrappers
  import opened WorkbookRules
  import opened WorkbookRuns

  /** 1 to 100 rows, each named once, each with at least one cell and none of its cells twice. */
  predicate WellFormed(changes: seq<Change>) {
    && 1 <= |changes| <= 100
    && (forall i | 0 <= i < |changes| :: |changes[i].cells| >= 1)
    && (forall i, k, l | 0 <= i < |changes| && 0 <= k < l < |changes[i].cells| ::
          changes[i].cells[k].0 != changes[i].cells[l].0)
    && (forall i, j | 0 <= i < j < |changes| :: changes[i].row != changes[j].row)
  }

  predicate RowsExist(rows: map<RowId, Row>, changes: seq<Change>) {
    forall i | 0 <= i < |changes| :: changes[i].row in rows
  }

  predicate VersionsMatch(rows: map<RowId, Row>, changes: seq<Change>)
    requires RowsExist(rows, changes)
  {
    forall i | 0 <= i < |changes| :: rows[changes[i].row].version == changes[i].expectedVersion
  }

  /** The requested cell `k` of change `i` differs from the row. */
  predicate Differs(rows: map<RowId, Row>, changes: seq<Change>, i: nat, k: nat)
    requires RowsExist(rows, changes) && i < |changes| && k < |changes[i].cells|
  {
    CellOf(rows[changes[i].row].cells, changes[i].cells[k].0) != changes[i].cells[k].1
  }

  predicate ChangesSomething(rows: map<RowId, Row>, changes: seq<Change>)
    requires RowsExist(rows, changes)
  {
    exists i, k | 0 <= i < |changes| && 0 <= k < |changes[i].cells| :: Differs(rows, changes, i, k)
  }

  /** What a request is refused for: its form first, then a missing row, then a row that has moved on, then that nothing
      would change. */
  ghost predicate RefusedFor(rows: map<RowId, Row>, changes: seq<Change>, error: Error) {
    match error
    case InvalidRequest => !WellFormed(changes)
    case RowNotFound => WellFormed(changes) && !RowsExist(rows, changes)
    case StaleVersion(row) =>
      && WellFormed(changes) && RowsExist(rows, changes)
      && exists i | 0 <= i < |changes| ::
           && changes[i].row == row && rows[row].version != changes[i].expectedVersion
           && forall j | 0 <= j < i :: rows[changes[j].row].version == changes[j].expectedVersion
    case NoEffect =>
      && WellFormed(changes) && RowsExist(rows, changes) && VersionsMatch(rows, changes)
      && !ChangesSomething(rows, changes)
    case _ => false
  }

  ghost predicate Acceptable(rows: map<RowId, Row>, changes: seq<Change>) {
    && WellFormed(changes) && RowsExist(rows, changes) && VersionsMatch(rows, changes)
    && ChangesSomething(rows, changes)
  }

  lemma FormIsExact(changes: seq<Change>)
    ensures ValidRequest(changes) <==> WellFormed(changes)
  {
    if WellFormed(changes) {
      forall i | 0 <= i < |changes| ensures changes[i].cells != [] && DistinctFields(changes[i].cells) {
        assert |changes[i].cells| >= 1;
      }
    } else if ValidRequest(changes) {
      forall i | 0 <= i < |changes| ensures |changes[i].cells| >= 1 && DistinctFields(changes[i].cells) {
      }
    }
  }

  lemma {:induction false} FirstStaleIsExact(rows: map<RowId, Row>, changes: seq<Change>)
    requires RowsExist(rows, changes)
    ensures FirstStale(rows, changes).None? <==> VersionsMatch(rows, changes)
    ensures FirstStale(rows, changes).Some? ==>
              exists i | 0 <= i < |changes| ::
                && changes[i].row == FirstStale(rows, changes).value
                && rows[changes[i].row].version != changes[i].expectedVersion
                && forall j | 0 <= j < i :: rows[changes[j].row].version == changes[j].expectedVersion
    decreases |changes|
  {
    if changes != [] {
      var rest := changes[1..];
      assert forall j | 0 <= j < |rest| :: rest[j] == changes[j + 1];
      FirstStaleIsExact(rows, rest);
      if rows[changes[0].row].version == changes[0].expectedVersion {
        if VersionsMatch(rows, rest) {
          forall j | 0 <= j < |changes| ensures rows[changes[j].row].version == changes[j].expectedVersion {
            assert j > 0 ==> changes[j] == rest[j - 1];
          }
        } else {
          var i :| 0 <= i < |rest| && rest[i].row == FirstStale(rows, rest).value
                   && rows[rest[i].row].version != rest[i].expectedVersion
                   && forall j | 0 <= j < i :: rows[rest[j].row].version == rest[j].expectedVersion;
          assert changes[i + 1] == rest[i];
          forall j | 0 <= j < i + 1 ensures rows[changes[j].row].version == changes[j].expectedVersion {
            assert j > 0 ==> changes[j] == rest[j - 1];
          }
        }
      } else {
        assert !VersionsMatch(rows, changes);
      }
    }
  }

  /** A diff is built exactly for each requested cell that differs, from its value to the requested one. */
  predicate DiffsAreRequest(rows: map<RowId, Row>, changes: seq<Change>, diffs: seq<Diff>)
    requires RowsExist(rows, changes)
  {
    forall i, k | 0 <= i < |changes| && 0 <= k < |changes[i].cells| ::
      var (row, (field, value)) := (changes[i].row, changes[i].cells[k]);
      Differs(rows, changes, i, k) <==> Diff(row, field, CellOf(rows[row].cells, field), value) in diffs
  }

  lemma BuiltDiffsAreRequest(rows: map<RowId, Row>, changes: seq<Change>)
    requires WellFormed(changes) && RowsExist(rows, changes)
    ensures DiffsAreRequest(rows, changes, BuildDiffs(rows, changes))
  {
    FormIsExact(changes);
    BuiltDiffsAreChanges(rows, changes);
    var diffs := BuildDiffs(rows, changes);
    forall i, k | 0 <= i < |changes| && 0 <= k < |changes[i].cells|
      ensures var (row, (field, value)) := (changes[i].row, changes[i].cells[k]);
              Differs(rows, changes, i, k) <==> Diff(row, field, CellOf(rows[row].cells, field), value) in diffs
    {
      BuildDiffsCover(rows, changes, i, k);
      var (row, (field, value)) := (changes[i].row, changes[i].cells[k]);
      var d := Diff(row, field, CellOf(rows[row].cells, field), value);
      if d in diffs {
        var m :| 0 <= m < |diffs| && diffs[m] == d;
        assert diffs[m].before != diffs[m].after;
      }
    }
  }

  lemma SomeDiffMeansSomeChange(rows: map<RowId, Row>, changes: seq<Change>)
    requires WellFormed(changes) && RowsExist(rows, changes)
    ensures BuildDiffs(rows, changes) != [] <==> ChangesSomething(rows, changes)
  {
    var diffs := BuildDiffs(rows, changes);
    FormIsExact(changes);
    BuiltDiffsAreRequest(rows, changes);
    BuiltDiffsAreChanges(rows, changes);
    OnlyRequested(rows, changes);
    if diffs != [] {
      assert Requested(changes, diffs[0]);
      var m :| 0 <= m < |changes| && changes[m].row == diffs[0].row
               && (diffs[0].field, diffs[0].after) in changes[m].cells;
      var k :| 0 <= k < |changes[m].cells| && changes[m].cells[k] == (diffs[0].field, diffs[0].after);
      assert diffs[0].before == CellOf(rows[diffs[0].row].cells, diffs[0].field) && diffs[0].before != diffs[0].after;
      assert Differs(rows, changes, m, k);
    }
  }

  lemma LockIsExact(rows: map<RowId, Row>, changes: seq<Change>)
    ensures LockRows(rows, changes).None? <==> RowsExist(rows, changes) && VersionsMatch(rows, changes)
    ensures !RowsExist(rows, changes) ==> LockRows(rows, changes) == Some(RowNotFound)
    ensures RowsExist(rows, changes) && !VersionsMatch(rows, changes) ==>
              LockRows(rows, changes) == Some(StaleVersion(FirstStale(rows, changes).value))
  {
    if RowsExist(rows, changes) {
      FirstStaleIsExact(rows, changes);
    }
  }

  /** A request is accepted exactly if it is well formed, its rows exist at the versions it expects, and it changes
      something; else it is refused for the first of these that fails. What it would change is exactly the requested
      cells that differ. */
  lemma PrepareIsExact(s: Store, changes: seq<Change>)
    ensures Prepare(s, changes).Ok? <==> Acceptable(s.rows, changes)
    ensures Prepare(s, changes).Err? ==> RefusedFor(s.rows, changes, Prepare(s, changes).error)
    ensures Prepare(s, changes).Ok? ==> DiffsAreRequest(s.rows, changes, Prepare(s, changes).value)
  {
    FormIsExact(changes);
    LockIsExact(s.rows, changes);
    if WellFormed(changes) && RowsExist(s.rows, changes) {
      FirstStaleIsExact(s.rows, changes);
      BuiltDiffsAreRequest(s.rows, changes);
      SomeDiffMeansSomeChange(s.rows, changes);
    }
  }

  /** An owner edit is accepted exactly then, as one change set that belongs to no proposal; refused, it changes
      nothing. */
  lemma OwnerEditIsExact(s: Store, changes: seq<Change>)
    ensures var (after, error) := ApplyOwnerChanges(s, changes);
            && (error.None? <==> Acceptable(s.rows, changes))
            && (error.Some? ==> after == s && RefusedFor(s.rows, changes, error.value))
            && (error.None? ==>
                  && |after.ledger| == |s.ledger| + 1 && after.ledger[..|s.ledger|] == s.ledger
                  && after.ledger[|s.ledger|].proposal == None
                  && DiffsAreRequest(s.rows, changes, after.ledger[|s.ledger|].items)
                  && after.proposals == s.proposals && after.rows.Keys == s.rows.Keys)
  {
    PrepareIsExact(s, changes);
    if Prepare(s, changes).Ok? {
      DiffsOfRows(s.rows, changes);
    }
  }

  /** The proposed items are the requested cells that differ, each with the version its row has. */
  predicate ItemsAreRequest(rows: map<RowId, Row>, changes: seq<Change>, items: seq<Item>)
    requires RowsExist(rows, changes)
  {
    forall i, k | 0 <= i < |changes| && 0 <= k < |changes[i].cells| ::
      var (row, (field, value)) := (changes[i].row, changes[i].cells[k]);
      Differs(rows, changes, i, k)
      <==> Item(row, field, CellOf(rows[row].cells, field), value, rows[row].version) in items
  }

  lemma ItemsShowDiffs(rows: map<RowId, Row>, changes: seq<Change>, diffs: seq<Diff>)
    requires RowsExist(rows, changes) && DiffsAreRequest(rows, changes, diffs)
    requires forall i | 0 <= i < |diffs| :: diffs[i].row in rows
    ensures ItemsAreRequest(rows, changes, ItemsOf(rows, diffs))
  {
    var items := ItemsOf(rows, diffs);
    forall i, k | 0 <= i < |changes| && 0 <= k < |changes[i].cells|
      ensures var (row, (field, value)) := (changes[i].row, changes[i].cells[k]);
              Differs(rows, changes, i, k)
              <==> Item(row, field, CellOf(rows[row].cells, field), value, rows[row].version) in items
    {
      var (row, (field, value)) := (changes[i].row, changes[i].cells[k]);
      var d := Diff(row, field, CellOf(rows[row].cells, field), value);
      var item := Item(row, field, CellOf(rows[row].cells, field), value, rows[row].version);
      if d in diffs {
        var m :| 0 <= m < |diffs| && diffs[m] == d;
        assert items[m] == item;
      }
      if item in items {
        var m :| 0 <= m < |items| && items[m] == item;
        assert diffs[m] == d;
      }
    }
  }

  /** A proposal is accepted exactly under the same condition; it is pending, shows exactly the requested cells that
      differ, and changes no row. */
  lemma ProposalIsExact(s: Store, changes: seq<Change>)
    ensures var (after, answer) := CreateProposal(s, changes);
            && (answer.Ok? <==> Acceptable(s.rows, changes))
            && (answer.Err? ==> after == s && RefusedFor(s.rows, changes, answer.error))
            && (answer.Ok? ==>
                  && answer.value == |s.proposals| && |after.proposals| == |s.proposals| + 1
                  && after.proposals[..|s.proposals|] == s.proposals
                  && after.proposals[answer.value].status == Pending
                  && ItemsAreRequest(s.rows, changes, after.proposals[answer.value].items)
                  && after.rows == s.rows && after.ledger == s.ledger)
  {
    PrepareIsExact(s, changes);
    if Prepare(s, changes).Ok? {
      DiffsOfRows(s.rows, changes);
      ItemsShowDiffs(s.rows, changes, Prepare(s, changes).value);
    }
  }

  /** A proposal is rejected exactly while it is pending, and nothing but its status changes; a decided or unknown one
      is refused, for approval as for rejection, and so is the approval of a proposal whose rows have moved on. */
  lemma DecisionsAreExact(ops: seq<Op>, id: nat)
    ensures var s := Reach(ops);
            var refusal := if id >= |s.proposals| then Some(ProposalNotFound)
                           else if s.proposals[id].status != Pending then Some(ProposalDecided)
                           else None;
            && (refusal.Some? ==> RejectProposal(s, id) == (s, refusal))
            && (refusal.None? ==>
                  RejectProposal(s, id)
                  == (s.(proposals := s.proposals[id := s.proposals[id].(status := Rejected)]), None))
            && (id < |s.proposals| ==> ItemsHaveRows(s.rows, s.proposals[id].items))
            && (refusal.Some? ==> ApproveProposal(s, id) == (s, refusal))
            && (refusal.None? && !UpToDate(s.rows, s.proposals[id].items) ==>
                  ApproveProposal(s, id).0 == s && ApproveProposal(s, id).1.Some?
                  && ApproveProposal(s, id).1.value.StaleVersion?)
  {
    var s := Reach(ops);
    InvHasRows(s);
    if id < |s.proposals| && s.proposals[id].status == Pending {
      ApprovalChecksEveryVersion(s.rows, s.proposals[id].items);
    }
  }

  /** A row that is added is fresh, and the others stay as they are. */
  lemma NewRowIsExact(s: Store, row: RowId)
    ensures var after := AddRow(s, row);
            && row in after.rows && (row !in s.rows ==> after.rows[row] == Row(1, map[]))
            && (forall other | other in s.rows :: other in after.rows && after.rows[other] == s.rows[other])
            && after.rows.Keys == s.rows.Keys + {row} && after.ledger == s.ledger && after.proposals == s.proposals
  {
  }
}
