/** The workbook service: rows, proposals and the ledger changed step by step. */
module Workbooks {
  import opened Wrappers
  import opened Sequences
  import opened WorkbookRules

  class WorkbookService {
    var rows: map<RowId, Row>
    var proposals: seq<Proposal>
    var ledger: seq<ChangeSet>

    ghost function Model(): Store
      reads this
    {
      Store(rows, proposals, ledger)
    }

    constructor ()
      ensures Model() == EMPTY_STORE
    {
      rows, proposals, ledger := map[], [], [];
    }

    /** Refuses missing rows first, then the first row that has moved on. */
    method LockInvoices(changes: seq<Change>) returns (error: Option<Error>)
      ensures error == LockRows(rows, changes)
    {
      for i := 0 to |changes|
        invariant forall k | 0 <= k < i :: changes[k].row in rows
      {
        if changes[i].row !in rows { return Some(RowNotFound); }
      }
      assert changes[0..] == changes;
      for i := 0 to |changes|
        invariant FirstStale(rows, changes) == FirstStale(rows, changes[i..])
      {
        assert changes[i..][1..] == changes[i + 1..] && changes[i..][0] == changes[i];
        if rows[changes[i].row].version != changes[i].expectedVersion { return Some(StaleVersion(changes[i].row)); }
      }
      error := None;
    }

    method BuildCellDiffs(change: Change) returns (diffs: seq<Diff>)
      requires change.row in rows
      ensures diffs == CellDiffs(change.row, rows[change.row].cells, change.cells)
    {
      var current := rows[change.row].cells;
      diffs := [];
      for i := 0 to |change.cells|
        invariant diffs == CellDiffs(change.row, current, change.cells[..i])
      {
        var (field, after) := change.cells[i];
        assert change.cells[..i + 1][..i] == change.cells[..i];
        var before := CellOf(current, field);
        if before != after { diffs := diffs + [Diff(change.row, field, before, after)]; }
      }
      TakeAll(change.cells);
    }

    /** The cells that change, in the order of the request. */
    method BuildAllDiffs(changes: seq<Change>) returns (diffs: seq<Diff>)
      requires forall i | 0 <= i < |changes| :: changes[i].row in rows
      ensures diffs == BuildDiffs(rows, changes)
    {
      diffs := [];
      for i := 0 to |changes|
        invariant diffs == BuildDiffs(rows, changes[..i])
      {
        assert changes[..i + 1][..i] == changes[..i];
        var more := BuildCellDiffs(changes[i]);
        diffs := diffs + more;
      }
      TakeAll(changes);
    }

    method PrepareDiffs(changes: seq<Change>) returns (r: Result<seq<Diff>, Error>)
      ensures r == Prepare(Model(), changes)
    {
      if !ValidRequest(changes) { return Err(InvalidRequest); }
      var refused := LockInvoices(changes);
      if refused.Some? { return Err(refused.value); }
      var diffs := BuildAllDiffs(changes);
      if diffs == [] { return Err(NoEffect); }
      r := Ok(diffs);
    }

    /** Writes the cells one after the other. */
    method WriteDiffs(diffs: seq<Diff>)
      requires forall i | 0 <= i < |diffs| :: diffs[i].row in rows
      modifies this`rows
      ensures rows == ApplyDiffs(old(rows), diffs)
    {
      for i := 0 to |diffs|
        invariant rows == ApplyDiffs(old(rows), diffs[..i])
        invariant rows.Keys == old(rows).Keys
      {
        assert diffs[..i + 1][..i] == diffs[..i];
        assert diffs[i].row in rows.Keys;
        var row := rows[diffs[i].row];
        rows := rows[diffs[i].row := row.(cells := row.cells[diffs[i].field := diffs[i].after])];
      }
      TakeAll(diffs);
    }

    /** Moves each row that has a diff one version on, however many diffs it has. */
    method BumpChangedRows(diffs: seq<Diff>)
      requires forall i | 0 <= i < |diffs| :: diffs[i].row in rows
      modifies this`rows
      ensures rows == BumpRows(old(rows), diffs)
    {
      var changed: set<RowId> := {};
      for i := 0 to |diffs|
        invariant forall r :: r in changed <==> exists k | 0 <= k < i :: diffs[k].row == r
      {
        changed := changed + {diffs[i].row};
      }
      assert forall r :: r in changed <==> Touches(diffs, r);
      ghost var todo := changed;
      ghost var start := rows;
      while changed != {}
        invariant changed <= todo && rows.Keys == start.Keys
        invariant forall r | r in changed :: r in start
        invariant forall r | r in rows ::
                    rows[r] == if r in todo && r !in changed then start[r].(version := start[r].version + 1)
                      else start[r]
        decreases changed
      {
        var r :| r in changed;
        assert r in rows.Keys;
        rows := rows[r := rows[r].(version := rows[r].version + 1)];
        changed := changed - {r};
      }
      assert rows == BumpRows(start, diffs);
    }

    /** Records the change set, writes its cells and moves its rows on. */
    method CommitDiffs(diffs: seq<Diff>, proposal: Option<nat>)
      requires forall i | 0 <= i < |diffs| :: diffs[i].row in rows
      modifies this
      ensures Model() == Commit(old(Model()), diffs, proposal)
    {
      WriteDiffs(diffs);
      assert forall i | 0 <= i < |diffs| :: diffs[i].row in rows.Keys;
      ledger := ledger + [ChangeSet(diffs, proposal)];
      BumpChangedRows(diffs);
    }

    /** A refused edit changes nothing. */
    method ApplyOwnerChanges(changes: seq<Change>) returns (error: Option<Error>)
      modifies this
      ensures (Model(), error) == WorkbookRules.ApplyOwnerChanges(old(Model()), changes)
    {
      var prepared := PrepareDiffs(changes);
      if prepared.Err? { return Some(prepared.error); }
      DiffsOfRows(rows, changes);
      CommitDiffs(prepared.value, None);
      error := None;
    }

    /** Stores each diff with the version its row has now; no row is touched. */
    method CreateProposal(changes: seq<Change>) returns (r: Result<nat, Error>)
      modifies this`proposals
      ensures (Model(), r) == WorkbookRules.CreateProposal(old(Model()), changes)
    {
      var prepared := PrepareDiffs(changes);
      if prepared.Err? { return Err(prepared.error); }
      var diffs := prepared.value;
      DiffsOfRows(rows, changes);
      var items: seq<Item> := [];
      for i := 0 to |diffs|
        invariant |items| == i
        invariant forall k | 0 <= k < i ::
                    items[k] == Item(diffs[k].row, diffs[k].field, diffs[k].before, diffs[k].after,
                                     rows[diffs[k].row].version)
      {
        items := items + [Item(diffs[i].row, diffs[i].field, diffs[i].before, diffs[i].after,
                               rows[diffs[i].row].version)];
      }
      assert items == ItemsOf(rows, diffs);
      r := Ok(|proposals|);
      proposals := proposals + [Proposal(Pending, items, |ledger|)];
    }

    method FindPending(id: nat) returns (error: Option<Error>)
      ensures error == LockProposal(Model(), id)
    {
      if id >= |proposals| { return Some(ProposalNotFound); }
      if proposals[id].status != Pending { return Some(ProposalDecided); }
      error := None;
    }

    /** Checks every version before anything is written. */
    method ApproveProposal(id: nat) returns (error: Option<Error>)
      requires id < |proposals| ==> ItemsHaveRows(rows, proposals[id].items)
      modifies this
      ensures (Model(), error) == WorkbookRules.ApproveProposal(old(Model()), id)
    {
      error := FindPending(id);
      if error.Some? { return; }
      var items := proposals[id].items;
      var diffs: seq<Diff> := [];
      for i := 0 to |items|
        invariant ApprovalDiffs(rows, items[..i]) == Ok(diffs)
        invariant Model() == old(Model())
      {
        var item := items[i];
        assert items[..i + 1][..i] == items[..i];
        if rows[item.row].version != item.expectedVersion {
          StaleIsFinal(rows, items, i + 1);
          return Some(StaleVersion(item.row));
        }
        diffs := diffs + [Diff(item.row, item.field, CellOf(rows[item.row].cells, item.field), item.proposed)];
      }
      TakeAll(items);
      ApprovalRows(rows, items);
      CommitDiffs(diffs, Some(id));
      proposals := proposals[id := proposals[id].(status := Approved)];
    }

    method RejectProposal(id: nat) returns (error: Option<Error>)
      modifies this`proposals
      ensures (Model(), error) == WorkbookRules.RejectProposal(old(Model()), id)
    {
      error := FindPending(id);
      if error.Some? { return; }
      proposals := proposals[id := proposals[id].(status := Rejected)];
    }
  }

  lemma {:induction false} StaleIsFinal(rows: map<RowId, Row>, items: seq<Item>, k: nat)
    requires k <= |items| && ItemsHaveRows(rows, items) && ApprovalDiffs(rows, items[..k]).Err?
    ensures ApprovalDiffs(rows, items) == ApprovalDiffs(rows, items[..k])
    decreases |items|
  {
    if k == |items| {
      TakeAll(items);
    } else {
      TakeTake(items, |items| - 1, k);
      StaleIsFinal(rows, items[..|items| - 1], k);
    }
  }
}
