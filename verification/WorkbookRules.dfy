/** The invoice workbook: owner edits and agent proposals under optimistic version checks, with a ledger of every
    change. Rules as functions on the stored rows, proposals and change sets. */
module WorkbookRules {
  import opened Wrappers

  datatype Field = Vendor | InvoiceNumber | InvoiceDate | GrossAmount | Currency | Category | Status | Notes

  datatype Value = NoValue | Text(text: string) | Day(year: int, month: int, day: int) | Money(cents: nat)

  type RowId = nat

  /** The cells that have been set; the others have their column's default. */
  type Cells = map<Field, Value>

  datatype Row = Row(version: nat, cells: Cells)

  const FRESH_ROW := Row(1, map[])

  function Default(f: Field): Value {
    match f
    case Currency => Text("EUR")
    case Status => Text("unverified")
    case _ => NoValue
  }

  function CellOf(cells: Cells, f: Field): Value {
    if f in cells then cells[f] else Default(f)
  }

  datatype Diff = Diff(row: RowId, field: Field, before: Value, after: Value)

  /** What a request wants of one row. */
  datatype Change = Change(row: RowId, expectedVersion: nat, cells: seq<(Field, Value)>)

  datatype ChangeSet = ChangeSet(items: seq<Diff>, proposal: Option<nat>)

  datatype ProposalStatus = Pending | Approved | Rejected

  datatype Item = Item(row: RowId, field: Field, before: Value, proposed: Value, expectedVersion: nat)

  /** `madeAt` is the length of the ledger when the proposal was made; it is history only. */
  datatype Proposal = Proposal(status: ProposalStatus, items: seq<Item>, madeAt: nat)

  /** Proposals are known by their place; `ledger` is in commit order. */
  datatype Store = Store(rows: map<RowId, Row>, proposals: seq<Proposal>, ledger: seq<ChangeSet>)

  const EMPTY_STORE := Store(map[], [], [])

  datatype Error =
    | InvalidRequest | RowNotFound | StaleVersion(row: RowId) | NoEffect | ProposalNotFound | ProposalDecided

  // ---------------------------------------------------------------- requests

  predicate DistinctFields(cells: seq<(Field, Value)>) {
    forall i, j | 0 <= i < j < |cells| :: cells[i].0 != cells[j].0
  }

  /** What the request schema lets through: 1 to 100 rows, each once and with at least one cell. */
  predicate ValidRequest(changes: seq<Change>) {
    && 1 <= |changes| <= 100
    && (forall i | 0 <= i < |changes| :: changes[i].cells != [] && DistinctFields(changes[i].cells))
    && (forall i, j | 0 <= i < j < |changes| :: changes[i].row != changes[j].row)
  }

  /** The first row of the request that has moved on. */
  function FirstStale(rows: map<RowId, Row>, changes: seq<Change>): Option<RowId>
    requires forall i | 0 <= i < |changes| :: changes[i].row in rows
  {
    if changes == [] then None
    else if rows[changes[0].row].version != changes[0].expectedVersion then Some(changes[0].row)
    else FirstStale(rows, changes[1..])
  }

  function LockRows(rows: map<RowId, Row>, changes: seq<Change>): Option<Error> {
    if exists i | 0 <= i < |changes| :: changes[i].row !in rows then Some(RowNotFound)
    else if FirstStale(rows, changes).Some? then Some(StaleVersion(FirstStale(rows, changes).value))
    else None
  }

  // ---------------------------------------------------------------- diffs

  /** The cells of one row that change. */
  function CellDiffs(row: RowId, current: Cells, cells: seq<(Field, Value)>): seq<Diff> {
    if cells == [] then []
    else
      var (field, after) := cells[|cells| - 1];
      CellDiffs(row, current, cells[..|cells| - 1])
      + if CellOf(current, field) != after then [Diff(row, field, CellOf(current, field), after)] else []
  }

  function BuildDiffs(rows: map<RowId, Row>, changes: seq<Change>): seq<Diff>
    requires forall i | 0 <= i < |changes| :: changes[i].row in rows
  {
    if changes == [] then []
    else
      var last := changes[|changes| - 1];
      BuildDiffs(rows, changes[..|changes| - 1]) + CellDiffs(last.row, rows[last.row].cells, last.cells)
  }

  predicate Touches(diffs: seq<Diff>, row: RowId) {
    exists i | 0 <= i < |diffs| :: diffs[i].row == row
  }

  function ApplyDiffs(rows: map<RowId, Row>, diffs: seq<Diff>): map<RowId, Row>
    requires forall i | 0 <= i < |diffs| :: diffs[i].row in rows
    ensures ApplyDiffs(rows, diffs).Keys == rows.Keys
  {
    if diffs == [] then rows
    else
      var before, d := ApplyDiffs(rows, diffs[..|diffs| - 1]), diffs[|diffs| - 1];
      before[d.row := before[d.row].(cells := before[d.row].cells[d.field := d.after])]
  }

  function BumpRows(rows: map<RowId, Row>, diffs: seq<Diff>): map<RowId, Row> {
    map r | r in rows :: if Touches(diffs, r) then rows[r].(version := rows[r].version + 1) else rows[r]
  }

  /** One change set: it enters the ledger, its cells are written and its rows move on by one version. */
  function Commit(s: Store, diffs: seq<Diff>, proposal: Option<nat>): Store
    requires forall i | 0 <= i < |diffs| :: diffs[i].row in s.rows
  {
    s.(rows := BumpRows(ApplyDiffs(s.rows, diffs), diffs), ledger := s.ledger + [ChangeSet(diffs, proposal)])
  }

  // ---------------------------------------------------------------- operations

  /** What a request would change, or why it is refused. */
  function Prepare(s: Store, changes: seq<Change>): Result<seq<Diff>, Error> {
    if !ValidRequest(changes) then Err(InvalidRequest)
    else if LockRows(s.rows, changes).Some? then Err(LockRows(s.rows, changes).value)
    else
      var diffs := BuildDiffs(s.rows, changes);
      if diffs == [] then Err(NoEffect) else Ok(diffs)
  }

  /** The rows of what was prepared exist. */
  lemma {:induction false} DiffsOfRows(rows: map<RowId, Row>, changes: seq<Change>)
    requires forall i | 0 <= i < |changes| :: changes[i].row in rows
    ensures forall i | 0 <= i < |BuildDiffs(rows, changes)| :: BuildDiffs(rows, changes)[i].row in rows
    decreases |changes|
  {
    if changes != [] {
      var last := changes[|changes| - 1];
      DiffsOfRows(rows, changes[..|changes| - 1]);
      DiffsOfOneRow(last.row, rows[last.row].cells, last.cells);
    }
  }

  lemma {:induction false} DiffsOfOneRow(row: RowId, current: Cells, cells: seq<(Field, Value)>)
    ensures forall i | 0 <= i < |CellDiffs(row, current, cells)| :: CellDiffs(row, current, cells)[i].row == row
    decreases |cells|
  {
    if cells != [] { DiffsOfOneRow(row, current, cells[..|cells| - 1]); }
  }

  function ApplyOwnerChanges(s: Store, changes: seq<Change>): (Store, Option<Error>) {
    match Prepare(s, changes)
    case Err(error) => (s, Some(error))
    case Ok(diffs) =>
      DiffsOfRows(s.rows, changes);
      (Commit(s, diffs, None), None)
  }

  /** The proposed items, each with the version its row has now. */
  function ItemsOf(rows: map<RowId, Row>, diffs: seq<Diff>): (items: seq<Item>)
    requires forall i | 0 <= i < |diffs| :: diffs[i].row in rows
  {
    seq(|diffs|, i requires 0 <= i < |diffs| =>
          Item(diffs[i].row, diffs[i].field, diffs[i].before, diffs[i].after, rows[diffs[i].row].version))
  }

  function CreateProposal(s: Store, changes: seq<Change>): (Store, Result<nat, Error>) {
    match Prepare(s, changes)
    case Err(error) => (s, Err(error))
    case Ok(diffs) =>
      DiffsOfRows(s.rows, changes);
      (s.(proposals := s.proposals + [Proposal(Pending, ItemsOf(s.rows, diffs), |s.ledger|)]), Ok(|s.proposals|))
  }

  function LockProposal(s: Store, id: nat): Option<Error> {
    if id >= |s.proposals| then Some(ProposalNotFound)
    else if s.proposals[id].status != Pending then Some(ProposalDecided)
    else None
  }

  predicate ItemsHaveRows(rows: map<RowId, Row>, items: seq<Item>) {
    forall i | 0 <= i < |items| :: items[i].row in rows
  }

  /** The diffs an approval writes: from the cell as it is now to the proposed value; or the first row that moved on. */
  function ApprovalDiffs(rows: map<RowId, Row>, items: seq<Item>): Result<seq<Diff>, Error>
    requires ItemsHaveRows(rows, items)
  {
    if items == [] then Ok([])
    else
      var before := ApprovalDiffs(rows, items[..|items| - 1]);
      var item := items[|items| - 1];
      if before.Err? then before
      else if rows[item.row].version != item.expectedVersion then Err(StaleVersion(item.row))
      else Ok(before.value + [Diff(item.row, item.field, CellOf(rows[item.row].cells, item.field), item.proposed)])
  }

  lemma {:induction false} ApprovalRows(rows: map<RowId, Row>, items: seq<Item>)
    requires ItemsHaveRows(rows, items) && ApprovalDiffs(rows, items).Ok?
    ensures |ApprovalDiffs(rows, items).value| == |items|
    ensures forall i | 0 <= i < |items| :: ApprovalDiffs(rows, items).value[i].row == items[i].row
    decreases |items|
  {
    if items != [] { ApprovalRows(rows, items[..|items| - 1]); }
  }

  function WithStatus(s: Store, id: nat, status: ProposalStatus): Store
    requires id < |s.proposals|
  {
    s.(proposals := s.proposals[id := s.proposals[id].(status := status)])
  }

  /** The items of a stored proposal refer to stored rows. */
  function ApproveProposal(s: Store, id: nat): (Store, Option<Error>)
    requires id < |s.proposals| ==> ItemsHaveRows(s.rows, s.proposals[id].items)
  {
    if LockProposal(s, id).Some? then (s, LockProposal(s, id))
    else
      match ApprovalDiffs(s.rows, s.proposals[id].items)
      case Err(error) => (s, Some(error))
      case Ok(diffs) =>
        ApprovalRows(s.rows, s.proposals[id].items);
        (WithStatus(Commit(s, diffs, Some(id)), id, Approved), None)
  }

  function RejectProposal(s: Store, id: nat): (Store, Option<Error>) {
    if LockProposal(s, id).Some? then (s, LockProposal(s, id)) else (WithStatus(s, id, Rejected), None)
  }

  /** Storing a document adds a row to the workbook. */
  function AddRow(s: Store, row: RowId): Store {
    if row in s.rows then s else s.(rows := s.rows[row := FRESH_ROW])
  }

  // ---------------------------------------------------------------- runs

  datatype Op =
    | NewRow(row: RowId)
    | OwnerEdit(changes: seq<Change>)
    | Propose(changes: seq<Change>)
    | Approve(id: nat)
    | Reject(id: nat)

  predicate ProposalsHaveRows(s: Store) {
    forall id | 0 <= id < |s.proposals| :: ItemsHaveRows(s.rows, s.proposals[id].items)
  }

  function Next(s: Store, op: Op): Store
    requires ProposalsHaveRows(s)
  {
    match op
    case NewRow(row) => AddRow(s, row)
    case OwnerEdit(changes) => ApplyOwnerChanges(s, changes).0
    case Propose(changes) => CreateProposal(s, changes).0
    case Approve(id) => ApproveProposal(s, id).0
    case Reject(id) => RejectProposal(s, id).0
  }
}
