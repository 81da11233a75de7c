/** Applying a backup's undo statements to a table. A table is a set of rows with unique, non-null keys; a row maps
    lower-case names of the columns that are not generated to values. */
module Restore {
  import opened Bytes
  import opened RowBackup

  type Row = map<string, BackupValue>

  /** The non-generated columns of a table, with its key and identity columns among them. */
  datatype Schema = Schema(columns: set<string>, key: set<string>, identity: set<string>)

  function KeyOf(sc: Schema, r: Row): Row {
    r - (r.Keys - sc.key)
  }

  ghost predicate Fits(sc: Schema, r: Row) {
    r.Keys == sc.columns && forall c :: c in sc.key ==> c in r && !r[c].kind.Null?
  }

  ghost predicate ValidTable(sc: Schema, t: set<Row>) {
    && sc.key != {} && sc.key <= sc.columns && sc.identity <= sc.columns
    && (forall r :: r in t ==> Fits(sc, r))
    && (forall r, s :: r in t && s in t && KeyOf(sc, r) == KeyOf(sc, s) ==> r == s)
  }

  // ------------------------------------------------------------------
  // What the database does with one statement.

  function CellValue(c: Cell): BackupValue {
    match c
    case Missing => BackupValue(Null, "")
    case Stored(v, _) => v
  }

  /** SQL comparison: NULL equals nothing. */
  predicate Meets(r: Row, c: Condition) {
    var name := ToLower(c.column);
    && name in r
    && (match c
        case IsNull(_) => r[name].kind.Null?
        case Equals(_, cell) => !r[name].kind.Null? && !CellValue(cell).kind.Null? && r[name] == CellValue(cell))
  }

  predicate MeetsAll(r: Row, cs: seq<Condition>) {
    forall i :: 0 <= i < |cs| ==> Meets(r, cs[i])
  }

  function Assign(r: Row, assignments: seq<Assignment>): Row {
    if assignments == [] then r
    else
      var last := assignments[|assignments| - 1];
      Assign(r, assignments[..|assignments| - 1])[ToLower(last.column) := CellValue(last.cell)]
  }

  function UpdateRows(t: set<Row>, assignments: seq<Assignment>, conditions: seq<Condition>): set<Row> {
    set r | r in t :: if MeetsAll(r, conditions) then Assign(r, assignments) else r
  }

  function RowOf(names: seq<string>, cells: seq<Cell>): Row
    requires |names| == |cells|
  {
    if names == [] then map[]
    else RowOf(names[..|names| - 1], cells[..|names| - 1])[ToLower(names[|names| - 1]) := CellValue(cells[|names| - 1])]
  }

  datatype Outcome = Done(rows: set<Row>) | Aborted

  /** Rows are added one by one; a key that is already there refuses the statement. */
  function InsertAll(sc: Schema, t: set<Row>, names: seq<string>, rows: seq<seq<Cell>>): Outcome
    decreases |rows|
  {
    if rows == [] then Done(t)
    else if |rows[0]| != |names| then Aborted
    else
      var r := RowOf(names, rows[0]);
      if exists s :: s in t && KeyOf(sc, s) == KeyOf(sc, r) then Aborted
      else InsertAll(sc, t + {r}, names, rows[1..])
  }

  /** One statement of the restore, probe included. `refuses` are the database's own reasons to fail. */
  function Execute(sc: Schema, refuses: Statement -> bool, t: set<Row>, s: Statement): Outcome {
    if refuses(s) then Aborted
    else
      match s
      case InsertRows(names, _, rows) => InsertAll(sc, t, names, rows)
      case UpdateRow(assignments, conditions) =>
        if exists r :: r in t && MeetsAll(r, conditions) then Done(UpdateRows(t, assignments, conditions)) else Aborted
  }

  function ExecuteAll(sc: Schema, refuses: Statement -> bool, t: set<Row>, statements: seq<Statement>): Outcome {
    if statements == [] then Done(t)
    else
      match ExecuteAll(sc, refuses, t, statements[..|statements| - 1])
      case Aborted => Aborted
      case Done(rows) => Execute(sc, refuses, rows, statements[|statements| - 1])
  }

  // ------------------------------------------------------------------
  // The apply loop: one transaction, committed only when every statement ran.

  class Database {
    var rows: set<Row>

    constructor (rows: set<Row>)
      ensures this.rows == rows
    {
      this.rows := rows;
    }

    /** `commits` says whether the database takes the commit. */
    method ApplyRowBackup(sc: Schema, refuses: Statement -> bool, commits: bool, plan: Plan) returns (committed: bool)
      modifies this
      ensures committed <==> commits && ExecuteAll(sc, refuses, old(rows), plan.statements).Done?
      ensures rows == if committed then ExecuteAll(sc, refuses, old(rows), plan.statements).rows else old(rows)
    {
      var transaction := rows;
      for i := 0 to |plan.statements|
        invariant rows == old(rows)
        invariant ExecuteAll(sc, refuses, old(rows), plan.statements[..i]) == Done(transaction)
      {
        hide Execute;
        assert plan.statements[..i + 1][..i] == plan.statements[..i];
        var result := Execute(sc, refuses, transaction, plan.statements[i]);
        if result.Aborted? {
          StaysAborted(sc, refuses, old(rows), plan.statements, i + 1);
          return false;
        }
        transaction := result.rows;
      }
      assert plan.statements[..|plan.statements|] == plan.statements;
      if !commits {
        return false;
      }
      rows := transaction;
      committed := true;
    }
  }

  /** A database with reasons of its own to refuse aborts, or does what one without them does. */
  lemma {:induction false} RefusalOnlyAborts(sc: Schema, refuses: Statement -> bool, t: set<Row>, statements: seq<Statement>)
    ensures var outcome := ExecuteAll(sc, refuses, t, statements);
            outcome.Aborted? || outcome == ExecuteAll(sc, s => false, t, statements)
    decreases |statements|
  {
    hide InsertAll, UpdateRows, MeetsAll;
    if statements != [] {
      RefusalOnlyAborts(sc, refuses, t, statements[..|statements| - 1]);
    }
  }

  lemma {:induction false} StaysAborted(sc: Schema, refuses: Statement -> bool, t: set<Row>, statements: seq<Statement>, i: nat)
    requires i <= |statements| && ExecuteAll(sc, refuses, t, statements[..i]).Aborted?
    ensures ExecuteAll(sc, refuses, t, statements).Aborted?
    decreases |statements| - i
  {
    hide Execute;
    if i == |statements| {
      assert statements[..i] == statements;
    } else {
      assert statements[..i + 1][..i] == statements[..i];
      StaysAborted(sc, refuses, t, statements, i + 1);
    }
  }
}
