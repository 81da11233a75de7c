/** Undo statements for a backed-up UPDATE or DELETE: how they are planned from
    the stored rows, and how they are written as SQL. */
module RowBackup {
  import opened Bytes
  import opened Render

  /** Engine names are compared without regard to case; every other name is OtherEngine. */
  datatype Engine = MySQLEngine | MariaDB | MSSQLEngine | SQLServer | SQLite | DuckDB | PostgresEngine | PostgreSQL | CockroachDB | Cassandra | OtherEngine

  predicate MySQLFamily(e: Engine) {
    e == MySQLEngine || e == MariaDB
  }

  predicate SQLServerFamily(e: Engine) {
    e == MSSQLEngine || e == SQLServer
  }

  predicate PostgresFamily(e: Engine) {
    e == PostgresEngine || e == PostgreSQL || e == CockroachDB
  }

  datatype ValueKind = Null | Bool | Num | Time | Blob | Str | Uuid

  datatype BackupValue = BackupValue(kind: ValueKind, text: string)

  datatype Payload = Payload(
    columns: seq<string>,
    key: seq<string>,
    rows: seq<seq<BackupValue>>,
    generated: seq<string>,
    identity: seq<string>,
    identityAlways: bool,
    types: seq<string>)

  datatype WriteKind = UpdateBackup | DeleteBackup

  datatype Item = Item(kind: WriteKind, schema: string, table: string)

  // ------------------------------------------------------------------
  // Names and literals as text.

  function OpenQuote(e: Engine): char {
    if MySQLFamily(e) then '`' else if SQLServerFamily(e) then '[' else '"'
  }

  function QuoteIdentifier(e: Engine, name: string): string {
    if MySQLFamily(e) then "`" + Double(name, '`') + "`"
    else if SQLServerFamily(e) then "[" + Double(name, ']') + "]"
    else "\"" + Double(name, '"') + "\""
  }

  function QualifiedTable(e: Engine, schema: string, table: string): string {
    if schema != "" then QuoteIdentifier(e, schema) + "." + QuoteIdentifier(e, table) else QuoteIdentifier(e, table)
  }

  function ImportLiteral(e: Engine, value: string): string {
    var escaped := if MySQLFamily(e) then Double(value, '\\') else value;
    var doubled := Double(escaped, '\'');
    if SQLServerFamily(e) then "N'" + doubled + "'" else "'" + doubled + "'"
  }

  function HexLiteral(e: Engine, digits: string): string {
    if MySQLFamily(e) || e == SQLite then "X'" + digits + "'"
    else if SQLServerFamily(e) then "0x" + digits
    else if e == DuckDB then "unhex('" + digits + "')"
    else "'\\x" + digits + "'"
  }

  function ToUpper(s: string): (r: string)
    ensures |r| == |s|
  {
    seq(|s|, i requires 0 <= i < |s| => if 'a' <= s[i] <= 'z' then s[i] - 'a' + 'A' else s[i])
  }

  function RestoreLiteral(e: Engine, v: BackupValue): string {
    match v.kind
    case Null => "NULL"
    case Bool =>
      if PostgresFamily(e) || e == DuckDB then ToUpper(v.text)
      else if v.text == "true" then "1" else "0"
    case Num => v.text
    case Blob =>
      if e == PostgresEngine || e == CockroachDB then HexLiteral(e, v.text) + "::bytea" else HexLiteral(e, v.text)
    case _ => ImportLiteral(e, v.text)
  }

  /** CQL writes booleans, numbers and UUIDs bare and blobs in hexadecimal. */
  function CassandraLiteral(v: BackupValue): string {
    match v.kind
    case Null => "null"
    case Bool => v.text
    case Num => v.text
    case Uuid => v.text
    case Blob => "0x" + v.text
    case _ => "'" + Double(v.text, '\'') + "'"
  }

  function ValueText(e: Engine, v: BackupValue): string {
    if e == Cassandra then CassandraLiteral(v) else RestoreLiteral(e, v)
  }

  function NullText(e: Engine): string {
    if e == Cassandra then "null" else "NULL"
  }

  // ------------------------------------------------------------------
  // Undo statements.

  /** A value of a statement: what a row stored, or NULL where the row is too short.
      A variant is written with its SQL Server type. */
  datatype Cell = Missing | Stored(value: BackupValue, variant: bool)

  datatype Condition = IsNull(column: string) | Equals(column: string, cell: Cell)

  datatype Assignment = Assignment(column: string, cell: Cell)

  datatype Statement =
    | InsertRows(names: seq<string>, overriding: bool, rows: seq<seq<Cell>>)
    | UpdateRow(assignments: seq<Assignment>, conditions: seq<Condition>)

  datatype Plan = Plan(statements: seq<Statement>, probes: seq<seq<Condition>>, identityInsert: bool)

  predicate Named(names: seq<string>, column: string) {
    exists i :: 0 <= i < |names| && ToLower(names[i]) == ToLower(column)
  }

  /** Positions of the columns that may be written, from column i on. */
  function Writable(p: Payload, i: nat): seq<nat>
    decreases |p.columns| - i
  {
    if i >= |p.columns| then []
    else (if Named(p.generated, p.columns[i]) then [] else [i]) + Writable(p, i + 1)
  }

  function CellAt(e: Engine, p: Payload, row: seq<BackupValue>, index: nat): Cell {
    if index >= |row| then Missing
    else Stored(row[index], SQLServerFamily(e) && !row[index].kind.Null? && index < |p.types| && p.types[index] == "SQL_VARIANT")
  }

  function Cells(e: Engine, p: Payload, row: seq<BackupValue>, positions: seq<nat>): (r: seq<Cell>)
    ensures |r| == |positions|
  {
    if positions == [] then [] else [CellAt(e, p, row, positions[0])] + Cells(e, p, row, positions[1..])
  }

  function NamesAt(p: Payload, positions: seq<nat>): (r: seq<string>)
    ensures |r| == |positions|
  {
    if positions == [] then []
    else [if positions[0] < |p.columns| then p.columns[positions[0]] else ""] + NamesAt(p, positions[1..])
  }

  predicate UsesIdentity(p: Payload, positions: seq<nat>) {
    exists k :: 0 <= k < |positions| && positions[k] < |p.columns| && Named(p.identity, p.columns[positions[k]])
  }

  const ROWS_PER_INSERT := 100

  /** The rows from `start` on, a hundred to a statement. */
  function Inserts(e: Engine, p: Payload, overriding: bool, start: nat): seq<Statement>
    decreases |p.rows| - start
  {
    if start >= |p.rows| then [] else [Chunk(e, p, overriding, start)] + Inserts(e, p, overriding, start + ROWS_PER_INSERT)
  }

  function ChunkEnd(p: Payload, start: nat): nat {
    if start + ROWS_PER_INSERT < |p.rows| then start + ROWS_PER_INSERT else |p.rows|
  }

  function Chunk(e: Engine, p: Payload, overriding: bool, start: nat): Statement
    requires start < |p.rows|
  {
    InsertRows(NamesAt(p, Writable(p, 0)), overriding, RowCells(e, p, p.rows[start..ChunkEnd(p, start)]))
  }

  function RowCells(e: Engine, p: Payload, rows: seq<seq<BackupValue>>): (r: seq<seq<Cell>>)
    ensures |r| == |rows|
  {
    if rows == [] then [] else [Cells(e, p, rows[0], Writable(p, 0))] + RowCells(e, p, rows[1..])
  }

  /** The condition a column adds: none unless it is a key column. */
  function ConditionAt(e: Engine, p: Payload, row: seq<BackupValue>, i: nat): seq<Condition> {
    if i >= |p.columns| || !Named(p.key, p.columns[i]) then []
    else if i < |row| && row[i].kind.Null? then [IsNull(p.columns[i])]
    else [Equals(p.columns[i], CellAt(e, p, row, i))]
  }

  /** The assignment a column adds: none for key and identity columns. */
  function AssignmentAt(e: Engine, p: Payload, row: seq<BackupValue>, i: nat): seq<Assignment> {
    if i >= |p.columns| || Named(p.key, p.columns[i]) || Named(p.identity, p.columns[i]) then []
    else [Assignment(p.columns[i], CellAt(e, p, row, i))]
  }

  function Conditions(e: Engine, p: Payload, row: seq<BackupValue>, positions: seq<nat>): seq<Condition> {
    if positions == [] then [] else ConditionAt(e, p, row, positions[0]) + Conditions(e, p, row, positions[1..])
  }

  function Assignments(e: Engine, p: Payload, row: seq<BackupValue>, positions: seq<nat>): seq<Assignment> {
    if positions == [] then [] else AssignmentAt(e, p, row, positions[0]) + Assignments(e, p, row, positions[1..])
  }

  /** The statement that puts one row's old values back, when it has something to write and a key to find it by. */
  function RowUpdate(e: Engine, p: Payload, row: seq<BackupValue>): seq<Statement> {
    var a, c := Assignments(e, p, row, Writable(p, 0)), Conditions(e, p, row, Writable(p, 0));
    if a != [] && c != [] then [UpdateRow(a, c)] else []
  }

  function Updates(e: Engine, p: Payload, rows: seq<seq<BackupValue>>): seq<Statement> {
    if rows == [] then [] else Updates(e, p, rows[..|rows| - 1]) + RowUpdate(e, p, rows[|rows| - 1])
  }

  function ProbesOf(statements: seq<Statement>): seq<seq<Condition>> {
    if statements == [] then []
    else
      var last := statements[|statements| - 1];
      ProbesOf(statements[..|statements| - 1]) + (if last.UpdateRow? then [last.conditions] else [])
  }

  function PlanOf(e: Engine, item: Item, p: Payload): Plan {
    if item.kind == DeleteBackup then
      var usesIdentity := UsesIdentity(p, Writable(p, 0));
      Plan(Inserts(e, p, usesIdentity && p.identityAlways && e == PostgresEngine, 0), [], usesIdentity && SQLServerFamily(e))
    else
      var updates := Updates(e, p, p.rows);
      Plan(updates, ProbesOf(updates), false)
  }

  // ------------------------------------------------------------------
  // The loops of the program.

  method WritablePositions(p: Payload) returns (writable: seq<nat>)
    ensures writable == Writable(p, 0)
  {
    hide Named;
    writable := [];
    for i := 0 to |p.columns|
      invariant Writable(p, 0) == writable + Writable(p, i)
    {
      if !Named(p.generated, p.columns[i]) {
        writable := writable + [i];
      }
    }
  }

  method RestorePlan(e: Engine, item: Item, p: Payload) returns (plan: Plan)
    ensures plan == PlanOf(e, item, p)
  {
    hide UsesIdentity, Inserts, Updates, ProbesOf;
    var writable := WritablePositions(p);
    if item.kind == DeleteBackup {
      var usesIdentity := UsesIdentity(p, writable);
      var statements := PlanInserts(e, p, writable, usesIdentity && p.identityAlways && e == PostgresEngine);
      return Plan(statements, [], usesIdentity && SQLServerFamily(e));
    }
    var statements, probes := PlanUpdates(e, p, writable);
    plan := Plan(statements, probes, false);
  }

  method PlanInserts(e: Engine, p: Payload, writable: seq<nat>, overriding: bool) returns (statements: seq<Statement>)
    requires writable == Writable(p, 0)
    ensures statements == Inserts(e, p, overriding, 0)
  {
    hide RowCells, Writable, NamesAt, Inserts;
    var names := NamesAt(p, writable);
    statements := [];
    var start := 0;
    while start < |p.rows|
      invariant Inserts(e, p, overriding, 0) == statements + Inserts(e, p, overriding, start)
      decreases |p.rows| - start
    {
      InsertsFrom(e, p, overriding, start);
      statements := statements + [InsertRows(names, overriding, RowCells(e, p, p.rows[start..ChunkEnd(p, start)]))];
      start := start + ROWS_PER_INSERT;
    }
    InsertsFrom(e, p, overriding, start);
  }

  lemma InsertsFrom(e: Engine, p: Payload, overriding: bool, start: nat)
    ensures start >= |p.rows| ==> Inserts(e, p, overriding, start) == []
    ensures start < |p.rows| ==>
              Inserts(e, p, overriding, start) == [Chunk(e, p, overriding, start)] + Inserts(e, p, overriding, start + ROWS_PER_INSERT)
  {
    hide RowCells, Writable, NamesAt;
  }

  method PlanUpdates(e: Engine, p: Payload, writable: seq<nat>) returns (statements: seq<Statement>, probes: seq<seq<Condition>>)
    requires writable == Writable(p, 0)
    ensures statements == Updates(e, p, p.rows) && probes == ProbesOf(statements)
  {
    hide *;
    statements, probes := [], [];
    NoUpdates(e, p);
    for i := 0 to |p.rows|
      invariant statements == Updates(e, p, p.rows[..i])
      invariant probes == ProbesOf(statements)
    {
      UpdatesStep(e, p, i);
      var assignments, conditions := SplitRow(e, p, p.rows[i], writable);
      RowUpdateOf(e, p, p.rows[i], assignments, conditions);
      if assignments != [] && conditions != [] {
        var statement := UpdateRow(assignments, conditions);
        ProbesStep(statements, statement);
        statements, probes := statements + [statement], probes + [conditions];
      }
    }
    assert p.rows[..|p.rows|] == p.rows;
  }

  lemma NoUpdates(e: Engine, p: Payload)
    ensures Updates(e, p, p.rows[..0]) == [] && ProbesOf([]) == []
  {
  }

  lemma UpdatesStep(e: Engine, p: Payload, i: nat)
    requires i < |p.rows|
    ensures Updates(e, p, p.rows[..i + 1]) == Updates(e, p, p.rows[..i]) + RowUpdate(e, p, p.rows[i])
  {
    hide RowUpdate;
    assert p.rows[..i + 1][..i] == p.rows[..i];
  }

  lemma ProbesStep(statements: seq<Statement>, s: Statement)
    requires s.UpdateRow?
    ensures ProbesOf(statements + [s]) == ProbesOf(statements) + [s.conditions]
  {
    assert (statements + [s])[..|statements|] == statements;
  }

  lemma RowUpdateOf(e: Engine, p: Payload, row: seq<BackupValue>, a: seq<Assignment>, c: seq<Condition>)
    requires a == Assignments(e, p, row, Writable(p, 0)) && c == Conditions(e, p, row, Writable(p, 0))
    ensures RowUpdate(e, p, row) == if a != [] && c != [] then [UpdateRow(a, c)] else []
  {
  }

  /** Sorts one row's writable columns into what is assigned and what finds the row. */
  method SplitRow(e: Engine, p: Payload, row: seq<BackupValue>, writable: seq<nat>)
    returns (assignments: seq<Assignment>, conditions: seq<Condition>)
    requires writable == Writable(p, 0)
    ensures assignments == Assignments(e, p, row, writable)
    ensures conditions == Conditions(e, p, row, writable)
  {
    hide *;
    assignments, conditions := [], [];
    WritableInRange(p, 0);
    assert writable[0..] == writable;
    for n := 0 to |writable|
      invariant Assignments(e, p, row, writable) == assignments + Assignments(e, p, row, writable[n..])
      invariant Conditions(e, p, row, writable) == conditions + Conditions(e, p, row, writable[n..])
    {
      var index := writable[n];
      ColumnStep(e, p, row, writable, n);
      ColumnCases(e, p, row, index);
      if Named(p.key, p.columns[index]) {
        if index < |row| && row[index].kind.Null? {
          conditions := conditions + [IsNull(p.columns[index])];
        } else {
          conditions := conditions + [Equals(p.columns[index], CellAt(e, p, row, index))];
        }
      } else if !Named(p.identity, p.columns[index]) {
        assignments := assignments + [Assignment(p.columns[index], CellAt(e, p, row, index))];
      }
    }
    NoColumns(e, p, row, writable[|writable|..]);
  }

  lemma NoColumns(e: Engine, p: Payload, row: seq<BackupValue>, positions: seq<nat>)
    requires positions == []
    ensures Assignments(e, p, row, positions) == [] && Conditions(e, p, row, positions) == []
  {
  }

  lemma ColumnCases(e: Engine, p: Payload, row: seq<BackupValue>, i: nat)
    requires i < |p.columns|
    ensures Named(p.key, p.columns[i]) ==> AssignmentAt(e, p, row, i) == []
    ensures !Named(p.key, p.columns[i]) ==> ConditionAt(e, p, row, i) == []
    ensures Named(p.key, p.columns[i]) ==>
              ConditionAt(e, p, row, i) == if i < |row| && row[i].kind.Null? then [IsNull(p.columns[i])] else [Equals(p.columns[i], CellAt(e, p, row, i))]
    ensures !Named(p.key, p.columns[i]) ==>
              AssignmentAt(e, p, row, i) == if Named(p.identity, p.columns[i]) then [] else [Assignment(p.columns[i], CellAt(e, p, row, i))]
  {
    hide Named, CellAt;
  }

  lemma ColumnStep(e: Engine, p: Payload, row: seq<BackupValue>, writable: seq<nat>, n: nat)
    requires n < |writable|
    ensures Assignments(e, p, row, writable[n..]) == AssignmentAt(e, p, row, writable[n]) + Assignments(e, p, row, writable[n + 1..])
    ensures Conditions(e, p, row, writable[n..]) == ConditionAt(e, p, row, writable[n]) + Conditions(e, p, row, writable[n + 1..])
  {
    hide ConditionAt, AssignmentAt;
    assert writable[n..][0] == writable[n] && writable[n..][1..] == writable[n + 1..];
  }

  lemma {:induction false} WritableInRange(p: Payload, i: nat)
    ensures forall k :: 0 <= k < |Writable(p, i)| ==> i <= Writable(p, i)[k] < |p.columns| && !Named(p.generated, p.columns[Writable(p, i)[k]])
    ensures forall c :: i <= c < |p.columns| && !Named(p.generated, p.columns[c]) ==> c in Writable(p, i)
    ensures forall j, k :: 0 <= j < k < |Writable(p, i)| ==> Writable(p, i)[j] < Writable(p, i)[k]
    decreases |p.columns| - i
  {
    hide Named;
    if i < |p.columns| {
      WritableInRange(p, i + 1);
    }
  }

  // ------------------------------------------------------------------
  // Statements as SQL text.

  function Join(parts: seq<string>, separator: string): string {
    if parts == [] then ""
    else if |parts| == 1 then parts[0]
    else parts[0] + separator + Join(parts[1..], separator)
  }

  function CellText(e: Engine, c: Cell): string {
    match c
    case Missing => NullText(e)
    case Stored(v, variant) => if variant then "CAST(" + ValueText(e, v) + " AS sql_variant)" else ValueText(e, v)
  }

  function CellTexts(e: Engine, cs: seq<Cell>): (r: seq<string>)
    ensures |r| == |cs|
  {
    if cs == [] then [] else [CellText(e, cs[0])] + CellTexts(e, cs[1..])
  }

  function QuotedNames(e: Engine, names: seq<string>): (r: seq<string>)
    ensures |r| == |names|
  {
    if names == [] then [] else [QuoteIdentifier(e, names[0])] + QuotedNames(e, names[1..])
  }

  /** SQL lists its rows one to a line; CQL has one row, on the same line. */
  function RowIndent(e: Engine): string {
    if e == Cassandra then "" else "  "
  }

  function ValuesEnd(e: Engine): string {
    if e == Cassandra then " " else "\n"
  }

  function RowTexts(e: Engine, rows: seq<seq<Cell>>): (r: seq<string>)
    ensures |r| == |rows|
  {
    if rows == [] then [] else [RowIndent(e) + "(" + Join(CellTexts(e, rows[0]), ", ") + ")"] + RowTexts(e, rows[1..])
  }

  function ConditionText(e: Engine, c: Condition): string {
    match c
    case IsNull(column) => QuoteIdentifier(e, column) + " IS NULL"
    case Equals(column, cell) => QuoteIdentifier(e, column) + " = " + CellText(e, cell)
  }

  function ConditionTexts(e: Engine, cs: seq<Condition>): (r: seq<string>)
    ensures |r| == |cs|
  {
    if cs == [] then [] else [ConditionText(e, cs[0])] + ConditionTexts(e, cs[1..])
  }

  function AssignmentTexts(e: Engine, assignments: seq<Assignment>): (r: seq<string>)
    ensures |r| == |assignments|
  {
    if assignments == [] then []
    else [QuoteIdentifier(e, assignments[0].column) + " = " + CellText(e, assignments[0].cell)] + AssignmentTexts(e, assignments[1..])
  }

  function StatementText(e: Engine, item: Item, s: Statement): string {
    var table := QualifiedTable(e, item.schema, item.table);
    match s
    case InsertRows(names, overriding, rows) =>
      "INSERT INTO " + table + " (" + Join(QuotedNames(e, names), ", ") + ")"
      + (if overriding then " OVERRIDING SYSTEM VALUE" else "")
      + " VALUES" + ValuesEnd(e) + Join(RowTexts(e, rows), ",\n")
    case UpdateRow(assignments, conditions) =>
      "UPDATE " + table + " SET " + Join(AssignmentTexts(e, assignments), ", ") + " WHERE " + Join(ConditionTexts(e, conditions), " AND ")
  }
}
