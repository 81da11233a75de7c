/** What Cassandra's undo does to the table. A row is there while it has a cell,
    or the mark an INSERT leaves; both of its writes add the row if it is missing,
    and writing null removes a cell. */
module CassandraExact {
  import opened Prelude
  import opened Bytes
  import opened RowBackup
  import opened CassandraRestore
  import S = Restore

  /** The cells of a row that are not null, and equally a primary key. */
  type Cells = map<string, BackupValue>

  datatype CqlRow = CqlRow(marked: bool, cells: Cells)

  type Table = map<Cells, CqlRow>

  function Look(t: Table, k: Cells): CqlRow {
    if k in t then t[k] else CqlRow(false, map[])
  }

  /** What a SELECT shows under a key. */
  function Shown(t: Table, k: Cells): Option<Cells> {
    var r := Look(t, k);
    if r.marked || r.cells != map[] then Some(r.cells) else None
  }

  // ------------------------------------------------------------------
  // What the database does with one statement.

  function PutCell(cells: Cells, column: string, v: BackupValue): Cells {
    if v.kind.Null? then cells - {column} else cells[column := v]
  }

  function PutAll(cells: Cells, assignments: seq<Assignment>): Cells {
    if assignments == [] then cells
    else
      var last := assignments[|assignments| - 1];
      PutCell(PutAll(cells, assignments[..|assignments| - 1]), last.column, S.CellValue(last.cell))
  }

  function KeyFrom(conditions: seq<Condition>): Cells {
    if conditions == [] then map[]
    else
      var front, last := KeyFrom(conditions[..|conditions| - 1]), conditions[|conditions| - 1];
      if last.Equals? then front[last.column := S.CellValue(last.cell)] else front
  }

  /** The key and the other assignments among the values of an INSERT. */
  function KeyPart(key: set<string>, values: seq<Assignment>): Cells {
    if values == [] then map[]
    else
      var front, last := KeyPart(key, values[..|values| - 1]), values[|values| - 1];
      if last.column in key then front[last.column := S.CellValue(last.cell)] else front
  }

  function OtherPart(key: set<string>, values: seq<Assignment>): seq<Assignment> {
    if values == [] then []
    else
      var last := values[|values| - 1];
      OtherPart(key, values[..|values| - 1]) + if last.column in key then [] else [last]
  }

  function Pairs(names: seq<string>, cells: seq<Cell>): seq<Assignment>
    requires |names| == |cells|
  {
    if names == [] then []
    else Pairs(names[..|names| - 1], cells[..|cells| - 1]) + [Assignment(names[|names| - 1], cells[|cells| - 1])]
  }

  predicate FullKey(key: set<string>, k: Cells) {
    k.Keys == key && forall c :: c in k ==> !k[c].kind.Null?
  }

  function Upsert(t: Table, k: Cells, marks: bool, assignments: seq<Assignment>): Table {
    t[k := CqlRow(Look(t, k).marked || marks, PutAll(Look(t, k).cells, assignments))]
  }

  /** None where the database refuses the statement. */
  function Run(key: set<string>, t: Table, s: Statement): Option<Table> {
    match s
    case UpdateRow(assignments, conditions) =>
      var k := KeyFrom(conditions);
      if FullKey(key, k) && forall i :: 0 <= i < |assignments| ==> assignments[i].column !in key
      then Some(Upsert(t, k, false, assignments)) else None
    case InsertRows(names, _, rows) =>
      if |rows| == 1 && |rows[0]| == |names| then
        var values := Pairs(names, rows[0]);
        if FullKey(key, KeyPart(key, values)) then Some(Upsert(t, KeyPart(key, values), true, OtherPart(key, values))) else None
      else None
  }

  function RunAll(key: set<string>, t: Table, statements: seq<Statement>): Option<Table> {
    if statements == [] then Some(t)
    else
      var front := RunAll(key, t, statements[..|statements| - 1]);
      if front.None? then None else Run(key, front.value, statements[|statements| - 1])
  }

  // ------------------------------------------------------------------
  // What a captured row holds.

  /** How columns are matched: the undo of a DELETE goes by position, and so does the right
      answer; the undo of an UPDATE goes by the first name that is equal up to case. */
  datatype Reading = Exact | Folded

  function Position(names: seq<string>, c: string): (i: nat)
    ensures i <= |names| && (i < |names| <==> c in names) && (i < |names| ==> names[i] == c)
  {
    if names == [] || names[0] == c then 0 else 1 + Position(names[1..], c)
  }

  function ValueBy(reading: Reading, p: CqlPayload, row: seq<BackupValue>, c: string): BackupValue {
    var i := if reading == Exact then Position(p.columns, c) else ColumnIndex(p, c, 0);
    if i < |row| then row[i] else BackupValue(Null, "")
  }

  predicate InKey(reading: Reading, key: set<string>, p: CqlPayload, c: string) {
    if reading == Exact then c in key else Named(p.primaryKey, c)
  }

  /** The key values among `names`. */
  function KeyBy(reading: Reading, key: set<string>, p: CqlPayload, names: seq<string>, row: seq<BackupValue>): Cells {
    if names == [] then map[]
    else
      var front, c := KeyBy(reading, key, p, names[..|names| - 1], row), names[|names| - 1];
      if InKey(reading, key, p, c) then front[c := ValueBy(reading, p, row, c)] else front
  }

  predicate WritesBy(reading: Reading, key: set<string>, p: CqlPayload, names: seq<string>, c: string) {
    c in names && !InKey(reading, key, p, c)
  }

  /** The cells of a row once `names` have been put back. */
  function PutBackBy(reading: Reading, key: set<string>, p: CqlPayload, names: seq<string>, row: seq<BackupValue>, cells: Cells): Cells {
    if names == [] then cells
    else
      var front, c := PutBackBy(reading, key, p, names[..|names| - 1], row, cells), names[|names| - 1];
      if InKey(reading, key, p, c) then front else PutCell(front, c, ValueBy(reading, p, row, c))
  }

  function ValueOf(p: CqlPayload, row: seq<BackupValue>, column: string): BackupValue {
    ValueBy(Exact, p, row, column)
  }

  function KeyOf(key: set<string>, p: CqlPayload, row: seq<BackupValue>): Cells {
    KeyBy(Exact, key, p, p.columns, row)
  }

  predicate Writes(key: set<string>, p: CqlPayload, c: string) {
    WritesBy(Exact, key, p, p.columns, c)
  }

  function RowAfter(kind: WriteKind, key: set<string>, p: CqlPayload, row: seq<BackupValue>, r: CqlRow): CqlRow {
    CqlRow(r.marked || kind == DeleteBackup, PutBackBy(Exact, key, p, p.columns, row, r.cells))
  }

  /** No two columns have one name, and the whole key was selected. */
  ghost predicate Columns(key: set<string>, p: CqlPayload) {
    && (forall i, j :: 0 <= i < j < |p.columns| ==> p.columns[i] != p.columns[j])
    && key != {} && key == (set c | c in p.primaryKey) && forall c :: c in key ==> c in p.columns
  }

  ghost predicate RowFits(key: set<string>, p: CqlPayload, row: seq<BackupValue>) {
    |row| == |p.columns| && FullKey(key, KeyOf(key, p, row))
  }

  predicate SameCell(v: BackupValue, w: BackupValue) {
    v == w || (v.kind.Null? && w.kind.Null?)
  }

  /** No case-folded name misleads the undo: a column that is equal to a key column up to case is that key
      column, and every column holds what the first column equal to it up to case holds. */
  ghost predicate Straight(kind: WriteKind, key: set<string>, p: CqlPayload, row: seq<BackupValue>) {
    kind == UpdateBackup ==> forall c :: c in p.columns ==> Matches(key, p, row, c)
  }

  predicate Matches(key: set<string>, p: CqlPayload, row: seq<BackupValue>, c: string) {
    && (InKey(Folded, key, p, c) <==> InKey(Exact, key, p, c))
    && SameCell(ValueBy(Folded, p, row, c), ValueBy(Exact, p, row, c))
  }

  ghost predicate Shaped(kind: WriteKind, key: set<string>, p: CqlPayload) {
    && Columns(key, p)
    && (forall i :: 0 <= i < |p.rows| ==> RowFits(key, p, p.rows[i]) && Straight(kind, key, p, p.rows[i]))
    && (forall i, j :: 0 <= i < j < |p.rows| ==> KeyOf(key, p, p.rows[i]) != KeyOf(key, p, p.rows[j]))
  }

  // ------------------------------------------------------------------
  // What a statement says, read back by the database.

  lemma {:induction false} PositionOf(names: seq<string>, i: nat)
    requires i < |names| && forall j :: 0 <= j < i ==> names[j] != names[i]
    ensures Position(names, names[i]) == i
    decreases |names|
  {
    if i > 0 {
      PositionOf(names[1..], i - 1);
    }
  }

  /** A cell of the statement is the value its own reading gives. */
  lemma CellSays(p: CqlPayload, key: set<string>, row: seq<BackupValue>, i: nat)
    requires Columns(key, p) && i < |p.columns| == |row|
    ensures S.CellValue(CqlCell(row, ColumnIndex(p, p.columns[i], 0))) == ValueBy(Folded, p, row, p.columns[i])
    ensures S.CellValue(CqlCell(row, i)) == ValueBy(Exact, p, row, p.columns[i])
  {
    hide ColumnIndex;
    PositionOf(p.columns, i);
  }

  lemma KeyFromLast(cs: seq<Condition>, column: string, cell: Cell)
    ensures KeyFrom(cs + [Equals(column, cell)]) == KeyFrom(cs)[column := S.CellValue(cell)]
    ensures KeyFrom(cs + []) == KeyFrom(cs)
  {
    assert (cs + [Equals(column, cell)])[..|cs|] == cs && cs + [] == cs;
  }

  lemma PutAllLast(cells: Cells, assignments: seq<Assignment>, a: Assignment)
    ensures PutAll(cells, assignments + [a]) == PutCell(PutAll(cells, assignments), a.column, S.CellValue(a.cell))
    ensures PutAll(cells, assignments + []) == PutAll(cells, assignments)
  {
    assert (assignments + [a])[..|assignments|] == assignments && assignments + [] == assignments;
  }

  lemma PartsLast(key: set<string>, values: seq<Assignment>, v: Assignment)
    ensures KeyPart(key, values + [v]) == if v.column in key then KeyPart(key, values)[v.column := S.CellValue(v.cell)] else KeyPart(key, values)
    ensures OtherPart(key, values + [v]) == OtherPart(key, values) + if v.column in key then [] else [v]
  {
    assert (values + [v])[..|values|] == values;
  }

  lemma {:induction false} InPutBack(reading: Reading, key: set<string>, p: CqlPayload, names: seq<string>, row: seq<BackupValue>, cells: Cells, c: string)
    ensures var after, v := PutBackBy(reading, key, p, names, row, cells), ValueBy(reading, p, row, c);
            if WritesBy(reading, key, p, names, c) then (c in after <==> !v.kind.Null?) && (c in after ==> after[c] == v)
            else (c in after <==> c in cells) && (c in after ==> after[c] == cells[c])
    decreases |names|
  {
    hide ValueBy, InKey;
    if names != [] {
      InPutBack(reading, key, p, names[..|names| - 1], row, cells, c);
      assert names == names[..|names| - 1] + [names[|names| - 1]];
    }
  }

  lemma {:induction false} InKeyBy(reading: Reading, key: set<string>, p: CqlPayload, names: seq<string>, row: seq<BackupValue>, c: string)
    ensures var k := KeyBy(reading, key, p, names, row);
            (c in k <==> c in names && InKey(reading, key, p, c)) && (c in k ==> k[c] == ValueBy(reading, p, row, c))
    decreases |names|
  {
    hide ValueBy, InKey;
    if names != [] {
      InKeyBy(reading, key, p, names[..|names| - 1], row, c);
      assert names == names[..|names| - 1] + [names[|names| - 1]];
    }
  }

  /** One more column found by, or put back. */
  lemma ByLast(reading: Reading, key: set<string>, p: CqlPayload, row: seq<BackupValue>, n: nat, cells: Cells)
    requires n < |p.columns|
    ensures var c, before := p.columns[n], PutBackBy(reading, key, p, p.columns[..n], row, cells);
            PutBackBy(reading, key, p, p.columns[..n + 1], row, cells)
            == if InKey(reading, key, p, c) then before else PutCell(before, c, ValueBy(reading, p, row, c))
    ensures var c, before := p.columns[n], KeyBy(reading, key, p, p.columns[..n], row);
            KeyBy(reading, key, p, p.columns[..n + 1], row) == if InKey(reading, key, p, c) then before[c := ValueBy(reading, p, row, c)] else before
  {
    hide ValueBy, InKey, PutCell;
    assert p.columns[..n + 1][..n] == p.columns[..n];
  }

  lemma NothingSaid(reading: Reading, key: set<string>, p: CqlPayload, row: seq<BackupValue>, cells: Cells)
    ensures KeyFrom([]) == KeyPart(key, []) == KeyBy(reading, key, p, p.columns[..0], row)
    ensures PutAll(cells, []) == PutBackBy(reading, key, p, p.columns[..0], row, cells)
  {
    hide ValueBy, InKey;
  }

  /** An UPDATE finds and assigns by folded names. */
  lemma {:induction false} UpdateSays(key: set<string>, p: CqlPayload, row: seq<BackupValue>, n: nat, cells: Cells)
    requires Columns(key, p) && n <= |p.columns| == |row|
    ensures KeyFrom(CqlConditions(p, row, n)) == KeyBy(Folded, key, p, p.columns[..n], row)
    ensures PutAll(cells, CqlAssignments(p, row, n)) == PutBackBy(Folded, key, p, p.columns[..n], row, cells)
    decreases n
  {
    hide Columns, Named, ColumnIndex, ValueBy, CqlCell, KeyBy, KeyFrom, PutAll, PutBackBy, PutCell;
    if n == 0 {
      NothingSaid(Folded, key, p, row, cells);
    } else {
      UpdateSays(key, p, row, n - 1, cells);
      CellSays(p, key, row, n - 1);
      var c, cell := p.columns[n - 1], CqlCell(row, ColumnIndex(p, p.columns[n - 1], 0));
      KeyFromLast(CqlConditions(p, row, n - 1), c, cell);
      PutAllLast(cells, CqlAssignments(p, row, n - 1), Assignment(c, cell));
      ByLast(Folded, key, p, row, n - 1, cells);
    }
  }

  /** An INSERT goes by position. */
  lemma {:induction false} InsertSays(key: set<string>, p: CqlPayload, row: seq<BackupValue>, n: nat, cells: Cells)
    requires Columns(key, p) && n <= |p.columns| == |row|
    ensures |CqlCells(row, n)| == n
    ensures var values := Pairs(p.columns[..n], CqlCells(row, n));
            && KeyPart(key, values) == KeyBy(Exact, key, p, p.columns[..n], row)
            && PutAll(cells, OtherPart(key, values)) == PutBackBy(Exact, key, p, p.columns[..n], row, cells)
    decreases n
  {
    hide Columns, ValueBy, CqlCell, KeyBy, PutAll, PutBackBy, PutCell, KeyPart;
    if n == 0 {
      NothingSaid(Exact, key, p, row, cells);
    } else {
      hide OtherPart;
      InsertSays(key, p, row, n - 1, cells);
      CellSays(p, key, row, n - 1);
      var before, v := Pairs(p.columns[..n - 1], CqlCells(row, n - 1)), Assignment(p.columns[n - 1], CqlCell(row, n - 1));
      assert p.columns[..n][..n - 1] == p.columns[..n - 1] && CqlCells(row, n)[..n - 1] == CqlCells(row, n - 1);
      assert Pairs(p.columns[..n], CqlCells(row, n)) == before + [v];
      PartsLast(key, before, v);
      PutAllLast(cells, OtherPart(key, before), v);
      ByLast(Exact, key, p, row, n - 1, cells);
    }
  }

  lemma KeyIsNamed(p: CqlPayload, key: set<string>, c: string)
    requires Columns(key, p) && c in key
    ensures InKey(Folded, key, p, c)
  {
    assert c in p.primaryKey;
  }

  /** Every column is found by, or assigned. */
  predicate AllInKey(key: set<string>, p: CqlPayload, n: nat, expected: bool)
    requires n <= |p.columns|
  {
    forall i :: 0 <= i < n ==> InKey(Folded, key, p, p.columns[i]) == expected
  }

  lemma {:induction false} WhatIsAssigned(key: set<string>, p: CqlPayload, row: seq<BackupValue>, n: nat)
    requires n <= |p.columns|
    ensures CqlConditions(p, row, n) == [] <==> AllInKey(key, p, n, false)
    ensures CqlAssignments(p, row, n) == [] <==> AllInKey(key, p, n, true)
    decreases n
  {
    hide Named, ColumnIndex, CqlCell;
    if n > 0 {
      WhatIsAssigned(key, p, row, n - 1);
      assert AllInKey(key, p, n, true) <==> AllInKey(key, p, n - 1, true) && InKey(Folded, key, p, p.columns[n - 1]);
      assert AllInKey(key, p, n, false) <==> AllInKey(key, p, n - 1, false) && !InKey(Folded, key, p, p.columns[n - 1]);
    }
  }

  lemma {:induction false} NoKeyIsAssigned(key: set<string>, p: CqlPayload, row: seq<BackupValue>, n: nat)
    requires Columns(key, p) && n <= |p.columns|
    ensures forall i :: 0 <= i < |CqlAssignments(p, row, n)| ==> CqlAssignments(p, row, n)[i].column !in key
    decreases n
  {
    hide Columns, Named, ColumnIndex, CqlCell;
    if n > 0 {
      NoKeyIsAssigned(key, p, row, n - 1);
      if p.columns[n - 1] in key {
        KeyIsNamed(p, key, p.columns[n - 1]);
      }
    }
  }

  // ------------------------------------------------------------------
  // One row, and all of them.

  function ReadingOf(kind: WriteKind): Reading {
    if kind == DeleteBackup then Exact else Folded
  }

  predicate SaysSomething(kind: WriteKind, key: set<string>, p: CqlPayload) {
    kind == DeleteBackup || exists c :: c in p.columns && !InKey(Folded, key, p, c)
  }

  lemma SomeKeyColumn(p: CqlPayload, key: set<string>) returns (c: string)
    requires Columns(key, p)
    ensures c in key && c in p.columns && InKey(Folded, key, p, c)
  {
    c :| c in key;
    KeyIsNamed(p, key, c);
  }

  /** What the undo of one row does, twins or not. */
  lemma RowDoes(kind: WriteKind, key: set<string>, p: CqlPayload, row: seq<BackupValue>, t: Table)
    requires Columns(key, p) && |row| == |p.columns|
    ensures |RowStatement(kind, p, row)| == if SaysSomething(kind, key, p) then 1 else 0
    ensures var rd, u := ReadingOf(kind), RunAll(key, t, RowStatement(kind, p, row));
            var k := KeyBy(rd, key, p, p.columns, row);
            if !SaysSomething(kind, key, p) then u == Some(t)
            else if !FullKey(key, k) then u == None
            else u == Some(t[k := CqlRow(Look(t, k).marked || kind == DeleteBackup, PutBackBy(rd, key, p, p.columns, row, Look(t, k).cells))])
  {
    hide CqlAssignments, CqlConditions, CqlCells, KeyFrom, PutAll, PutBackBy, KeyPart, OtherPart, Pairs, ValueBy, KeyBy, Columns, InKey;
    var n, k := |p.columns|, KeyBy(ReadingOf(kind), key, p, p.columns, row);
    assert p.columns[..n] == p.columns;
    UpdateSays(key, p, row, n, Look(t, k).cells);
    InsertSays(key, p, row, n, Look(t, k).cells);
    WhatIsAssigned(key, p, row, n);
    NoKeyIsAssigned(key, p, row, n);
    var c := SomeKeyColumn(p, key);
    var i :| 0 <= i < n && p.columns[i] == c;
    if SaysSomething(UpdateBackup, key, p) {
      var x :| x in p.columns && !InKey(Folded, key, p, x);
      var j :| 0 <= j < n && p.columns[j] == x;
    }
    OneStatement(key, t, RowStatement(kind, p, row));
  }

  /** The undo of one row does what it should to this table. */
  ghost predicate Right(kind: WriteKind, key: set<string>, p: CqlPayload, row: seq<BackupValue>, t: Table) {
    var u, k := RunAll(key, t, RowStatement(kind, p, row)), KeyOf(key, p, row);
    && u.Some? && Look(u.value, k) == RowAfter(kind, key, p, row, Look(t, k))
    && forall other :: other != k ==> Look(u.value, other) == Look(t, other)
  }

  lemma StraightReadsExactly(key: set<string>, p: CqlPayload, row: seq<BackupValue>, cells: Cells)
    requires Straight(UpdateBackup, key, p, row) && RowFits(key, p, row)
    ensures KeyBy(Folded, key, p, p.columns, row) == KeyOf(key, p, row)
    ensures PutBackBy(Folded, key, p, p.columns, row, cells) == PutBackBy(Exact, key, p, p.columns, row, cells)
  {
    hide ValueBy, InKey, PutBackBy, KeyBy;
    var a, b := PutBackBy(Folded, key, p, p.columns, row, cells), PutBackBy(Exact, key, p, p.columns, row, cells);
    forall c ensures (c in a <==> c in b) && (c in a ==> a[c] == b[c]) {
      InPutBack(Folded, key, p, p.columns, row, cells, c);
      InPutBack(Exact, key, p, p.columns, row, cells, c);
      assert c in p.columns ==> Matches(key, p, row, c);
    }
    var found, k := KeyBy(Folded, key, p, p.columns, row), KeyOf(key, p, row);
    forall c ensures (c in found <==> c in k) && (c in k ==> found[c] == k[c]) {
      InKeyBy(Folded, key, p, p.columns, row, c);
      InKeyBy(Exact, key, p, p.columns, row, c);
      assert c in p.columns ==> Matches(key, p, row, c);
    }
  }

  lemma NothingToPut(key: set<string>, p: CqlPayload, row: seq<BackupValue>, cells: Cells)
    requires forall c :: c in p.columns ==> InKey(Folded, key, p, c)
    ensures PutBackBy(Folded, key, p, p.columns, row, cells) == cells
  {
    hide ValueBy, InKey, PutBackBy;
    var after := PutBackBy(Folded, key, p, p.columns, row, cells);
    forall c ensures (c in after <==> c in cells) && (c in after ==> after[c] == cells[c]) {
      InPutBack(Folded, key, p, p.columns, row, cells, c);
    }
  }

  lemma OneRow(kind: WriteKind, key: set<string>, p: CqlPayload, row: seq<BackupValue>, t: Table)
    requires Columns(key, p) && RowFits(key, p, row) && Straight(kind, key, p, row)
    ensures Right(kind, key, p, row, t)
  {
    hide Columns, KeyBy, PutBackBy, InKey, Straight, RunAll, RowStatement;
    var cells := Look(t, KeyOf(key, p, row)).cells;
    RowDoes(kind, key, p, row, t);
    if kind == UpdateBackup {
      StraightReadsExactly(key, p, row, cells);
      if !SaysSomething(kind, key, p) {
        NothingToPut(key, p, row, cells);
      }
    }
  }

  lemma OneStatement(key: set<string>, t: Table, ss: seq<Statement>)
    requires |ss| <= 1
    ensures RunAll(key, t, ss) == if ss == [] then Some(t) else Run(key, t, ss[0])
  {
    hide Run;
    assert ss != [] ==> ss[..0] == [];
  }

  /** A table that shows whether the row was put back at all. */
  lemma SomeRowChanges(key: set<string>, p: CqlPayload, row: seq<BackupValue>, x: string) returns (t: Table)
    requires Writes(key, p, x)
    ensures var k := KeyOf(key, p, row); RowAfter(UpdateBackup, key, p, row, Look(t, k)) != Look(t, k)
  {
    hide ValueBy, WritesBy, PutBackBy, KeyBy;
    var k := KeyOf(key, p, row);
    t := if ValueOf(p, row, x).kind.Null? then map[k := CqlRow(false, map[x := BackupValue(Bool, "true")])] else map[];
    InPutBack(Exact, key, p, p.columns, row, Look(t, k).cells, x);
  }

  lemma SomeTableGoesWrong(key: set<string>, p: CqlPayload, row: seq<BackupValue>, c: string, x: string) returns (t: Table)
    requires Columns(key, p) && RowFits(key, p, row) && Writes(key, p, x) && c in p.columns && !Matches(key, p, row, c)
    ensures !Right(UpdateBackup, key, p, row, t)
  {
    hide Columns, ValueBy, InKey, PutBackBy, RunAll, RowStatement;
    var k, found := KeyOf(key, p, row), KeyBy(Folded, key, p, p.columns, row);
    t := SomeRowChanges(key, p, row, x);
    RowDoes(UpdateBackup, key, p, row, t);
    if SaysSomething(UpdateBackup, key, p) && FullKey(key, found) && found == k {
      FoundByItsKey(key, p, row, c);
      t := map[];
      RowDoes(UpdateBackup, key, p, row, t);
      InPutBack(Folded, key, p, p.columns, row, map[], c);
      InPutBack(Exact, key, p, p.columns, row, map[], c);
    }
  }

  /** When the undo finds the row by its own key, only another column's value can be wrong. */
  lemma FoundByItsKey(key: set<string>, p: CqlPayload, row: seq<BackupValue>, c: string)
    requires FullKey(key, KeyOf(key, p, row)) && KeyBy(Folded, key, p, p.columns, row) == KeyOf(key, p, row)
    requires c in p.columns && !Matches(key, p, row, c)
    ensures Writes(key, p, c) && WritesBy(Folded, key, p, p.columns, c) && !SameCell(ValueBy(Folded, p, row, c), ValueBy(Exact, p, row, c))
  {
    hide ValueBy, InKey;
    InKeyBy(Folded, key, p, p.columns, row, c);
    InKeyBy(Exact, key, p, p.columns, row, c);
  }

  /** Main result: the undo of an updated row is right on every table if and only if no case-folded name misleads it. */
  lemma RowIsUndoneExactly(key: set<string>, p: CqlPayload, row: seq<BackupValue>)
    requires Columns(key, p) && RowFits(key, p, row) && exists c :: Writes(key, p, c)
    ensures (forall t :: Right(UpdateBackup, key, p, row, t)) <==> Straight(UpdateBackup, key, p, row)
  {
    hide Columns, RowFits, Matches, Right;
    if Straight(UpdateBackup, key, p, row) {
      forall t ensures Right(UpdateBackup, key, p, row, t) {
        OneRow(UpdateBackup, key, p, row, t);
      }
    } else {
      var c :| c in p.columns && !Matches(key, p, row, c);
      var x :| Writes(key, p, x);
      var t := SomeTableGoesWrong(key, p, row, c, x);
    }
  }

  lemma {:induction false} RunConcat(key: set<string>, t: Table, a: seq<Statement>, b: seq<Statement>)
    ensures RunAll(key, t, a + b) == if RunAll(key, t, a).None? then None else RunAll(key, RunAll(key, t, a).value, b)
    decreases |b|
  {
    hide Run;
    if b == [] {
      assert a + b == a;
    } else {
      var front := b[..|b| - 1];
      RunConcat(key, t, a, front);
      assert (a + b)[..|a + b| - 1] == a + front;
    }
  }

  ghost predicate AmongFirst(key: set<string>, p: CqlPayload, n: nat, k: Cells)
    requires n <= |p.rows|
  {
    exists i :: 0 <= i < n && KeyOf(key, p, p.rows[i]) == k
  }

  /** Main result: on any table, the statements of the first n captured rows put the captured columns of these
      rows back under their keys, add what is missing, and leave everything else as it is. */
  lemma {:induction false} RestoreOnAnyTable(kind: WriteKind, key: set<string>, p: CqlPayload, t: Table, n: nat)
    requires Shaped(kind, key, p) && n <= |p.rows|
    ensures var u := RunAll(key, t, CqlStatements(kind, p, p.rows[..n]));
            && u.Some?
            && (forall i :: 0 <= i < n ==>
                  Look(u.value, KeyOf(key, p, p.rows[i])) == RowAfter(kind, key, p, p.rows[i], Look(t, KeyOf(key, p, p.rows[i]))))
            && forall k :: !AmongFirst(key, p, n, k) ==> Look(u.value, k) == Look(t, k)
    decreases n
  {
    hide Columns, RowFits, RowStatement, KeyOf, RowAfter, RunAll, Look;
    if n == 0 {
      assert p.rows[..0] == [];
      assert RunAll(key, t, []) == Some(t) by { OneStatement(key, t, []); }
    } else {
      RestoreOnAnyTable(kind, key, p, t, n - 1);
      assert p.rows[..n][..n - 1] == p.rows[..n - 1];
      var front := CqlStatements(kind, p, p.rows[..n - 1]);
      var row := p.rows[n - 1];
      RunConcat(key, t, front, RowStatement(kind, p, row));
      OneRow(kind, key, p, row, RunAll(key, t, front).value);
      assert !AmongFirst(key, p, n - 1, KeyOf(key, p, row));
      forall k | !AmongFirst(key, p, n, k) ensures !AmongFirst(key, p, n - 1, k) && k != KeyOf(key, p, row) {
      }
    }
  }

  // ------------------------------------------------------------------
  // When the undo brings back what was there.

  /** The captured rows were shown by the table, with these values. */
  ghost predicate Captures(kind: WriteKind, key: set<string>, p: CqlPayload, was: Table) {
    && Shaped(kind, key, p)
    && forall i :: 0 <= i < |p.rows| ==>
         Shown(was, KeyOf(key, p, p.rows[i])).Some? && Holds(key, p, p.rows[i], Look(was, KeyOf(key, p, p.rows[i])).cells)
  }

  ghost predicate Holds(key: set<string>, p: CqlPayload, row: seq<BackupValue>, cells: Cells) {
    forall c :: Writes(key, p, c) ==>
      (ValueOf(p, row, c).kind.Null? <==> c !in cells) && (c in cells ==> cells[c] == ValueOf(p, row, c))
  }

  /** The columns that were not captured hold the same, and the row does not hang on a mark that is gone. */
  ghost predicate AgreesBeside(kind: WriteKind, key: set<string>, p: CqlPayload, was: CqlRow, now: CqlRow) {
    && (forall c :: !Writes(key, p, c) ==> (c in now.cells <==> c in was.cells) && (c in was.cells ==> now.cells[c] == was.cells[c]))
    && (kind == DeleteBackup || now.marked || was.cells != map[])
  }

  ghost predicate AgreesElsewhere(kind: WriteKind, key: set<string>, p: CqlPayload, was: Table, now: Table) {
    && (forall k :: !AmongFirst(key, p, |p.rows|, k) ==> Shown(now, k) == Shown(was, k))
    && forall i :: 0 <= i < |p.rows| ==>
         AgreesBeside(kind, key, p, Look(was, KeyOf(key, p, p.rows[i])), Look(now, KeyOf(key, p, p.rows[i])))
  }

  ghost predicate SameShown(t: Table, u: Table) {
    forall k :: Shown(t, k) == Shown(u, k)
  }

  lemma PutBackIsSame(key: set<string>, p: CqlPayload, row: seq<BackupValue>, was: Cells, now: Cells)
    requires Holds(key, p, row, was)
    ensures PutBackBy(Exact, key, p, p.columns, row, now) == was
       <==> forall c :: !Writes(key, p, c) ==> (c in now <==> c in was) && (c in was ==> now[c] == was[c])
  {
    hide ValueBy, WritesBy, PutBackBy;
    var after := PutBackBy(Exact, key, p, p.columns, row, now);
    forall c
      ensures if Writes(key, p, c) then (c in after <==> c in was) && (c in was ==> after[c] == was[c])
              else (c in after <==> c in now) && (c in now ==> after[c] == now[c]) {
      InPutBack(Exact, key, p, p.columns, row, now, c);
    }
  }

  lemma RowIsSame(kind: WriteKind, key: set<string>, p: CqlPayload, row: seq<BackupValue>, was: Table, now: Table, after: Table)
    requires var k := KeyOf(key, p, row);
             && Shown(was, k).Some? && Holds(key, p, row, Look(was, k).cells)
             && Look(after, k) == RowAfter(kind, key, p, row, Look(now, k))
    ensures var k := KeyOf(key, p, row);
            Shown(after, k) == Shown(was, k) <==> AgreesBeside(kind, key, p, Look(was, k), Look(now, k))
  {
    hide Look, KeyOf, PutBackBy, Holds, Writes;
    var k := KeyOf(key, p, row);
    PutBackIsSame(key, p, row, Look(was, k).cells, Look(now, k).cells);
  }

  /** Main result: the undo shows the table as it was if and only if the table agreed with it everywhere but in
      the captured columns of the captured rows, and no captured row without cells lost its mark to an UPDATE. */
  lemma UndoneExactly(kind: WriteKind, key: set<string>, p: CqlPayload, was: Table, now: Table)
    requires Captures(kind, key, p, was)
    ensures var after := RunAll(key, now, CqlStatements(kind, p, p.rows));
            after.Some? && (SameShown(after.value, was) <==> AgreesElsewhere(kind, key, p, was, now))
  {
    hide Shaped, KeyOf, RowAfter, Look, Holds, AgreesBeside, CqlStatements, RunAll;
    assert p.rows[..|p.rows|] == p.rows;
    RestoreOnAnyTable(kind, key, p, now, |p.rows|);
    var after := RunAll(key, now, CqlStatements(kind, p, p.rows)).value;
    forall i | 0 <= i < |p.rows|
      ensures var k := KeyOf(key, p, p.rows[i]);
              Shown(after, k) == Shown(was, k) <==> AgreesBeside(kind, key, p, Look(was, k), Look(now, k)) {
      RowIsSame(kind, key, p, p.rows[i], was, now, after);
    }
    forall k | !AmongFirst(key, p, |p.rows|, k) ensures Shown(after, k) == Shown(now, k) {
      assert Look(after, k) == Look(now, k);
      SameLook(after, now, k);
    }
  }

  lemma SameLook(t: Table, u: Table, k: Cells)
    requires Look(t, k) == Look(u, k)
    ensures Shown(t, k) == Shown(u, k)
  {
  }

  /** Nothing changed but captured columns of captured rows; a DELETE may have taken the marks. */
  ghost predicate WroteOnlyCaptured(kind: WriteKind, key: set<string>, p: CqlPayload, was: CqlRow, now: CqlRow) {
    && (kind == UpdateBackup ==> now.marked == was.marked)
    && forall c :: !Writes(key, p, c) ==> (c in now.cells <==> c in was.cells) && (c in was.cells ==> now.cells[c] == was.cells[c])
  }

  /** A statement that wrote nothing but what was captured is undone. */
  lemma WriteIsUndone(kind: WriteKind, key: set<string>, p: CqlPayload, was: Table, now: Table)
    requires Captures(kind, key, p, was)
    requires forall k :: !AmongFirst(key, p, |p.rows|, k) ==> Look(now, k) == Look(was, k)
    requires forall i :: 0 <= i < |p.rows| ==>
               WroteOnlyCaptured(kind, key, p, Look(was, KeyOf(key, p, p.rows[i])), Look(now, KeyOf(key, p, p.rows[i])))
    ensures var after := RunAll(key, now, CqlStatements(kind, p, p.rows));
            after.Some? && SameShown(after.value, was)
  {
    hide Shaped, KeyOf, Holds, CqlStatements, RunAll, Writes, Look;
    UndoneExactly(kind, key, p, was, now);
    forall k | !AmongFirst(key, p, |p.rows|, k) ensures Shown(now, k) == Shown(was, k) {
      SameLook(now, was, k);
    }
  }

  /** Of two columns that differ in case alone, the undo of an UPDATE writes the first one's value into both. */
  lemma TwinColumnsAreMixedUp(v: BackupValue, w: BackupValue, k: BackupValue)
    ensures var p := CqlPayload("ks", "t", ["k"], ["k", "a", "A"], [[k, v, w]]);
            CqlStatements(UpdateBackup, p, p.rows)
            == [UpdateRow([Assignment("a", Stored(v, false)), Assignment("A", Stored(v, false))], [Equals("k", Stored(k, false))])]
  {
    hide ToLower, CqlStatements, RowStatement;
    var p, row := CqlPayload("ks", "t", ["k"], ["k", "a", "A"], [[k, v, w]]), [k, v, w];
    assert ToLower("k") == "k" && ToLower("a") == "a" && ToLower("A") == "a" by { LowerCaseOfA(); }
    assert ToLower(p.primaryKey[0]) == ToLower("k");
    assert !Named(p.primaryKey, "a") && !Named(p.primaryKey, "A") && Named(p.primaryKey, "k");
    assert ColumnIndex(p, "a", 1) == 1 && ColumnIndex(p, "A", 1) == 1;
    assert ColumnIndex(p, "k", 0) == 0 && ColumnIndex(p, "a", 0) == 1 && ColumnIndex(p, "A", 0) == 1;
    assert CqlAssignments(p, row, 1) == [] && CqlConditions(p, row, 1) == [Equals("k", Stored(k, false))];
    assert CqlAssignments(p, row, 2) == [Assignment("a", Stored(v, false))] && CqlConditions(p, row, 2) == CqlConditions(p, row, 1);
    assert CqlAssignments(p, row, 3) == [Assignment("a", Stored(v, false)), Assignment("A", Stored(v, false))];
    assert CqlConditions(p, row, 3) == CqlConditions(p, row, 2);
    OneRowOnly(p, row);
  }

  lemma LowerCaseOfA()
    ensures ToLower("k") == "k" && ToLower("a") == "a" && ToLower("A") == "a"
  {
    assert ToLower("k") == ['k'] && ToLower("a") == ['a'] && ToLower("A") == ['a'];
  }

  lemma OneRowOnly(p: CqlPayload, row: seq<BackupValue>)
    requires CqlAssignments(p, row, |p.columns|) != [] && CqlConditions(p, row, |p.columns|) != []
    ensures CqlStatements(UpdateBackup, p, [row]) == [UpdateRow(CqlAssignments(p, row, |p.columns|), CqlConditions(p, row, |p.columns|))]
  {
    hide CqlAssignments, CqlConditions;
    assert [row][..0] == [] && CqlStatements(UpdateBackup, p, []) == [];
  }

  // ------------------------------------------------------------------
  // A restore that fails on the way.

  /** How many statements have run when batch b is the next: `works` says which batches the database takes. */
  function Reached(total: nat, works: nat -> bool, b: nat): (n: nat)
    requires BATCH_SIZE * b <= total + BATCH_SIZE
    ensures n <= total && (n == total || n % 50 == 0)
    decreases total + BATCH_SIZE - BATCH_SIZE * b
  {
    if BATCH_SIZE * b >= total then total
    else if works(b) then Reached(total, works, b + 1)
    else BATCH_SIZE * b
  }

  class Connection {
    var table: Table

    constructor (table: Table)
      ensures this.table == table
    {
      this.table := table;
    }

    /** Batches run one after the other; no transaction holds them together. */
    method ApplyRowBackup(kind: WriteKind, key: set<string>, p: CqlPayload, works: nat -> bool) returns (applied: bool)
      requires Shaped(kind, key, p)
      modifies this
      ensures var statements := CqlStatements(kind, p, p.rows);
              var n := Reached(|statements|, works, 0);
              && (applied <==> n == |statements|)
              && Some(table) == RunAll(key, old(table), statements[..n])
    {
      hide Shaped, RunAll, CqlStatements;
      var statements := RestoreStatements(kind, p);
      var b := 0;
      NoStatements(key, table, statements);
      while BATCH_SIZE * b < |statements|
        invariant BATCH_SIZE * b <= |statements| + BATCH_SIZE
        invariant Reached(|statements|, works, b) == Reached(|statements|, works, 0)
        invariant var n := if BATCH_SIZE * b < |statements| then BATCH_SIZE * b else |statements|;
                  Some(table) == RunAll(key, old(table), statements[..n])
        decreases |statements| - BATCH_SIZE * b
      {
        if !works(b) {
          return false;
        }
        var start, end := BATCH_SIZE * b, GroupEnd(|statements|, BATCH_SIZE * b);
        OneMoreBatch(kind, key, p, old(table), start, end);
        table := RunAll(key, table, statements[start..end]).value;
        b := b + 1;
      }
      assert statements[..|statements|] == statements;
      applied := true;
    }
  }

  lemma NoStatements(key: set<string>, t: Table, statements: seq<Statement>)
    ensures RunAll(key, t, statements[..0]) == Some(t)
  {
  }

  lemma OneMoreBatch(kind: WriteKind, key: set<string>, p: CqlPayload, t: Table, start: nat, end: nat)
    requires Shaped(kind, key, p) && start <= end <= |CqlStatements(kind, p, p.rows)|
    ensures var ss := CqlStatements(kind, p, p.rows);
            && RunAll(key, t, ss[..start]).Some? && RunAll(key, t, ss[..end]).Some?
            && RunAll(key, RunAll(key, t, ss[..start]).value, ss[start..end]) == RunAll(key, t, ss[..end])
  {
    hide Shaped, RunAll, CqlStatements;
    var ss := CqlStatements(kind, p, p.rows);
    EveryPrefixRuns(kind, key, p, t, start);
    EveryPrefixRuns(kind, key, p, t, end);
    assert ss[..end] == ss[..start] + ss[start..end];
    RunConcat(key, t, ss[..start], ss[start..end]);
  }

  lemma EveryPrefixRuns(kind: WriteKind, key: set<string>, p: CqlPayload, t: Table, n: nat)
    requires Shaped(kind, key, p) && n <= |CqlStatements(kind, p, p.rows)|
    ensures RunAll(key, t, CqlStatements(kind, p, p.rows)[..n]).Some?
  {
    hide Shaped, Run, CqlStatements;
    assert p.rows[..|p.rows|] == p.rows;
    RestoreOnAnyTable(kind, key, p, t, |p.rows|);
    var ss := CqlStatements(kind, p, p.rows);
    assert ss == ss[..n] + ss[n..];
    RunConcat(key, t, ss[..n], ss[n..]);
  }

  /** Main result: a restore that fails on the way has put back the first rows, a multiple of fifty of them, and no others. */
  lemma FailedRestoreIsPartial(kind: WriteKind, key: set<string>, p: CqlPayload, works: nat -> bool, t: Table)
    requires Shaped(kind, key, p) && (kind == DeleteBackup || exists c :: Writes(key, p, c))
    ensures |CqlStatements(kind, p, p.rows)| == |p.rows|
    ensures var n := Reached(|p.rows|, works, 0);
            var u := RunAll(key, t, CqlStatements(kind, p, p.rows)[..n]);
            && u.Some?
            && (forall i :: 0 <= i < n ==>
                  Look(u.value, KeyOf(key, p, p.rows[i])) == RowAfter(kind, key, p, p.rows[i], Look(t, KeyOf(key, p, p.rows[i]))))
            && forall k :: !AmongFirst(key, p, n, k) ==> Look(u.value, k) == Look(t, k)
  {
    hide Reached, Shaped, CqlStatements, RunAll, Look, KeyOf, RowAfter, AmongFirst;
    var n := Reached(|p.rows|, works, 0);
    assert p.rows[..|p.rows|] == p.rows;
    OnePerRow(kind, key, p, |p.rows|, n);
    RestoreOnAnyTable(kind, key, p, t, n);
  }

  lemma {:induction false} OnePerRow(kind: WriteKind, key: set<string>, p: CqlPayload, m: nat, n: nat)
    requires Shaped(kind, key, p) && (kind == DeleteBackup || exists c :: Writes(key, p, c)) && n <= m <= |p.rows|
    ensures |CqlStatements(kind, p, p.rows[..m])| == m
    ensures CqlStatements(kind, p, p.rows[..m])[..n] == CqlStatements(kind, p, p.rows[..n])
    decreases m
  {
    hide RowStatement, Columns, KeyOf;
    if m > 0 {
      assert p.rows[..m][..m - 1] == p.rows[..m - 1];
      OnePerRow(kind, key, p, m - 1, if n < m then n else m - 1);
      OneForRow(kind, key, p, p.rows[m - 1]);
    }
  }

  lemma OneForRow(kind: WriteKind, key: set<string>, p: CqlPayload, row: seq<BackupValue>)
    requires Columns(key, p) && RowFits(key, p, row) && Straight(kind, key, p, row)
    requires kind == DeleteBackup || exists c :: Writes(key, p, c)
    ensures |RowStatement(kind, p, row)| == 1
  {
    hide Columns, RowStatement, KeyOf, KeyBy, ValueBy, InKey, RunAll, PutBackBy;
    RowDoes(kind, key, p, row, map[]);
    if kind == UpdateBackup {
      var c :| Writes(key, p, c);
      assert Matches(key, p, row, c);
    }
  }
}
