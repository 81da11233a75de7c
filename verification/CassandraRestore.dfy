/** Cassandra's undo statements, grouped into batches, and what the lexemes of
    each statement are free of. */
module CassandraRestore {
  import opened Bytes
  import opened Lexer
  import opened Classifier
  import R = Render
  import opened RowBackup
  import opened RestoreText
  import opened RestoreData
  import opened RestoreVerdict
  import opened Sentences

  // ------------------------------------------------------------------
  // The statements.

  datatype CqlPayload = CqlPayload(keyspace: string, table: string, primaryKey: seq<string>, columns: seq<string>, rows: seq<seq<BackupValue>>)

  /** First column of this name, without regard to case. */
  function ColumnIndex(p: CqlPayload, name: string, i: nat): (r: nat)
    requires i <= |p.columns|
    ensures i <= r <= |p.columns|
    decreases |p.columns| - i
  {
    if i == |p.columns| || EqualFold(p.columns[i], name) then i else ColumnIndex(p, name, i + 1)
  }

  function CqlCell(row: seq<BackupValue>, i: nat): Cell {
    if i < |row| then Stored(row[i], false) else Missing
  }

  function CqlCells(row: seq<BackupValue>, columns: nat): seq<Cell> {
    if columns == 0 then [] else CqlCells(row, columns - 1) + [CqlCell(row, columns - 1)]
  }

  /** What the first n columns of a row assign, and what they find the row by. */
  function CqlAssignments(p: CqlPayload, row: seq<BackupValue>, n: nat): seq<Assignment>
    requires n <= |p.columns|
  {
    if n == 0 then []
    else
      CqlAssignments(p, row, n - 1)
      + if Named(p.primaryKey, p.columns[n - 1]) then [] else [Assignment(p.columns[n - 1], CqlCell(row, ColumnIndex(p, p.columns[n - 1], 0)))]
  }

  function CqlConditions(p: CqlPayload, row: seq<BackupValue>, n: nat): seq<Condition>
    requires n <= |p.columns|
  {
    if n == 0 then []
    else
      CqlConditions(p, row, n - 1)
      + if Named(p.primaryKey, p.columns[n - 1]) then [Equals(p.columns[n - 1], CqlCell(row, ColumnIndex(p, p.columns[n - 1], 0)))] else []
  }

  function RowStatement(kind: WriteKind, p: CqlPayload, row: seq<BackupValue>): seq<Statement> {
    if kind == DeleteBackup then [InsertRows(p.columns, false, [CqlCells(row, |p.columns|)])]
    else
      var a, c := CqlAssignments(p, row, |p.columns|), CqlConditions(p, row, |p.columns|);
      if a != [] && c != [] then [UpdateRow(a, c)] else []
  }

  function CqlStatements(kind: WriteKind, p: CqlPayload, rows: seq<seq<BackupValue>>): seq<Statement> {
    if rows == [] then [] else CqlStatements(kind, p, rows[..|rows| - 1]) + RowStatement(kind, p, rows[|rows| - 1])
  }

  method RestoreStatements(kind: WriteKind, p: CqlPayload) returns (statements: seq<Statement>)
    ensures statements == CqlStatements(kind, p, p.rows)
  {
    hide Named, ColumnIndex, EqualFold;
    statements := [];
    for i := 0 to |p.rows|
      invariant statements == CqlStatements(kind, p, p.rows[..i])
    {
      assert p.rows[..i + 1][..i] == p.rows[..i];
      var row := p.rows[i];
      if kind == DeleteBackup {
        var cells: seq<Cell> := [];
        for j := 0 to |p.columns|
          invariant cells == CqlCells(row, j)
        {
          cells := cells + [CqlCell(row, j)];
        }
        statements := statements + [InsertRows(p.columns, false, [cells])];
      } else {
        var a, c := SplitColumns(p, row);
        if a != [] && c != [] {
          statements := statements + [UpdateRow(a, c)];
        }
      }
    }
    assert p.rows[..|p.rows|] == p.rows;
  }

  method SplitColumns(p: CqlPayload, row: seq<BackupValue>) returns (a: seq<Assignment>, c: seq<Condition>)
    ensures a == CqlAssignments(p, row, |p.columns|) && c == CqlConditions(p, row, |p.columns|)
  {
    hide Named, ColumnIndex, EqualFold;
    a, c := [], [];
    for j := 0 to |p.columns|
      invariant a == CqlAssignments(p, row, j) && c == CqlConditions(p, row, j)
    {
      var i := ColumnIndex(p, p.columns[j], 0);
      if Named(p.primaryKey, p.columns[j]) {
        c := c + [Equals(p.columns[j], CqlCell(row, i))];
      } else {
        a := a + [Assignment(p.columns[j], CqlCell(row, i))];
      }
    }
  }

  // ------------------------------------------------------------------
  // The batches.

  const BATCH_SIZE := 50

  function Lines(group: seq<string>): string {
    if group == [] then "" else Lines(group[..|group| - 1]) + ("  " + group[|group| - 1] + ";\n")
  }

  function BatchText(group: seq<string>): string {
    "BEGIN BATCH\n" + Lines(group) + "APPLY BATCH"
  }

  function GroupEnd(n: nat, start: nat): nat {
    if start + BATCH_SIZE < n then start + BATCH_SIZE else n
  }

  function BatchesFrom(statements: seq<string>, start: nat): seq<string>
    decreases |statements| - start
  {
    if start >= |statements| then []
    else [BatchText(statements[start..GroupEnd(|statements|, start)])] + BatchesFrom(statements, start + BATCH_SIZE)
  }

  lemma {:induction false} FiftyToABatch(statements: seq<string>, start: nat, b: nat)
    requires start + 50 * b < |statements|
    ensures var first := start + 50 * b;
            && b < |BatchesFrom(statements, start)|
            && BatchesFrom(statements, start)[b] == BatchText(statements[first..if first + 50 < |statements| then first + 50 else |statements|])
    ensures start + 50 * |BatchesFrom(statements, start)| < |statements| + 50
    decreases |statements| - start
  {
    hide BatchText;
    if b > 0 {
      FiftyToABatch(statements, start + BATCH_SIZE, b - 1);
    } else if start + BATCH_SIZE < |statements| {
      FiftyToABatch(statements, start + BATCH_SIZE, 0);
    }
  }

  method RestoreBatches(statements: seq<string>) returns (batches: seq<string>)
    ensures batches == BatchesFrom(statements, 0)
  {
    hide BatchText;
    batches := [];
    var start := 0;
    while start < |statements|
      invariant BatchesFrom(statements, 0) == batches + BatchesFrom(statements, start)
      decreases |statements| - start
    {
      var text := WriteBatch(statements[start..GroupEnd(|statements|, start)]);
      batches := batches + [text];
      start := start + BATCH_SIZE;
    }
  }

  method WriteBatch(group: seq<string>) returns (text: string)
    ensures text == BatchText(group)
  {
    text := "BEGIN BATCH\n";
    for i := 0 to |group|
      invariant text == "BEGIN BATCH\n" + Lines(group[..i])
    {
      assert group[..i + 1][..i] == group[..i];
      text := text + ("  " + group[i] + ";\n");
    }
    assert group[..|group|] == group;
    text := text + "APPLY BATCH";
  }

  lemma {:induction false} LinesSpell(lists: seq<seq<R.Lexeme>>)
    ensures R.SpellAll(Body(lists)) == Lines(Texts(lists))
    decreases |lists|
  {
    hide R.SpellAll, Line;
    if lists == [] {
      SpellNothing();
    } else {
      var front, last := lists[..|lists| - 1], lists[|lists| - 1];
      LinesSpell(front);
      BodyLast(front, last);
      TextsLast(front, last);
      assert front + [last] == lists;
      R.SpellConcat(Body(front), Line(last));
      SpellLine(last);
    }
  }

  lemma {:induction false} BodyLast(front: seq<seq<R.Lexeme>>, last: seq<R.Lexeme>)
    ensures Body(front + [last]) == Body(front) + Line(last)
    decreases |front|
  {
    hide Line;
    if front == [] {
      assert [last][1..] == [] && Line(last) + [] == Line(last);
    } else {
      assert (front + [last])[1..] == front[1..] + [last];
      BodyLast(front[1..], last);
      assert Line(front[0]) + (Body(front[1..]) + Line(last)) == Line(front[0]) + Body(front[1..]) + Line(last);
    }
  }

  lemma TextsLast(front: seq<seq<R.Lexeme>>, last: seq<R.Lexeme>)
    ensures Texts(front + [last]) == Texts(front) + [R.SpellAll(last)]
    ensures Lines(Texts(front + [last])) == Lines(Texts(front)) + ("  " + R.SpellAll(last) + ";\n")
  {
    hide R.SpellAll;
    assert Texts(front + [last]) == Texts(front) + [R.SpellAll(last)];
    assert (Texts(front) + [R.SpellAll(last)])[..|front|] == Texts(front);
  }

  // ------------------------------------------------------------------
  // No APPLY BATCH inside.

  /** No two names stand side by side; `prev` says whether one stood before. */
  predicate Apart(xs: seq<R.Lexeme>, prev: bool) {
    if xs == [] then true
    else if xs[0].Gap? then Apart(xs[1..], prev)
    else !(prev && xs[0].Quoted?) && Apart(xs[1..], xs[0].Quoted?)
  }

  function EndsInName(xs: seq<R.Lexeme>, prev: bool): bool {
    if xs == [] then prev else EndsInName(xs[1..], if xs[0].Gap? then prev else xs[0].Quoted?)
  }

  lemma {:induction false} ApartConcat(a: seq<R.Lexeme>, b: seq<R.Lexeme>, prev: bool)
    requires Apart(a, prev) && Apart(b, EndsInName(a, prev))
    ensures Apart(a + b, prev) && EndsInName(a + b, prev) == EndsInName(b, EndsInName(a, prev))
    decreases |a|
  {
    if a == [] {
      assert a + b == b;
    } else {
      assert (a + b)[1..] == a[1..] + b && (a + b)[0] == a[0];
      ApartConcat(a[1..], b, if a[0].Gap? then prev else a[0].Quoted?);
    }
  }

  lemma {:induction false} NamelessApart(xs: seq<R.Lexeme>, prev: bool)
    requires NoNames(xs)
    ensures Apart(xs, prev)
    decreases |xs|
  {
    if xs != [] {
      NamelessApart(xs[1..], if xs[0].Gap? then prev else false);
    }
  }

  /** Parts that are apart, joined by a separator that starts with a mark or a word. */
  ghost predicate Separator(xs: seq<R.Lexeme>) {
    NoNames(xs) && !EndsInName(xs, true)
  }

  lemma {:induction false} SeparatorEnds(xs: seq<R.Lexeme>, prev: bool)
    requires NoNames(xs)
    ensures EndsInName(xs, prev) ==> prev
    ensures EndsInName(xs, false) == false
    ensures EndsInName(xs, prev) ==> EndsInName(xs, true)
    decreases |xs|
  {
    if xs != [] {
      SeparatorEnds(xs[1..], if xs[0].Gap? then prev else false);
      SeparatorEnds(xs[1..], if xs[0].Gap? then true else false);
    }
  }

  lemma {:induction false} JoinApart(parts: seq<seq<R.Lexeme>>, separator: seq<R.Lexeme>)
    requires Separator(separator) && forall i :: 0 <= i < |parts| ==> Apart(parts[i], false)
    ensures Apart(JoinLexemes(parts, separator), false)
    decreases |parts|
  {
    hide Apart, EndsInName, NoNames;
    if parts == [] {
      assert Apart([], false) by { NothingApart(); }
    } else if |parts| > 1 {
      var rest := JoinLexemes(parts[1..], separator);
      JoinApart(parts[1..], separator);
      var e := EndsInName(parts[0], false);
      NamelessApart(separator, e);
      SeparatorEnds(separator, e);
      ApartConcat(parts[0], separator, false);
      ApartConcat(parts[0] + separator, rest, false);
    }
  }

  lemma NothingApart()
    ensures Apart([], false)
  {
  }

  /** Name, then a list without names. */
  lemma NameThenApart(x: R.Lexeme, rest: seq<R.Lexeme>)
    requires x.Quoted? && NoNames(rest)
    ensures Apart([x] + rest, false)
  {
    hide NoNames;
    assert ([x] + rest)[1..] == rest;
    NamelessApart(rest, true);
  }

  lemma SeparatorsSeparate()
    ensures Separator(COMMA) && Separator(COMMA_LINE) && Separator(EQUALS) && Separator(Keyword("AND")) && Separator(Keyword("SET")) && Separator(Keyword("WHERE"))
  {
    assert COMMA[1..] == [R.Gap(" ")] && [R.Gap(" ")][1..] == [];
    assert COMMA_LINE[1..] == [R.Gap("\n")] && [R.Gap("\n")][1..] == [];
    Middle(R.Mark('='));
    Middle(R.Word("AND"));
    Middle(R.Word("SET"));
    Middle(R.Word("WHERE"));
  }

  lemma Middle(x: R.Lexeme)
    requires !x.Gap? && !x.Quoted?
    ensures Separator([R.Gap(" "), x, R.Gap(" ")])
  {
    var xs := [R.Gap(" "), x, R.Gap(" ")];
    assert [R.Gap(" ")][1..] == [] && !EndsInName([R.Gap(" ")], false);
    assert [x, R.Gap(" ")][1..] == [R.Gap(" ")] && !EndsInName([x, R.Gap(" ")], true);
    assert xs[1..] == [x, R.Gap(" ")];
  }

  lemma AssignmentApart(e: Engine, a: Assignment)
    requires EncodedCell(a.cell)
    ensures Apart(AssignmentLexemes(e, a), false)
  {
    hide CellLexemes, EncodedCell;
    CellIsTame(e, a.cell);
    NameThenApart(Name(e, a.column), EQUALS + CellLexemes(e, a.cell));
  }

  lemma ConditionApart(e: Engine, c: Condition)
    requires EncodedCondition(c)
    ensures Apart(ConditionLexemes(e, c), false)
  {
    hide CellLexemes, EncodedCell;
    match c
    case IsNull(column) => NameThenApart(Name(e, column), [R.Gap(" "), R.Word("IS"), R.Gap(" "), R.Word("NULL")]);
    case Equals(column, cell) => AssignmentApart(e, Assignment(column, cell));
  }

  lemma TableApart(e: Engine, schema: string, table: string)
    ensures Apart(TableLexemes(e, schema, table), false)
  {
    var xs := TableLexemes(e, schema, table);
    assert [Name(e, table)][1..] == [] && Apart([Name(e, table)], false);
    if schema != "" {
      assert [R.Mark('.'), Name(e, table)][1..] == [Name(e, table)] && Apart([R.Mark('.'), Name(e, table)], true);
      assert xs[1..] == [R.Mark('.'), Name(e, table)];
    }
  }

  lemma ParensApart(xs: seq<R.Lexeme>, prev: bool)
    requires Apart(xs, false)
    ensures Apart(Parens(xs), prev) && !EndsInName(Parens(xs), prev)
  {
    assert [R.Mark(')')][1..] == [];
    ApartConcat(xs, [R.Mark(')')], false);
    assert Parens(xs)[0] == R.Mark('(') && Parens(xs)[1..] == xs + [R.Mark(')')];
  }

  lemma RowApart(e: Engine, row: seq<Cell>)
    requires forall j :: 0 <= j < |row| ==> EncodedCell(row[j])
    ensures Apart(RowLexemes(e, row), false)
  {
    hide CellLexemes, EncodedCell, Apart, NoNames, JoinLexemes, CellParts, Parens, Separator;
    forall j | 0 <= j < |row| ensures Apart(CellParts(e, row)[j], false) {
      CellIsTame(e, row[j]);
      NamelessApart(CellLexemes(e, row[j]), false);
    }
    SeparatorsSeparate();
    JoinApart(CellParts(e, row), COMMA);
    ParensApart(JoinLexemes(CellParts(e, row), COMMA), false);
    GapApart(RowIndent(e), Parens(JoinLexemes(CellParts(e, row), COMMA)));
  }

  lemma GapApart(white: string, xs: seq<R.Lexeme>)
    requires Apart(xs, false)
    ensures Apart([R.Gap(white)] + xs, false)
  {
    assert ([R.Gap(white)] + xs)[1..] == xs;
  }

  lemma LeadApart(before: seq<R.Lexeme>, xs: seq<R.Lexeme>, prev: bool)
    requires Separator(before) && Apart(xs, false)
    ensures Apart(before + xs, prev)
  {
    hide Apart, EndsInName, NoNames;
    NamelessApart(before, prev);
    SeparatorEnds(before, prev);
    ApartConcat(before, xs, prev);
  }

  lemma WordsSeparate(e: Engine)
    ensures Separator(INSERT_INTO) && Separator(UPDATE_WORD) && Separator(OVERRIDING) && Separator(ValuesLine(e))
  {
    assert UPDATE_WORD == [R.Word("UPDATE")] + [R.Gap(" ")];
    EndsLater([R.Word("UPDATE")], [R.Gap(" ")]);
    EndsLater([R.Word("INSERT"), R.Gap(" "), R.Word("INTO")], [R.Gap(" ")]);
    assert INSERT_INTO == [R.Word("INSERT"), R.Gap(" "), R.Word("INTO")] + [R.Gap(" ")];
    EndsLater([R.Gap(" "), R.Word("OVERRIDING"), R.Gap(" "), R.Word("SYSTEM"), R.Gap(" "), R.Word("VALUE")], []);
    assert OVERRIDING == [R.Gap(" "), R.Word("OVERRIDING"), R.Gap(" "), R.Word("SYSTEM"), R.Gap(" "), R.Word("VALUE")] + [];
    EndsLater([R.Gap(" "), R.Word("VALUES")], [R.Gap(ValuesEnd(e))]);
    assert ValuesLine(e) == [R.Gap(" "), R.Word("VALUES")] + [R.Gap(ValuesEnd(e))];
  }

  /** A list whose last lexeme but gaps is a word. */
  lemma {:induction false} EndsLater(front: seq<R.Lexeme>, gaps: seq<R.Lexeme>)
    requires front != [] && front[|front| - 1].Word? && NoNames(front)
    requires gaps == [] || (|gaps| == 1 && gaps[0].Gap?)
    ensures !EndsInName(front + gaps, true) && !EndsInName(front + gaps, false) && NoNames(front + gaps)
    decreases |front|
  {
    assert (front + gaps)[1..] == front[1..] + gaps;
    if |front| == 1 {
      assert gaps != [] ==> gaps[1..] == [];
      assert !EndsInName(gaps, false);
      assert (front + gaps)[1..] == gaps && (front + gaps)[0] == front[0];
    } else {
      EndsLater(front[1..], gaps);
    }
  }

  lemma InsertApart(e: Engine, item: Item, names: seq<string>, overriding: bool, rows: seq<seq<Cell>>)
    requires forall i, j :: 0 <= i < |rows| && 0 <= j < |rows[i]| ==> EncodedCell(rows[i][j])
    ensures Apart(StatementLexemes(e, item, InsertRows(names, overriding, rows)), false)
  {
    hide Apart, EndsInName, NoNames, Separator, JoinLexemes, NameParts, RowParts, RowLexemes, TableLexemes, Parens, EncodedCell;
    var columns, lines := JoinLexemes(NameParts(e, names), COMMA), JoinLexemes(RowParts(e, rows), COMMA_LINE);
    var mode, table := if overriding then OVERRIDING else [], TableLexemes(e, item.schema, item.table);
    SeparatorsSeparate();
    WordsSeparate(e);
    forall i | 0 <= i < |rows| ensures Apart(RowParts(e, rows)[i], false) {
      RowApart(e, rows[i]);
    }
    JoinApart(RowParts(e, rows), COMMA_LINE);
    forall i | 0 <= i < |names| ensures Apart(NameParts(e, names)[i], false) {
      OneNameApart(Name(e, names[i]));
    }
    JoinApart(NameParts(e, names), COMMA);
    LeadApart(ValuesLine(e), lines, false);
    ModeApart(mode, ValuesLine(e) + lines);
    var tail := mode + (ValuesLine(e) + lines);
    var after := EndsInName(table, false);
    ParensApart(columns, after);
    ApartConcat(Parens(columns), tail, after);
    GapKeeps(Parens(columns) + tail, after);
    TableApart(e, item.schema, item.table);
    ApartConcat(table, [R.Gap(" ")] + (Parens(columns) + tail), false);
    LeadApart(INSERT_INTO, table + ([R.Gap(" ")] + (Parens(columns) + tail)), false);
  }

  lemma OneNameApart(x: R.Lexeme)
    ensures Apart([x], false)
  {
    assert [x][1..] == [];
  }

  lemma GapKeeps(xs: seq<R.Lexeme>, prev: bool)
    requires Apart(xs, prev)
    ensures Apart([R.Gap(" ")] + xs, prev)
  {
    assert ([R.Gap(" ")] + xs)[1..] == xs;
  }

  lemma ModeApart(mode: seq<R.Lexeme>, xs: seq<R.Lexeme>)
    requires mode == [] || (mode == OVERRIDING && Separator(mode))
    requires Apart(xs, false)
    ensures Apart(mode + xs, false)
  {
    hide Apart, Separator;
    if mode == [] {
      assert mode + xs == xs;
    } else {
      LeadApart(mode, xs, false);
    }
  }

  lemma UpdateApart(e: Engine, item: Item, a: seq<Assignment>, c: seq<Condition>)
    requires forall i :: 0 <= i < |a| ==> EncodedCell(a[i].cell)
    requires forall i :: 0 <= i < |c| ==> EncodedCondition(c[i])
    ensures Apart(StatementLexemes(e, item, UpdateRow(a, c)), false)
  {
    hide Apart, EndsInName, NoNames, Separator, JoinLexemes, AssignmentParts, ConditionParts, AssignmentLexemes, ConditionLexemes, TableLexemes,
         EncodedCell, EncodedCondition, Keyword;
    var table, list, scope := TableLexemes(e, item.schema, item.table), JoinLexemes(AssignmentParts(e, a), COMMA), Scope(e, c);
    SeparatorsSeparate();
    WordsSeparate(e);
    forall i | 0 <= i < |a| ensures Apart(AssignmentParts(e, a)[i], false) {
      AssignmentApart(e, a[i]);
    }
    JoinApart(AssignmentParts(e, a), COMMA);
    forall i | 0 <= i < |c| ensures Apart(ConditionParts(e, c)[i], false) {
      ConditionApart(e, c[i]);
    }
    JoinApart(ConditionParts(e, c), Keyword("AND"));
    TableApart(e, item.schema, item.table);
    LeadApart(Keyword("SET"), list, EndsInName(table, false));
    ApartConcat(table, Keyword("SET") + list, false);
    LeadApart(UPDATE_WORD, table + (Keyword("SET") + list), false);
    LeadApart(Keyword("WHERE"), scope, EndsInName(Written(e, item, a), false));
    ApartConcat(Written(e, item, a), Keyword("WHERE") + scope, false);
  }

  lemma StatementApart(e: Engine, item: Item, s: Statement)
    requires EncodedStatement(s)
    ensures Apart(StatementLexemes(e, item, s), false)
  {
    hide Apart, StatementLexemes, EncodedCell, EncodedCondition, EncodedStatement;
    EncodedParts(s);
    match s
    case InsertRows(names, overriding, rows) => InsertApart(e, item, names, overriding, rows);
    case UpdateRow(a, c) => UpdateApart(e, item, a, c);
  }

  // ------------------------------------------------------------------
  // Quiet words.

  predicate Quiet(x: R.Lexeme) {
    x.Word? ==> QuietWord(ToLower(x.word))
  }

  ghost predicate AllQuiet(xs: seq<R.Lexeme>) {
    forall i :: 0 <= i < |xs| ==> Quiet(xs[i])
  }

  lemma TameIsQuiet(xs: seq<R.Lexeme>)
    requires AllTame(xs)
    ensures AllQuiet(xs)
  {
    hide ToLower, CalmWord, QuietWord, Reserved;
  }

  lemma {:induction false} JoinIsQuiet(parts: seq<seq<R.Lexeme>>, separator: seq<R.Lexeme>)
    requires AllQuiet(separator) && forall i :: 0 <= i < |parts| ==> AllQuiet(parts[i])
    ensures AllQuiet(JoinLexemes(parts, separator))
    decreases |parts|
  {
    hide Quiet;
    if |parts| > 1 {
      JoinIsQuiet(parts[1..], separator);
    }
  }

  lemma FixedAreQuiet(e: Engine)
    ensures AllQuiet(COMMA) && AllQuiet(COMMA_LINE) && AllQuiet(EQUALS) && AllQuiet(Keyword("SET")) && AllQuiet(Keyword("AND")) && AllQuiet(Keyword("WHERE"))
    ensures AllQuiet(INSERT_INTO) && AllQuiet(UPDATE_WORD) && AllQuiet(OVERRIDING) && AllQuiet(ValuesLine(e))
  {
    hide ToLower, QuietWord, AllQuiet, Keyword;
    QuietWords();
    MarksAlone();
    KeywordIsQuiet("SET");
    KeywordIsQuiet("AND");
    KeywordIsQuiet("WHERE");
    HeadsAreQuiet();
    ModeIsQuiet();
    ValuesAreQuiet(e);
  }

  lemma QuietWords()
    ensures QuietWord(ToLower("SET")) && QuietWord(ToLower("AND")) && QuietWord(ToLower("WHERE")) && QuietWord(ToLower("UPDATE"))
    ensures QuietWord(ToLower("INSERT")) && QuietWord(ToLower("INTO")) && QuietWord(ToLower("VALUES"))
    ensures QuietWord(ToLower("OVERRIDING")) && QuietWord(ToLower("SYSTEM")) && QuietWord(ToLower("VALUE"))
  {
    hide ToLower;
    StatementWords();
    MoreWords();
  }

  lemma MarksAlone()
    ensures AllQuiet(COMMA) && AllQuiet(COMMA_LINE) && AllQuiet(EQUALS)
  {
    hide ToLower, QuietWord;
  }

  lemma KeywordIsQuiet(w: string)
    requires QuietWord(ToLower(w))
    ensures AllQuiet(Keyword(w))
  {
    hide ToLower, QuietWord;
  }

  lemma HeadsAreQuiet()
    requires QuietWord(ToLower("INSERT")) && QuietWord(ToLower("INTO")) && QuietWord(ToLower("UPDATE"))
    ensures AllQuiet(INSERT_INTO) && AllQuiet(UPDATE_WORD)
  {
    hide ToLower, QuietWord;
  }

  lemma ModeIsQuiet()
    requires QuietWord(ToLower("OVERRIDING")) && QuietWord(ToLower("SYSTEM")) && QuietWord(ToLower("VALUE"))
    ensures AllQuiet(OVERRIDING)
  {
    hide ToLower, QuietWord;
  }

  lemma ValuesAreQuiet(e: Engine)
    requires QuietWord(ToLower("VALUES"))
    ensures AllQuiet(ValuesLine(e))
  {
    hide ToLower, QuietWord;
  }

  lemma MoreWords()
    ensures QuietWord(ToLower("VALUES")) && QuietWord(ToLower("OVERRIDING")) && QuietWord(ToLower("SYSTEM")) && QuietWord(ToLower("VALUE"))
  {
    assert ToLower("VALUES")[0] == 'v';
    assert ToLower("OVERRIDING")[0] == 'o';
    assert ToLower("SYSTEM")[0] == 's';
    assert ToLower("VALUE")[0] == 'v';
  }

  lemma CellIsQuiet(e: Engine, c: Cell)
    requires EncodedCell(c)
    ensures AllQuiet(CellLexemes(e, c))
  {
    hide CellLexemes, EncodedCell, AllTame, AllQuiet;
    CellIsTame(e, c);
    TameIsQuiet(CellLexemes(e, c));
  }

  lemma RowIsQuiet(e: Engine, row: seq<Cell>)
    requires forall j :: 0 <= j < |row| ==> EncodedCell(row[j])
    ensures AllQuiet(RowLexemes(e, row))
  {
    hide CellLexemes, EncodedCell, JoinLexemes, CellParts, ToLower;
    forall j | 0 <= j < |row| ensures AllQuiet(CellParts(e, row)[j]) {
      CellIsQuiet(e, row[j]);
    }
    FixedAreQuiet(e);
    JoinIsQuiet(CellParts(e, row), COMMA);
  }

  lemma InsertIsQuiet(e: Engine, item: Item, names: seq<string>, overriding: bool, rows: seq<seq<Cell>>)
    requires forall i, j :: 0 <= i < |rows| && 0 <= j < |rows[i]| ==> EncodedCell(rows[i][j])
    ensures AllQuiet(StatementLexemes(e, item, InsertRows(names, overriding, rows)))
  {
    hide EncodedCell, JoinLexemes, RowParts, NameParts, RowLexemes, TableLexemes, Quiet;
    forall i | 0 <= i < |rows| ensures AllQuiet(RowParts(e, rows)[i]) {
      RowIsQuiet(e, rows[i]);
    }
    FixedAreQuiet(e);
    JoinIsQuiet(RowParts(e, rows), COMMA_LINE);
    forall i | 0 <= i < |names| ensures AllQuiet(NameParts(e, names)[i]) {
      NameIsQuiet(Name(e, names[i]));
    }
    JoinIsQuiet(NameParts(e, names), COMMA);
    TableIsQuiet(e, item.schema, item.table);
    MarksAreQuiet();
  }

  lemma NameIsQuiet(x: R.Lexeme)
    requires x.Quoted?
    ensures AllQuiet([x])
  {
  }

  lemma TableIsQuiet(e: Engine, schema: string, table: string)
    ensures AllQuiet(TableLexemes(e, schema, table))
  {
  }

  lemma MarksAreQuiet()
    ensures Quiet(R.Mark('(')) && Quiet(R.Mark(')')) && Quiet(R.Gap(" "))
  {
  }

  lemma UpdateIsQuiet(e: Engine, item: Item, a: seq<Assignment>, c: seq<Condition>)
    requires forall i :: 0 <= i < |a| ==> EncodedCell(a[i].cell)
    requires forall i :: 0 <= i < |c| ==> EncodedCondition(c[i])
    ensures AllQuiet(StatementLexemes(e, item, UpdateRow(a, c)))
  {
    hide EncodedCell, EncodedCondition, JoinLexemes, AssignmentParts, ConditionParts, AssignmentLexemes, ConditionLexemes, TableLexemes, Quiet, Keyword;
    FixedAreQuiet(e);
    forall i | 0 <= i < |a| ensures AllQuiet(AssignmentParts(e, a)[i]) {
      AssignmentIsQuiet(e, a[i]);
    }
    JoinIsQuiet(AssignmentParts(e, a), COMMA);
    forall i | 0 <= i < |c| ensures AllQuiet(ConditionParts(e, c)[i]) {
      ConditionIsTame(e, c[i]);
      TameIsQuiet(ConditionLexemes(e, c[i]));
    }
    JoinIsQuiet(ConditionParts(e, c), Keyword("AND"));
    TableIsQuiet(e, item.schema, item.table);
  }

  lemma AssignmentIsQuiet(e: Engine, a: Assignment)
    requires EncodedCell(a.cell)
    ensures AllQuiet(AssignmentLexemes(e, a))
  {
    hide EncodedCell, CellLexemes, ToLower;
    FixedAreQuiet(e);
    CellIsQuiet(e, a.cell);
  }

  lemma StatementIsQuiet(e: Engine, item: Item, s: Statement)
    requires EncodedStatement(s)
    ensures AllQuiet(StatementLexemes(e, item, s))
  {
    hide AllQuiet, StatementLexemes, EncodedCell, EncodedCondition, EncodedStatement;
    EncodedParts(s);
    match s
    case InsertRows(names, overriding, rows) => InsertIsQuiet(e, item, names, overriding, rows);
    case UpdateRow(a, c) => UpdateIsQuiet(e, item, a, c);
  }

  // ------------------------------------------------------------------
  // Tokens that hold no APPLY BATCH.

  predicate QuietToken(t: Token) {
    !t.quoted ==> QuietWord(t.lower)
  }

  /** No APPLY BATCH among these, nor across their start when `prev` says a name stood before. */
  ghost predicate Unapplied(ts: seq<Token>, prev: bool) {
    && (forall i :: 0 <= i < |ts| ==> QuietToken(ts[i]))
    && (forall i :: 0 <= i < |ts| - 1 ==> !(ts[i].quoted && ts[i + 1].quoted))
    && (prev && ts != [] ==> !ts[0].quoted)
  }

  lemma QuietLexeme(d: Dialect, x: R.Lexeme, at: nat, depth: nat)
    requires R.Formed(d, x) && !x.Gap? && Quiet(x)
    ensures QuietToken(R.TokenOf(x, at, depth)) && (R.TokenOf(x, at, depth).quoted <==> x.Quoted?)
  {
    hide BareName, ToLower;
  }

  lemma {:induction false} ApartTokens(d: Dialect, xs: seq<R.Lexeme>, at: nat, depth: nat, prev: bool)
    requires AllFormed(d, xs) && R.Balanced(xs, depth) && AllQuiet(xs) && Apart(xs, prev)
    ensures Unapplied(R.TokensOf(xs, at, depth), prev)
    decreases |xs|
  {
    hide R.Spell, R.Formed, R.TokenOf, Quiet, QuietToken;
    if xs != [] {
      var x := xs[0];
      ApartTokens(d, xs[1..], at + |R.Spell(x)|, R.Advance(x, depth), if x.Gap? then prev else x.Quoted?);
      var rest := R.TokensOf(xs[1..], at + |R.Spell(x)|, R.Advance(x, depth));
      if x.Gap? {
        assert [] + rest == rest;
      } else {
        QuietLexeme(d, x, at, R.Outside(x, depth));
      }
    }
  }
}
