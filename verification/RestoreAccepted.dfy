/** The guard's verdict on every statement of a restore plan. */
module RestoreAccepted {
  import opened Prelude
  import opened Bytes
  import opened Lexer
  import opened Splitter
  import opened Resplit
  import opened Folder
  import opened Classifier
  import opened Policy
  import R = Render
  import opened RowBackup
  import opened RestoreText
  import opened ReadBack
  import opened RestoreData
  import opened RestoreVerdict

  // ------------------------------------------------------------------
  // INSERT INTO ...

  ghost predicate ReadsAsInsert(ts: seq<Token>) {
    && |ts| >= 3 && ts[0].Keyword("insert") && ts[1].lower == "into" && OpensWithQuote(ts[2].text)
    && NoSemicolon(ts)
  }

  ghost predicate NoMark(xs: seq<R.Lexeme>) {
    forall i :: 0 <= i < |xs| ==> xs[i] != R.Mark(';')
  }

  lemma SemicolonFree(d: Dialect, x: R.Lexeme, at: nat, depth: nat)
    requires R.Formed(d, x) && !x.Gap? && x != R.Mark(';')
    ensures R.TokenOf(x, at, depth).text != ";"
  {
    hide ToLower, BareName, R.Double, R.LiteralBody;
    match x
    case Word(w) => assert R.WordByte(w[0]);
    case Quoted(_, _) => assert |R.Spell(x)| >= 2;
    case Literal(_, _) => assert |R.Spell(x)| >= 2;
    case Mark(c) => assert R.Spell(x)[0] == c;
  }

  lemma {:induction false} TokensSemicolonFree(d: Dialect, xs: seq<R.Lexeme>, at: nat, depth: nat)
    requires AllFormed(d, xs) && R.Balanced(xs, depth) && NoMark(xs)
    ensures forall k :: 0 <= k < |R.TokensOf(xs, at, depth)| ==> R.TokensOf(xs, at, depth)[k].text != ";"
    decreases |xs|
  {
    hide R.Spell, R.Formed, R.TokenOf;
    if xs != [] {
      TokensSemicolonFree(d, xs[1..], at + |R.Spell(xs[0])|, R.Advance(xs[0], depth));
      if !xs[0].Gap? {
        SemicolonFree(d, xs[0], at, R.Outside(xs[0], depth));
      }
    }
  }

  lemma CalmHasNoMark(xs: seq<R.Lexeme>)
    requires AllCalm(xs)
    ensures NoMark(xs)
  {
    hide ToLower, CalmWord;
  }

  lemma {:induction false} JoinHasNoMark(parts: seq<seq<R.Lexeme>>, separator: seq<R.Lexeme>)
    requires NoMark(separator) && forall i :: 0 <= i < |parts| ==> NoMark(parts[i])
    ensures NoMark(JoinLexemes(parts, separator))
    decreases |parts|
  {
    if |parts| > 1 {
      JoinHasNoMark(parts[1..], separator);
    }
  }

  lemma RowHasNoMark(e: Engine, row: seq<Cell>)
    requires forall j :: 0 <= j < |row| ==> EncodedCell(row[j])
    ensures NoMark(RowLexemes(e, row))
  {
    hide JoinLexemes, CellParts, CellLexemes, EncodedCell, AllCalm, AllTame;
    forall j | 0 <= j < |row| ensures NoMark(CellParts(e, row)[j]) {
      CellIsTame(e, row[j]);
      TameIsCalm(CellLexemes(e, row[j]));
      CalmHasNoMark(CellLexemes(e, row[j]));
    }
    JoinHasNoMark(CellParts(e, row), COMMA);
  }

  lemma NoMarkConcat(a: seq<R.Lexeme>, b: seq<R.Lexeme>)
    requires NoMark(a) && NoMark(b)
    ensures NoMark(a + b)
  {
  }

  lemma NameHasNoMark(e: Engine, name: string)
    ensures NoMark([Name(e, name)])
  {
  }

  lemma WordsHaveNoMark(e: Engine, inside: seq<R.Lexeme>)
    requires NoMark(inside)
    ensures NoMark(INSERT_INTO) && NoMark(OVERRIDING) && NoMark([]) && NoMark(ValuesLine(e)) && NoMark([R.Gap(" ")]) && NoMark(Parens(inside))
  {
  }

  lemma InsertHasNoMark(e: Engine, item: Item, names: seq<string>, overriding: bool, rows: seq<seq<Cell>>)
    requires forall i, j :: 0 <= i < |rows| && 0 <= j < |rows[i]| ==> EncodedCell(rows[i][j])
    ensures NoMark(StatementLexemes(e, item, InsertRows(names, overriding, rows)))
  {
    hide JoinLexemes, RowParts, NameParts, RowLexemes, EncodedCell, TableLexemes, NoMark, ValuesLine, Parens;
    forall i | 0 <= i < |rows| ensures NoMark(RowParts(e, rows)[i]) {
      RowHasNoMark(e, rows[i]);
    }
    JoinHasNoMark(RowParts(e, rows), COMMA_LINE);
    forall i | 0 <= i < |names| ensures NoMark(NameParts(e, names)[i]) {
      NameHasNoMark(e, names[i]);
    }
    JoinHasNoMark(NameParts(e, names), COMMA);
    TableHasNoMark(e, item.schema, item.table);
    var rowsLine, namesLine := JoinLexemes(RowParts(e, rows), COMMA_LINE), JoinLexemes(NameParts(e, names), COMMA);
    var mode := if overriding then OVERRIDING else [];
    WordsHaveNoMark(e, namesLine);
    NoMarkConcat(ValuesLine(e), rowsLine);
    NoMarkConcat(mode, ValuesLine(e) + rowsLine);
    NoMarkConcat(Parens(namesLine), mode + (ValuesLine(e) + rowsLine));
    NoMarkConcat([R.Gap(" ")], Parens(namesLine) + (mode + (ValuesLine(e) + rowsLine)));
    NoMarkConcat(TableLexemes(e, item.schema, item.table), [R.Gap(" ")] + (Parens(namesLine) + (mode + (ValuesLine(e) + rowsLine))));
    NoMarkConcat(INSERT_INTO, TableLexemes(e, item.schema, item.table) + ([R.Gap(" ")] + (Parens(namesLine) + (mode + (ValuesLine(e) + rowsLine)))));
  }

  lemma TableHasNoMark(e: Engine, schema: string, table: string)
    ensures NoMark(TableLexemes(e, schema, table))
  {
  }

  lemma InsertTokens(d: Dialect, e: Engine, item: Item, names: seq<string>, overriding: bool, rows: seq<seq<Cell>>)
    requires Reads(d, e) && EncodedStatement(InsertRows(names, overriding, rows))
    ensures R.Balanced(StatementLexemes(e, item, InsertRows(names, overriding, rows)), 0)
    ensures ReadsAsInsert(IntendedTokens(e, item, InsertRows(names, overriding, rows)))
  {
    hide R.TokensOf, R.Balanced, R.Readable, NoMark, AllFormed, EncodedStatement, EncodedCell, OpensWithQuote, Lex, StatementLexemes;
    var s := InsertRows(names, overriding, rows);
    var xs := StatementLexemes(e, item, s);
    EncodedParts(s);
    StatementLexes(d, e, item, s);
    ReadableIsFormed(d, xs);
    InsertHasNoMark(e, item, names, overriding, rows);
    TokensSemicolonFree(d, xs, 0, 0);
    var tail := InsertTail(e, item, names, overriding, rows);
    InsertStarts(e, item, tail);
  }

  /** The statement after its table's name. */
  lemma InsertTail(e: Engine, item: Item, names: seq<string>, overriding: bool, rows: seq<seq<Cell>>) returns (tail: seq<R.Lexeme>)
    ensures StatementLexemes(e, item, InsertRows(names, overriding, rows))
         == [R.Word("INSERT")] + ([R.Gap(" ")] + ([R.Word("INTO")] + ([R.Gap(" ")] + (TableLexemes(e, item.schema, item.table) + tail))))
  {
    hide JoinLexemes, NameParts, RowParts, TableLexemes, Parens;
    tail := [R.Gap(" ")] + (Parens(JoinLexemes(NameParts(e, names), COMMA))
            + ((if overriding then OVERRIDING else []) + (ValuesLine(e) + JoinLexemes(RowParts(e, rows), COMMA_LINE))));
    var more := TableLexemes(e, item.schema, item.table) + tail;
    assert INSERT_INTO + more == [R.Word("INSERT")] + ([R.Gap(" ")] + ([R.Word("INTO")] + ([R.Gap(" ")] + more)));
  }

  lemma InsertStarts(e: Engine, item: Item, tail: seq<R.Lexeme>)
    requires var more := [R.Gap(" ")] + (TableLexemes(e, item.schema, item.table) + tail);
             R.Balanced([R.Word("INSERT")] + ([R.Gap(" ")] + ([R.Word("INTO")] + more)), 0)
    ensures var more := [R.Gap(" ")] + (TableLexemes(e, item.schema, item.table) + tail);
            var ts := R.TokensOf([R.Word("INSERT")] + ([R.Gap(" ")] + ([R.Word("INTO")] + more)), 0, 0);
            |ts| >= 3 && ts[0].Keyword("insert") && ts[1].lower == "into" && OpensWithQuote(ts[2].text)
  {
    hide R.TokensOf, R.Balanced, TableLexemes, OpensWithQuote, ToLower;
    var more := [R.Gap(" ")] + (TableLexemes(e, item.schema, item.table) + tail);
    var into := [R.Word("INTO")] + more;
    RestBalanced(R.Word("INSERT"), [R.Gap(" ")] + into);
    RestBalanced(R.Gap(" "), into);
    RestBalanced(R.Word("INTO"), more);
    TokensTake(R.Word("INSERT"), [R.Gap(" ")] + into, 0);
    TokensSkip(R.Gap(" "), into, |R.Spell(R.Word("INSERT"))|);
    var at := |R.Spell(R.Word("INSERT"))| + |R.Spell(R.Gap(" "))|;
    TokensTake(R.Word("INTO"), more, at);
    TableStarts(e, item, tail, at + |R.Spell(R.Word("INTO"))|);
    StatementWords();
  }

  // ------------------------------------------------------------------
  // One statement.

  predicate PlainEnd(c: char) {
    c < '\U{80}' && !AsciiSpace(c)
  }

  lemma TrimsToItself(s: string)
    requires s != "" && PlainEnd(s[0]) && PlainEnd(s[|s| - 1])
    ensures TrimSpace(s) == s
  {
    assert SpaceRuneAt(s, 0) == 0;
    assert SpaceRuneBefore(s, |s|) == 0;
  }

  lemma PlainLexeme(d: Dialect, x: R.Lexeme)
    requires R.Formed(d, x) && !x.Gap?
    ensures R.Spell(x) != "" && PlainEnd(R.Spell(x)[|R.Spell(x)| - 1]) && PlainEnd(R.Spell(x)[0])
  {
    hide R.LiteralBody, R.Double;
    match x
    case Word(w) => assert R.WordByte(w[|w| - 1]) || w[|w| - 1] == '$';
    case Quoted(_, _) =>
    case Literal(_, _) =>
    case Mark(_) =>
  }

  lemma TextTrimsToItself(d: Dialect, xs: seq<R.Lexeme>)
    requires AllFormed(d, xs) && xs != [] && !xs[0].Gap? && !xs[|xs| - 1].Gap?
    ensures TrimSpace(R.SpellAll(xs)) == R.SpellAll(xs) != ""
  {
    hide R.Spell, R.Formed, PlainEnd, TrimSpace;
    var last := |xs| - 1;
    PlainLexeme(d, xs[0]);
    PlainLexeme(d, xs[last]);
    var s := R.SpellAll(xs);
    assert s[0] == R.Spell(xs[0])[0];
    assert xs[..last] + [xs[last]] == xs;
    R.SpellConcat(xs[..last], [xs[last]]);
    SpellOne(xs[last]);
    assert s[|s| - 1] == R.Spell(xs[last])[|R.Spell(xs[last])| - 1];
    TrimsToItself(s);
  }

  /** Neither end of an undo statement is white space. */
  lemma StatementEnds(d: Dialect, e: Engine, item: Item, s: Statement)
    requires EncodedStatement(s)
    ensures var xs := StatementLexemes(e, item, s); xs != [] && !xs[0].Gap? && (EndsInGap(xs) ==> s.InsertRows? && s.rows == [])
  {
    hide EncodedStatement, EncodedCell, EncodedCondition, TableLexemes, Parens, Keyword;
    EncodedParts(s);
    match s
    case InsertRows(names, overriding, rows) =>
      if rows != [] {
        RowsEnd(e, rows);
        EndOfSum(ValuesLine(e), JoinLexemes(RowParts(e, rows), COMMA_LINE));
      }
    case UpdateRow(a, c) =>
      ScopeEnds(e, c);
      EndOfSum(Keyword("WHERE"), Scope(e, c));
  }

  predicate EndsInGap(xs: seq<R.Lexeme>) {
    xs != [] && xs[|xs| - 1].Gap?
  }

  lemma EndOfSum(a: seq<R.Lexeme>, b: seq<R.Lexeme>)
    requires b != []
    ensures a + b != [] && (EndsInGap(a + b) <==> EndsInGap(b))
  {
  }

  lemma {:induction false} JoinEnds(parts: seq<seq<R.Lexeme>>, separator: seq<R.Lexeme>)
    requires parts != [] && forall i :: 0 <= i < |parts| ==> parts[i] != [] && !EndsInGap(parts[i])
    ensures JoinLexemes(parts, separator) != [] && !EndsInGap(JoinLexemes(parts, separator))
    decreases |parts|
  {
    if |parts| > 1 {
      JoinEnds(parts[1..], separator);
    }
  }

  lemma RowsEnd(e: Engine, rows: seq<seq<Cell>>)
    requires rows != []
    ensures var xs := JoinLexemes(RowParts(e, rows), COMMA_LINE); xs != [] && !EndsInGap(xs)
  {
    hide JoinLexemes, CellParts;
    JoinEnds(RowParts(e, rows), COMMA_LINE);
  }

  lemma {:induction false} NumberHasNoGap(s: string)
    ensures forall i :: 0 <= i < |NumberLexemes(s)| ==> !NumberLexemes(s)[i].Gap?
    decreases |s|
  {
    if s == "" {
    } else if R.WordByte(s[0]) {
      NumberHasNoGap(s[WordEnd(s, 1)..]);
    } else {
      NumberHasNoGap(s[1..]);
    }
  }

  lemma CellEnds(e: Engine, c: Cell)
    requires EncodedCell(c)
    ensures CellLexemes(e, c) != [] && !EndsInGap(CellLexemes(e, c))
  {
    CellStarts(e, c);
    if c.Stored? {
      NumberHasNoGap(c.value.text);
    }
  }

  lemma ScopeEnds(e: Engine, c: seq<Condition>)
    requires c != [] && forall i :: 0 <= i < |c| ==> EncodedCondition(c[i])
    ensures Scope(e, c) != [] && !EndsInGap(Scope(e, c))
  {
    hide JoinLexemes, CellLexemes, EncodedCell;
    forall i | 0 <= i < |c| ensures ConditionLexemes(e, c[i]) != [] && !EndsInGap(ConditionLexemes(e, c[i])) {
      if c[i].Equals? {
        CellEnds(e, c[i].cell);
      }
    }
    JoinEnds(ConditionParts(e, c), Keyword("AND"));
  }

  /** A statement the plan can hold: an INSERT names at least one row. */
  ghost predicate Planned(s: Statement) {
    EncodedStatement(s) && (s.InsertRows? ==> s.rows != [])
  }

  lemma StatementTrims(d: Dialect, e: Engine, item: Item, s: Statement)
    requires Reads(d, e) && Planned(s)
    ensures TrimSpace(StatementText(e, item, s)) == StatementText(e, item, s) != ""
  {
    hide StatementLexemes, StatementText, EncodedStatement, R.Readable, R.Balanced, Lex, AllFormed, TrimSpace;
    StatementLexes(d, e, item, s);
    StatementEnds(d, e, item, s);
    ReadableIsFormed(d, StatementLexemes(e, item, s));
    TextTrimsToItself(d, StatementLexemes(e, item, s));
    LexemesSpellStatement(e, item, s);
  }

  lemma NotARoutine(ts: seq<Token>)
    requires ts != [] && ts[0].lower != "create" && NoSemicolon(ts)
    ensures EndFrom(ts, 0) == |ts|
  {
    hide Semicolon;
    assert ts[0..] == ts;
    PlainStatementEnd(ts, 0);
  }

  ghost predicate ReadsAs(number: Numbers, s: Statement, ts: seq<Token>) {
    match s
    case InsertRows(_, _, _) => ReadsAsInsert(ts)
    case UpdateRow(_, _) => ReadsAsUpdate(number, ts)
  }

  lemma StatementTokens(number: Numbers, d: Dialect, e: Engine, item: Item, s: Statement)
    requires ReadsNumbers(number) && Reads(d, e) && Planned(s)
    ensures Lex(d, StatementText(e, item, s)).Ok?
    ensures ReadsAs(number, s, Lex(d, StatementText(e, item, s)).value)
  {
    hide StatementLexemes, StatementText, EncodedStatement, R.Readable, R.Balanced, Lex, ReadsAsInsert, ReadsAsUpdate, R.TokensOf, ReadsNumbers;
    StatementLexes(d, e, item, s);
    match s
    case InsertRows(names, overriding, rows) => InsertTokens(d, e, item, names, overriding, rows);
    case UpdateRow(a, c) => UpdateTokens(number, d, e, item, a, c);
  }

  /** The splitter leaves an undo statement whole. */
  lemma StatementIsOne(number: Numbers, d: Dialect, e: Engine, item: Item, s: Statement)
    requires ReadsNumbers(number) && Reads(d, e) && Planned(s)
    ensures Split(d, StatementText(e, item, s)) == Ok([StatementText(e, item, s)])
  {
    hide StatementText, Planned, Lex, Split, TrimSpace, NoSemicolon, ReadsNumbers, WritesHaveEffectiveWhere, OpensWithQuote, EndFrom;
    var text := StatementText(e, item, s);
    StatementTokens(number, d, e, item, s);
    StatementTrims(d, e, item, s);
    var ts := Lex(d, text).value;
    NotARoutine(ts);
    SplitWhole(d, text, ts);
  }

  // ------------------------------------------------------------------
  // The classifier and the policy.

  lemma NotAVariable(text: string)
    requires OpensWithQuote(text)
    ensures !HasPrefix(text, "@")
  {
  }

  lemma UpdateKind(number: Numbers, d: Dialect, raw: string, ts: seq<Token>)
    requires ReadsAsUpdate(number, ts)
    ensures var info := ClassifyTokens(number, d, raw, ts);
            && info.kind == Update && info.command == Update && info.hasWhere
            && !info.isScript && info.unscoped == [] && !info.isDrop && !info.isTruncate
  {
    hide WritesHaveEffectiveWhere, ExtractTables, TouchesSession, ControlsTransaction, ReadVerb, BlockVerb, SessionVerb, AdminVerb, HasPrefix, NoSemicolon;
    UpdateVerb();
    NotAVariable(ts[1].text);
    assert TargetWord(ts, Update, 0) == 0;
  }

  lemma UpdateVerb()
    ensures !ReadVerb("update") && !BlockVerb("update") && !ReadVerb("insert") && !BlockVerb("insert")
  {
  }

  lemma InsertKind(number: Numbers, d: Dialect, raw: string, ts: seq<Token>)
    requires ReadsAsInsert(ts)
    ensures var info := ClassifyTokens(number, d, raw, ts);
            && info.kind == Insert && info.command == Insert
            && !info.isScript && info.unscoped == [] && !info.isDrop && !info.isTruncate
  {
    hide HasEffectiveWhere, ExtractTables, TouchesSession, ControlsTransaction, ReadVerb, BlockVerb, SessionVerb, AdminVerb, HasPrefix, NoSemicolon;
    UpdateVerb();
    NotAVariable(ts[2].text);
    assert TargetWord(ts, Insert, 1) == 1;
    assert TargetWord(ts, Insert, 0) == 1;
  }

  function MeantKind(s: Statement): Kind {
    if s.InsertRows? then Insert else Update
  }

  lemma ClassifyLexed(number: Numbers, d: Dialect, text: string, ts: seq<Token>)
    requires TrimSpace(text) == text && Lex(d, text) == Ok(ts) && ts != []
    ensures Classify(number, d, text) == ClassifyTokens(number, d, text, ts)
  {
    hide Lex, TrimSpace, ClassifyTokens;
  }

  /** Main result: an undo statement is one statement of the kind it was planned as, an UPDATE has an effective WHERE, and
      the guardrail refuses it under no setting but a read-only role without clearance. */
  lemma UndoStatementIsAccepted(number: Numbers, d: Dialect, e: Engine, item: Item, s: Statement, settings: Settings)
    requires ReadsNumbers(number) && Reads(d, e) && Planned(s)
    ensures Split(d, StatementText(e, item, s)) == Ok([StatementText(e, item, s)])
    ensures var info := Classify(number, d, StatementText(e, item, s));
            && info.kind == MeantKind(s)
            && (info.kind == Update ==> info.hasWhere)
            && (Denied(settings, info) <==> settings.readOnly && !settings.cleared)
  {
    hide StatementText, Planned, Lex, Split, TrimSpace, NoSemicolon, ReadsNumbers, WritesHaveEffectiveWhere, OpensWithQuote, Classify, ClassifyTokens;
    var text := StatementText(e, item, s);
    StatementIsOne(number, d, e, item, s);
    StatementTokens(number, d, e, item, s);
    StatementTrims(d, e, item, s);
    var ts := Lex(d, text).value;
    ClassifyLexed(number, d, text, ts);
    if s.InsertRows? {
      InsertKind(number, d, text, ts);
    } else {
      UpdateKind(number, d, text, ts);
    }
  }

  // ------------------------------------------------------------------
  // Every statement of a plan.

  ghost predicate EncodedRows(p: Payload) {
    forall i, j :: 0 <= i < |p.rows| && 0 <= j < |p.rows[i]| ==> Encoded(p.rows[i][j])
  }

  ghost predicate EncodedRow(row: seq<BackupValue>) {
    forall j :: 0 <= j < |row| ==> Encoded(row[j])
  }

  lemma {:induction false} CellsEncoded(e: Engine, p: Payload, row: seq<BackupValue>, positions: seq<nat>)
    requires EncodedRow(row)
    ensures forall j :: 0 <= j < |positions| ==> EncodedCell(Cells(e, p, row, positions)[j])
    ensures forall j :: 0 <= j < |Assignments(e, p, row, positions)| ==> EncodedCell(Assignments(e, p, row, positions)[j].cell)
    ensures forall j :: 0 <= j < |Conditions(e, p, row, positions)| ==> EncodedCondition(Conditions(e, p, row, positions)[j])
    decreases |positions|
  {
    hide Named, Encoded;
    if positions != [] {
      CellsEncoded(e, p, row, positions[1..]);
    }
  }

  lemma {:induction false} RowCellsEncoded(e: Engine, p: Payload, rows: seq<seq<BackupValue>>)
    requires forall i :: 0 <= i < |rows| ==> EncodedRow(rows[i])
    ensures forall i, j :: 0 <= i < |rows| && 0 <= j < |RowCells(e, p, rows)[i]| ==> EncodedCell(RowCells(e, p, rows)[i][j])
    decreases |rows|
  {
    hide EncodedRow, Writable, Cells, EncodedCell;
    if rows != [] {
      CellsEncoded(e, p, rows[0], Writable(p, 0));
      RowCellsEncoded(e, p, rows[1..]);
    }
  }

  lemma {:induction false} InsertsPlanned(e: Engine, p: Payload, overriding: bool, start: nat)
    requires forall i :: 0 <= i < |p.rows| ==> EncodedRow(p.rows[i])
    ensures forall s :: s in Inserts(e, p, overriding, start) ==> Planned(s)
    decreases |p.rows| - start
  {
    hide EncodedRow, Writable, RowCells, NamesAt, EncodedCell;
    if start < |p.rows| {
      InsertsPlanned(e, p, overriding, start + ROWS_PER_INSERT);
      var rows := p.rows[start..ChunkEnd(p, start)];
      forall i | 0 <= i < |rows| ensures EncodedRow(rows[i]) {
        assert rows[i] == p.rows[start + i];
      }
      RowCellsEncoded(e, p, rows);
      assert |rows| > 0;
    }
  }

  lemma RowUpdatePlanned(e: Engine, p: Payload, row: seq<BackupValue>)
    requires EncodedRow(row)
    ensures forall s :: s in RowUpdate(e, p, row) ==> Planned(s)
  {
    hide EncodedRow, Writable, Assignments, Conditions, EncodedCell, EncodedCondition;
    CellsEncoded(e, p, row, Writable(p, 0));
  }

  lemma {:induction false} UpdatesPlanned(e: Engine, p: Payload, rows: seq<seq<BackupValue>>)
    requires forall i :: 0 <= i < |rows| ==> EncodedRow(rows[i])
    ensures forall s :: s in Updates(e, p, rows) ==> Planned(s)
    decreases |rows|
  {
    hide EncodedRow, RowUpdate, Planned;
    if rows != [] {
      UpdatesPlanned(e, p, rows[..|rows| - 1]);
      RowUpdatePlanned(e, p, rows[|rows| - 1]);
    }
  }

  /** Whatever rows were backed up, the restore's own policy check passes every statement unless the role may not write. */
  lemma EveryPlannedStatementIsAccepted(number: Numbers, d: Dialect, e: Engine, item: Item, p: Payload, i: nat, settings: Settings)
    requires ReadsNumbers(number) && Reads(d, e) && EncodedRows(p) && i < |PlanOf(e, item, p).statements|
    ensures var text := StatementText(e, item, PlanOf(e, item, p).statements[i]);
            && Split(d, text) == Ok([text])
            && (Denied(settings, Classify(number, d, text)) <==> settings.readOnly && !settings.cleared)
  {
    hide StatementText, Planned, Split, Classify, ReadsNumbers, Denied, Encoded, Inserts, Updates, ProbesOf, UsesIdentity, Writable;
    forall i | 0 <= i < |p.rows| ensures EncodedRow(p.rows[i]) {
    }
    InsertsPlanned(e, p, UsesIdentity(p, Writable(p, 0)) && p.identityAlways && e == PostgresEngine, 0);
    UpdatesPlanned(e, p, p.rows);
    UndoStatementIsAccepted(number, d, e, item, PlanOf(e, item, p).statements[i], settings);
  }
}
