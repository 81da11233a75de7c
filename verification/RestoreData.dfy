/** What the lexer finds in an undo statement: the names and the stored texts,
    each as one token, in the order the statement holds them, and nothing more. */
module RestoreData {
  import opened Bytes
  import opened Lexer
  import opened Render
  import opened RowBackup
  import opened RestoreText
  import opened ReadBack

  /** A quoted name or a string literal. */
  predicate Carries(t: Token) {
    t.quoted || (t.text != "" && t.text[0] == '\'')
  }

  function Data(ts: seq<Token>): seq<string> {
    if ts == [] then [] else (if Carries(ts[0]) then [ts[0].text] else []) + Data(ts[1..])
  }

  // ------------------------------------------------------------------
  // What a statement says.

  function TextLiteral(e: Engine, value: string): string {
    "'" + Double(if MySQLFamily(e) then Double(value, '\\') else value, '\'') + "'"
  }

  function ValueData(e: Engine, v: BackupValue): seq<string> {
    if e == Cassandra then
      if v.kind == Time || v.kind == Str then [TextLiteral(e, v.text)] else []
    else SqlData(e, v)
  }

  function SqlData(e: Engine, v: BackupValue): seq<string> {
    match v.kind
    case Null => []
    case Bool => []
    case Num => []
    case Blob =>
      if SQLServerFamily(e) then []
      else if MySQLFamily(e) || e == SQLite || e == DuckDB then ["'" + v.text + "'"]
      else ["'\\x" + v.text + "'"]
    case _ => [TextLiteral(e, v.text)]
  }

  function CellData(e: Engine, c: Cell): seq<string> {
    match c
    case Missing => []
    case Stored(v, _) => ValueData(e, v)
  }

  function CellsData(e: Engine, cs: seq<Cell>): seq<string> {
    if cs == [] then [] else CellData(e, cs[0]) + CellsData(e, cs[1..])
  }

  function RowsData(e: Engine, rows: seq<seq<Cell>>): seq<string> {
    if rows == [] then [] else CellsData(e, rows[0]) + RowsData(e, rows[1..])
  }

  function NamesData(e: Engine, names: seq<string>): seq<string> {
    if names == [] then [] else [QuoteIdentifier(e, names[0])] + NamesData(e, names[1..])
  }

  function AssignmentData(e: Engine, a: Assignment): seq<string> {
    [QuoteIdentifier(e, a.column)] + CellData(e, a.cell)
  }

  function ConditionData(e: Engine, c: Condition): seq<string> {
    match c
    case IsNull(column) => [QuoteIdentifier(e, column)]
    case Equals(column, cell) => AssignmentData(e, Assignment(column, cell))
  }

  function AssignmentsData(e: Engine, a: seq<Assignment>): seq<string> {
    if a == [] then [] else AssignmentData(e, a[0]) + AssignmentsData(e, a[1..])
  }

  function ConditionsData(e: Engine, c: seq<Condition>): seq<string> {
    if c == [] then [] else ConditionData(e, c[0]) + ConditionsData(e, c[1..])
  }

  function TableData(e: Engine, schema: string, table: string): seq<string> {
    (if schema != "" then [QuoteIdentifier(e, schema)] else []) + [QuoteIdentifier(e, table)]
  }

  function StatementData(e: Engine, item: Item, s: Statement): seq<string> {
    TableData(e, item.schema, item.table) +
    match s
    case InsertRows(names, _, rows) => NamesData(e, names) + RowsData(e, rows)
    case UpdateRow(assignments, conditions) => AssignmentsData(e, assignments) + ConditionsData(e, conditions)
  }

  // ------------------------------------------------------------------
  // The same, of lexemes.

  function Datum(x: Lexeme): seq<string> {
    if x.Quoted? || x.Literal? then [Spell(x)] else []
  }

  function LexemeData(xs: seq<Lexeme>): seq<string> {
    if xs == [] then [] else Datum(xs[0]) + LexemeData(xs[1..])
  }

  ghost predicate AllFormed(d: Dialect, xs: seq<Lexeme>) {
    forall i :: 0 <= i < |xs| ==> Formed(d, xs[i])
  }

  lemma {:induction false} ReadableIsFormed(d: Dialect, xs: seq<Lexeme>)
    requires Readable(d, xs)
    ensures AllFormed(d, xs)
    decreases |xs|
  {
    hide Formed, Fits;
    if xs != [] {
      ReadableIsFormed(d, xs[1..]);
    }
  }

  lemma CarriesData(d: Dialect, x: Lexeme, at: nat, depth: nat)
    requires Formed(d, x) && !x.Gap?
    ensures Carries(TokenOf(x, at, depth)) <==> x.Quoted? || x.Literal?
  {
    hide BareName, ToLower;
    match x
    case Word(w) => assert WordByte(w[0]);
    case Quoted(_, _) =>
    case Literal(_, _) =>
    case Mark(c) =>
  }

  lemma DataFirst(t: Token, rest: seq<Token>)
    ensures Data([t] + rest) == (if Carries(t) then [t.text] else []) + Data(rest)
  {
    hide Carries;
    assert ([t] + rest)[1..] == rest;
  }

  lemma {:induction false} TokensData(d: Dialect, xs: seq<Lexeme>, at: nat, depth: nat)
    requires AllFormed(d, xs) && Balanced(xs, depth)
    ensures Data(TokensOf(xs, at, depth)) == LexemeData(xs)
    decreases |xs|
  {
    hide Spell, Formed, Carries, Data;
    if xs == [] {
      NoData();
    } else {
      var rest := TokensOf(xs[1..], at + |Spell(xs[0])|, Advance(xs[0], depth));
      TokensData(d, xs[1..], at + |Spell(xs[0])|, Advance(xs[0], depth));
      if xs[0].Gap? {
        assert [] + rest == rest;
      } else {
        CarriesData(d, xs[0], at, Outside(xs[0], depth));
        DataFirst(TokenOf(xs[0], at, Outside(xs[0], depth)), rest);
      }
    }
  }

  lemma NoData()
    ensures Data([]) == []
  {
  }

  lemma {:induction false} DataConcat(xs: seq<Lexeme>, ys: seq<Lexeme>)
    ensures LexemeData(xs + ys) == LexemeData(xs) + LexemeData(ys)
    decreases |xs|
  {
    hide Datum;
    if xs == [] {
      assert xs + ys == ys;
    } else {
      assert (xs + ys)[1..] == xs[1..] + ys && (xs + ys)[0] == xs[0];
      DataConcat(xs[1..], ys);
      assert Datum(xs[0]) + (LexemeData(xs[1..]) + LexemeData(ys)) == Datum(xs[0]) + LexemeData(xs[1..]) + LexemeData(ys);
    }
  }

  ghost predicate Silent(xs: seq<Lexeme>) {
    forall i :: 0 <= i < |xs| ==> !xs[i].Quoted? && !xs[i].Literal?
  }

  lemma {:induction false} SilentData(xs: seq<Lexeme>)
    requires Silent(xs)
    ensures LexemeData(xs) == []
    decreases |xs|
  {
    hide Spell;
    if xs != [] {
      SilentData(xs[1..]);
    }
  }

  lemma AroundData(before: seq<Lexeme>, xs: seq<Lexeme>, after: seq<Lexeme>)
    requires Silent(before) && Silent(after)
    ensures LexemeData(before + xs + after) == LexemeData(xs) == LexemeData(before + (xs + after))
  {
    hide LexemeData;
    DataConcat(before + xs, after);
    DataConcat(before, xs);
    SilentData(before);
    SilentData(after);
    assert before + xs + after == before + (xs + after);
  }

  lemma AfterData(before: seq<Lexeme>, xs: seq<Lexeme>)
    requires Silent(before)
    ensures LexemeData(before + xs) == LexemeData(xs)
  {
    hide LexemeData;
    DataConcat(before, xs);
    SilentData(before);
  }

  lemma ParensData(xs: seq<Lexeme>)
    ensures LexemeData(Parens(xs)) == LexemeData(xs)
  {
    hide LexemeData;
    AroundData([Mark('(')], xs, [Mark(')')]);
  }

  lemma OneData(x: Lexeme)
    ensures LexemeData([x]) == if x.Quoted? || x.Literal? then [Spell(x)] else []
  {
    hide Spell;
    assert [x][1..] == [];
  }

  lemma {:induction false} NumberData(s: string)
    ensures Silent(NumberLexemes(s))
    decreases |s|
  {
    if s == "" {
    } else if WordByte(s[0]) {
      NumberData(s[WordEnd(s, 1)..]);
    } else {
      NumberData(s[1..]);
    }
  }

  function Flat(parts: seq<seq<string>>): seq<string> {
    if parts == [] then [] else parts[0] + Flat(parts[1..])
  }

  lemma {:induction false} JoinData(parts: seq<seq<Lexeme>>, separator: seq<Lexeme>, data: seq<seq<string>>)
    requires Silent(separator) && |parts| == |data| && forall i :: 0 <= i < |parts| ==> LexemeData(parts[i]) == data[i]
    ensures LexemeData(JoinLexemes(parts, separator)) == Flat(data)
    decreases |parts|
  {
    hide LexemeData, Silent;
    if parts == [] {
      NothingSays();
    } else if |parts| == 1 {
      assert data[1..] == [] && data[0] + [] == data[0];
    } else {
      var rest := JoinLexemes(parts[1..], separator);
      JoinData(parts[1..], separator, data[1..]);
      AfterData(separator, rest);
      DataConcat(parts[0], separator + rest);
      assert parts[0] + separator + rest == parts[0] + (separator + rest);
    }
  }

  lemma NothingSays()
    ensures LexemeData([]) == []
  {
  }

  // ------------------------------------------------------------------
  // Each part says what it should.

  lemma HexData(e: Engine, digits: string)
    requires HexText(digits)
    ensures LexemeData(HexLexemes(e, digits)) == SqlData(e, BackupValue(Blob, digits))
  {
    hide LexemeData, LiteralBody;
    PlainBody(digits, true);
    PlainBody(digits, false);
    if MySQLFamily(e) || e == SQLite {
      var x := Literal(digits, MySQLFamily(e));
      assert [Word("X")] + [x] == HexLexemes(e, digits);
      AfterData([Word("X")], [x]);
      OneData(x);
    } else if SQLServerFamily(e) {
      OneData(Word("0x" + digits));
    } else if e == DuckDB {
      AfterData([Word("unhex")], Parens([Literal(digits, false)]));
      ParensData([Literal(digits, false)]);
      OneData(Literal(digits, false));
    } else {
      OneData(Literal("\\x" + digits, false));
      SlashX(digits);
    }
  }

  lemma ValueSays(e: Engine, v: BackupValue)
    requires Encoded(v)
    ensures LexemeData(ValueLexemes(e, v)) == ValueData(e, v)
  {
    hide LexemeData, LiteralBody, HexLexemes, NumberLexemes, HexText, NumberText, UuidText, Double, CassandraLexemes;
    if e == Cassandra {
      CassandraSays(e, v);
    } else {
      match v.kind
      case Null => OneData(Word("NULL"));
      case Bool =>
        OneData(Word(if v.text == "true" then "TRUE" else "FALSE"));
        OneData(Word(if v.text == "true" then "1" else "0"));
      case Num =>
        NumberData(v.text);
        SilentData(NumberLexemes(v.text));
      case Blob =>
        HexData(e, v.text);
        AroundData([], HexLexemes(e, v.text), [Mark(':'), Mark(':'), Word("bytea")]);
        assert [] + HexLexemes(e, v.text) == HexLexemes(e, v.text);
      case _ => TextSays(e, v);
    }
  }

  lemma CassandraSays(e: Engine, v: BackupValue)
    requires e == Cassandra
    ensures LexemeData(CassandraLexemes(v)) == ValueData(e, v)
  {
    hide LexemeData, LiteralBody, NumberLexemes, Double;
    NumberData(v.text);
    SilentData(NumberLexemes(v.text));
    EscapesTwice(v.text);
    OneData(Literal(v.text, false));
    OneData(Word("null"));
    OneData(Word(v.text));
    OneData(Word("0x" + v.text));
  }

  lemma TextSays(e: Engine, v: BackupValue)
    requires v.kind == Time || v.kind == Str || v.kind == Uuid
    ensures LexemeData(RestoreLexemes(e, v)) == SqlData(e, v)
  {
    hide LexemeData, LiteralBody, Double;
    var x := Literal(v.text, MySQLFamily(e));
    EscapesTwice(v.text);
    OneData(x);
    AfterData([Word("N")], [x]);
    assert [] + [x] == [x];
  }

  lemma CellSays(e: Engine, c: Cell)
    requires EncodedCell(c)
    ensures LexemeData(CellLexemes(e, c)) == CellData(e, c)
  {
    hide LexemeData, ValueLexemes, ValueData, Encoded, Parens;
    match c
    case Missing => OneData(Word(NullText(e)));
    case Stored(v, variant) =>
      ValueSays(e, v);
      var xs := ValueLexemes(e, v);
      AfterData([Word("CAST")], Parens(xs + AS_VARIANT));
      ParensData(xs + AS_VARIANT);
      AroundData([], xs, AS_VARIANT);
      assert [] + xs == xs;
  }

  lemma AssignmentSays(e: Engine, a: Assignment)
    requires EncodedCell(a.cell)
    ensures LexemeData(AssignmentLexemes(e, a)) == AssignmentData(e, a)
  {
    hide LexemeData, CellLexemes, CellData, EncodedCell, Double;
    CellSays(e, a.cell);
    OneData(Name(e, a.column));
    AfterData(EQUALS, CellLexemes(e, a.cell));
    DataConcat([Name(e, a.column)], EQUALS + CellLexemes(e, a.cell));
  }

  lemma ConditionSays(e: Engine, c: Condition)
    requires EncodedCondition(c)
    ensures LexemeData(ConditionLexemes(e, c)) == ConditionData(e, c)
  {
    hide LexemeData, CellLexemes, CellData, EncodedCell, Double;
    match c
    case IsNull(column) =>
      var tail := [Gap(" "), Word("IS"), Gap(" "), Word("NULL")];
      OneData(Name(e, column));
      DataConcat([Name(e, column)], tail);
      SilentData(tail);
    case Equals(column, cell) => AssignmentSays(e, Assignment(column, cell));
  }

  lemma TableSays(e: Engine, schema: string, table: string)
    ensures LexemeData(TableLexemes(e, schema, table)) == TableData(e, schema, table)
  {
    hide LexemeData, Double;
    OneData(Name(e, schema));
    OneData(Name(e, table));
    if schema != "" {
      assert TableLexemes(e, schema, table) == [Name(e, schema)] + ([Mark('.')] + [Name(e, table)]);
      DataConcat([Name(e, schema)], [Mark('.')] + [Name(e, table)]);
      AfterData([Mark('.')], [Name(e, table)]);
    } else {
      assert [] + [QuoteIdentifier(e, table)] == [QuoteIdentifier(e, table)];
    }
  }

  // ------------------------------------------------------------------
  // Lists.

  lemma {:induction false} CellsAreFlat(e: Engine, cs: seq<Cell>) returns (data: seq<seq<string>>)
    ensures |data| == |cs| && (forall i :: 0 <= i < |cs| ==> data[i] == CellData(e, cs[i])) && Flat(data) == CellsData(e, cs)
    decreases |cs|
  {
    hide CellData;
    data := [];
    if cs != [] {
      var rest := CellsAreFlat(e, cs[1..]);
      data := [CellData(e, cs[0])] + rest;
      assert data[1..] == rest;
    }
  }

  lemma {:induction false} NamesAreFlat(e: Engine, names: seq<string>) returns (data: seq<seq<string>>)
    ensures |data| == |names| && (forall i :: 0 <= i < |names| ==> data[i] == [QuoteIdentifier(e, names[i])]) && Flat(data) == NamesData(e, names)
    decreases |names|
  {
    hide QuoteIdentifier;
    data := [];
    if names != [] {
      var rest := NamesAreFlat(e, names[1..]);
      data := [[QuoteIdentifier(e, names[0])]] + rest;
      assert data[1..] == rest;
    }
  }

  lemma {:induction false} RowsAreFlat(e: Engine, rows: seq<seq<Cell>>) returns (data: seq<seq<string>>)
    ensures |data| == |rows| && (forall i :: 0 <= i < |rows| ==> data[i] == CellsData(e, rows[i])) && Flat(data) == RowsData(e, rows)
    decreases |rows|
  {
    hide CellsData;
    data := [];
    if rows != [] {
      var rest := RowsAreFlat(e, rows[1..]);
      data := [CellsData(e, rows[0])] + rest;
      assert data[1..] == rest;
    }
  }

  lemma {:induction false} AssignmentsAreFlat(e: Engine, a: seq<Assignment>) returns (data: seq<seq<string>>)
    ensures |data| == |a| && (forall i :: 0 <= i < |a| ==> data[i] == AssignmentData(e, a[i])) && Flat(data) == AssignmentsData(e, a)
    decreases |a|
  {
    hide AssignmentData;
    data := [];
    if a != [] {
      var rest := AssignmentsAreFlat(e, a[1..]);
      data := [AssignmentData(e, a[0])] + rest;
      assert data[1..] == rest;
    }
  }

  lemma {:induction false} ConditionsAreFlat(e: Engine, c: seq<Condition>) returns (data: seq<seq<string>>)
    ensures |data| == |c| && (forall i :: 0 <= i < |c| ==> data[i] == ConditionData(e, c[i])) && Flat(data) == ConditionsData(e, c)
    decreases |c|
  {
    hide ConditionData;
    data := [];
    if c != [] {
      var rest := ConditionsAreFlat(e, c[1..]);
      data := [ConditionData(e, c[0])] + rest;
      assert data[1..] == rest;
    }
  }

  lemma RowSays(e: Engine, row: seq<Cell>)
    requires forall j :: 0 <= j < |row| ==> EncodedCell(row[j])
    ensures LexemeData(RowLexemes(e, row)) == CellsData(e, row)
  {
    hide LexemeData, CellLexemes, CellData, EncodedCell, Parens, JoinLexemes, CellParts, CellsData, Flat;
    var data := CellsAreFlat(e, row);
    var parts := CellParts(e, row);
    forall j | 0 <= j < |row| ensures LexemeData(parts[j]) == data[j] {
      CellSays(e, row[j]);
    }
    JoinData(parts, COMMA, data);
    ParensData(JoinLexemes(parts, COMMA));
    AfterData([Gap(RowIndent(e))], Parens(JoinLexemes(parts, COMMA)));
  }

  lemma InsertSays(e: Engine, item: Item, names: seq<string>, overriding: bool, rows: seq<seq<Cell>>)
    requires forall i, j :: 0 <= i < |rows| && 0 <= j < |rows[i]| ==> EncodedCell(rows[i][j])
    ensures LexemeData(StatementLexemes(e, item, InsertRows(names, overriding, rows))) == StatementData(e, item, InsertRows(names, overriding, rows))
  {
    hide LexemeData, EncodedCell, Parens, JoinLexemes, RowParts, NameParts, RowsData, NamesData, TableData, TableLexemes, RowLexemes, CellsData, Flat, QuoteIdentifier;
    var columns, lines := JoinLexemes(NameParts(e, names), COMMA), JoinLexemes(RowParts(e, rows), COMMA_LINE);
    var named := NamesAreFlat(e, names);
    forall i | 0 <= i < |names| ensures LexemeData(NameParts(e, names)[i]) == named[i] {
      NameSays(e, names[i]);
    }
    JoinData(NameParts(e, names), COMMA, named);
    ParensData(columns);
    var data := RowsAreFlat(e, rows);
    forall i | 0 <= i < |rows| ensures LexemeData(RowParts(e, rows)[i]) == data[i] {
      RowSays(e, rows[i]);
    }
    JoinData(RowParts(e, rows), COMMA_LINE, data);
    var table, mode := TableLexemes(e, item.schema, item.table), if overriding then OVERRIDING else [];
    TableSays(e, item.schema, item.table);
    AfterData(ValuesLine(e), lines);
    AfterData(mode, ValuesLine(e) + lines);
    DataConcat(Parens(columns), mode + (ValuesLine(e) + lines));
    AfterData([Gap(" ")], Parens(columns) + (mode + (ValuesLine(e) + lines)));
    DataConcat(table, [Gap(" ")] + (Parens(columns) + (mode + (ValuesLine(e) + lines))));
    AfterData(INSERT_INTO, table + ([Gap(" ")] + (Parens(columns) + (mode + (ValuesLine(e) + lines)))));
  }

  lemma NameSays(e: Engine, name: string)
    ensures LexemeData([Name(e, name)]) == [QuoteIdentifier(e, name)]
  {
    hide LexemeData, Double;
    OneData(Name(e, name));
  }

  lemma UpdateSays(e: Engine, item: Item, a: seq<Assignment>, c: seq<Condition>)
    requires forall i :: 0 <= i < |a| ==> EncodedCell(a[i].cell)
    requires forall i :: 0 <= i < |c| ==> EncodedCondition(c[i])
    ensures LexemeData(StatementLexemes(e, item, UpdateRow(a, c))) == StatementData(e, item, UpdateRow(a, c))
  {
    hide LexemeData, EncodedCell, EncodedCondition, JoinLexemes, AssignmentParts, ConditionParts, TableData, TableLexemes,
         AssignmentsData, ConditionsData, AssignmentLexemes, ConditionLexemes, AssignmentData, ConditionData, Flat;
    var sets := AssignmentsAreFlat(e, a);
    forall i | 0 <= i < |a| ensures LexemeData(AssignmentParts(e, a)[i]) == sets[i] {
      AssignmentSays(e, a[i]);
    }
    JoinData(AssignmentParts(e, a), COMMA, sets);
    var tests := ConditionsAreFlat(e, c);
    forall i | 0 <= i < |c| ensures LexemeData(ConditionParts(e, c)[i]) == tests[i] {
      ConditionSays(e, c[i]);
    }
    JoinData(ConditionParts(e, c), Keyword("AND"), tests);
    var table, list := TableLexemes(e, item.schema, item.table), JoinLexemes(AssignmentParts(e, a), COMMA);
    TableSays(e, item.schema, item.table);
    AfterData(Keyword("SET"), list);
    DataConcat(table, Keyword("SET") + list);
    AfterData(UPDATE_WORD, table + (Keyword("SET") + list));
    AfterData(Keyword("WHERE"), Scope(e, c));
    DataConcat(Written(e, item, a), Keyword("WHERE") + Scope(e, c));
  }

  /** Main result: the quoted names and string literals the lexer finds are exactly those the statement was
      built from, in order. No name and no value, whatever bytes it holds, adds, loses or splits a token. */
  lemma StatementSaysItsData(d: Dialect, e: Engine, item: Item, s: Statement)
    requires Reads(d, e) && EncodedStatement(s)
    ensures Lex(d, StatementText(e, item, s)).Ok?
    ensures Data(Lex(d, StatementText(e, item, s)).value) == StatementData(e, item, s)
  {
    hide LexemeData, StatementLexemes, StatementData, EncodedStatement, EncodedCell, EncodedCondition, Readable, Balanced, Lex, StatementText;
    var xs := StatementLexemes(e, item, s);
    StatementLexes(d, e, item, s);
    ReadableIsFormed(d, xs);
    TokensData(d, xs, 0, 0);
    EncodedParts(s);
    match s
    case InsertRows(names, overriding, rows) => InsertSays(e, item, names, overriding, rows);
    case UpdateRow(a, c) => UpdateSays(e, item, a, c);
  }
}
