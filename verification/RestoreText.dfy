/** The text of an undo statement as a list of lexemes, and the proof that the
    lexemes spell it. */
module RestoreText {
  import opened Bytes
  import opened Lexer
  import opened Render
  import opened RowBackup

  // ------------------------------------------------------------------
  // Stored values.

  predicate NumberByte(c: char) {
    Digit(c) || c == 'e' || c == '.' || c == '+' || c == '-'
  }

  /** What strconv prints of a finite number: no two signs together, and an exponent only after a digit. */
  predicate NumberTail(s: string) {
    && (forall i :: 0 <= i < |s| ==> NumberByte(s[i]))
    && (forall i :: 0 <= i < |s| - 1 ==> s[i] == '-' ==> s[i + 1] != '-')
    && (forall i :: 0 <= i < |s| && s[i] == 'e' ==> i > 0 && Digit(s[i - 1]))
  }

  predicate NumberText(s: string) {
    s != "" && NumberTail(s)
  }

  predicate HexText(s: string) {
    forall i :: 0 <= i < |s| ==> HexDigit(s[i])
  }

  predicate HexDigit(c: char) {
    Digit(c) || 'a' <= c <= 'f'
  }

  /** Groups of hexadecimal digits, each of two groups apart by one dash. */
  predicate UuidText(s: string) {
    && s != "" && s[0] != '-'
    && (forall i :: 0 <= i < |s| ==> HexDigit(s[i]) || s[i] == '-')
    && (forall i :: 0 <= i < |s| - 1 ==> s[i] == '-' ==> s[i + 1] != '-')
  }

  /** A value as the backup encodes it; text and times are arbitrary bytes. */
  predicate Encoded(v: BackupValue) {
    match v.kind
    case Uuid => UuidText(v.text)
    case Bool => v.text == "true" || v.text == "false"
    case Num => NumberText(v.text)
    case Blob => HexText(v.text)
    case _ => true
  }

  predicate EncodedCell(c: Cell) {
    c.Stored? ==> Encoded(c.value)
  }

  predicate EncodedCondition(c: Condition) {
    c.Equals? ==> EncodedCell(c.cell)
  }

  ghost predicate EncodedStatement(s: Statement) {
    match s
    case InsertRows(_, _, rows) => forall i, j :: 0 <= i < |rows| && 0 <= j < |rows[i]| ==> EncodedCell(rows[i][j])
    case UpdateRow(assignments, conditions) =>
      && assignments != [] && conditions != []
      && (forall i :: 0 <= i < |assignments| ==> EncodedCell(assignments[i].cell))
      && (forall i :: 0 <= i < |conditions| ==> EncodedCondition(conditions[i]))
  }

  /** Only a MySQL server's statements are read with backslash escapes. */
  predicate Reads(d: Dialect, e: Engine) {
    d == MySQL ==> MySQLFamily(e)
  }

  // ------------------------------------------------------------------
  // Statements as lexemes.

  /** A number cut into words and signs. */
  function NumberLexemes(s: string): seq<Lexeme> {
    if s == "" then []
    else if WordByte(s[0]) then
      var n := WordEnd(s, 1);
      [Word(s[..n])] + NumberLexemes(s[n..])
    else [Mark(s[0])] + NumberLexemes(s[1..])
  }

  function WordEnd(s: string, i: nat): (n: nat)
    requires i <= |s|
    ensures i <= n <= |s|
    ensures forall k :: i <= k < n ==> WordByte(s[k])
    ensures n < |s| ==> !WordByte(s[n])
    decreases |s| - i
  {
    if i < |s| && WordByte(s[i]) then WordEnd(s, i + 1) else i
  }

  function HexLexemes(e: Engine, digits: string): seq<Lexeme> {
    if MySQLFamily(e) || e == SQLite then [Word("X"), Literal(digits, MySQLFamily(e))]
    else if SQLServerFamily(e) then [Word("0x" + digits)]
    else if e == DuckDB then [Word("unhex")] + Parens([Literal(digits, false)])
    else [Literal("\\x" + digits, false)]
  }

  function CassandraLexemes(v: BackupValue): seq<Lexeme> {
    match v.kind
    case Null => [Word("null")]
    case Bool => [Word(v.text)]
    case Num => NumberLexemes(v.text)
    case Uuid => NumberLexemes(v.text)
    case Blob => [Word("0x" + v.text)]
    case _ => [Literal(v.text, false)]
  }

  function ValueLexemes(e: Engine, v: BackupValue): seq<Lexeme> {
    if e == Cassandra then CassandraLexemes(v) else RestoreLexemes(e, v)
  }

  function RestoreLexemes(e: Engine, v: BackupValue): seq<Lexeme> {
    match v.kind
    case Null => [Word("NULL")]
    case Bool =>
      if PostgresFamily(e) || e == DuckDB then [Word(if v.text == "true" then "TRUE" else "FALSE")]
      else [Word(if v.text == "true" then "1" else "0")]
    case Num => NumberLexemes(v.text)
    case Blob =>
      if e == PostgresEngine || e == CockroachDB then HexLexemes(e, v.text) + [Mark(':'), Mark(':'), Word("bytea")]
      else HexLexemes(e, v.text)
    case _ =>
      (if SQLServerFamily(e) then [Word("N")] else []) + [Literal(v.text, MySQLFamily(e))]
  }

  const AS_VARIANT: seq<Lexeme> := [Gap(" "), Word("AS"), Gap(" "), Word("sql_variant")]

  function Parens(xs: seq<Lexeme>): seq<Lexeme> {
    [Mark('(')] + xs + [Mark(')')]
  }

  function CellLexemes(e: Engine, c: Cell): seq<Lexeme> {
    match c
    case Missing => [Word(NullText(e))]
    case Stored(v, variant) => if variant then [Word("CAST")] + Parens(ValueLexemes(e, v) + AS_VARIANT) else ValueLexemes(e, v)
  }

  function Name(e: Engine, name: string): Lexeme {
    Quoted(OpenQuote(e), name)
  }

  function TableLexemes(e: Engine, schema: string, table: string): seq<Lexeme> {
    if schema != "" then [Name(e, schema), Mark('.'), Name(e, table)] else [Name(e, table)]
  }

  function JoinLexemes(parts: seq<seq<Lexeme>>, separator: seq<Lexeme>): seq<Lexeme> {
    if parts == [] then []
    else if |parts| == 1 then parts[0]
    else parts[0] + separator + JoinLexemes(parts[1..], separator)
  }

  function CellParts(e: Engine, cs: seq<Cell>): (r: seq<seq<Lexeme>>)
    ensures |r| == |cs|
    ensures forall i :: 0 <= i < |cs| ==> r[i] == CellLexemes(e, cs[i])
  {
    if cs == [] then [] else [CellLexemes(e, cs[0])] + CellParts(e, cs[1..])
  }

  function NameParts(e: Engine, names: seq<string>): (r: seq<seq<Lexeme>>)
    ensures |r| == |names|
    ensures forall i :: 0 <= i < |names| ==> r[i] == [Name(e, names[i])]
  {
    if names == [] then [] else [[Name(e, names[0])]] + NameParts(e, names[1..])
  }

  const COMMA: seq<Lexeme> := [Mark(','), Gap(" ")]
  const COMMA_LINE: seq<Lexeme> := [Mark(','), Gap("\n")]
  const EQUALS: seq<Lexeme> := [Gap(" "), Mark('='), Gap(" ")]

  function Keyword(word: string): seq<Lexeme> {
    [Gap(" "), Word(word), Gap(" ")]
  }

  function RowLexemes(e: Engine, row: seq<Cell>): seq<Lexeme> {
    [Gap(RowIndent(e))] + Parens(JoinLexemes(CellParts(e, row), COMMA))
  }

  function RowParts(e: Engine, rows: seq<seq<Cell>>): (r: seq<seq<Lexeme>>)
    ensures |r| == |rows|
    ensures forall i :: 0 <= i < |rows| ==> r[i] == RowLexemes(e, rows[i])
  {
    if rows == [] then [] else [RowLexemes(e, rows[0])] + RowParts(e, rows[1..])
  }

  function ConditionLexemes(e: Engine, c: Condition): seq<Lexeme> {
    match c
    case IsNull(column) => [Name(e, column)] + [Gap(" "), Word("IS"), Gap(" "), Word("NULL")]
    case Equals(column, cell) => [Name(e, column)] + (EQUALS + CellLexemes(e, cell))
  }

  function ConditionParts(e: Engine, cs: seq<Condition>): (r: seq<seq<Lexeme>>)
    ensures |r| == |cs|
    ensures forall i :: 0 <= i < |cs| ==> r[i] == ConditionLexemes(e, cs[i])
  {
    if cs == [] then [] else [ConditionLexemes(e, cs[0])] + ConditionParts(e, cs[1..])
  }

  function AssignmentLexemes(e: Engine, a: Assignment): seq<Lexeme> {
    [Name(e, a.column)] + (EQUALS + CellLexemes(e, a.cell))
  }

  function AssignmentParts(e: Engine, assignments: seq<Assignment>): (r: seq<seq<Lexeme>>)
    ensures |r| == |assignments|
    ensures forall i :: 0 <= i < |assignments| ==> r[i] == AssignmentLexemes(e, assignments[i])
  {
    if assignments == [] then [] else [AssignmentLexemes(e, assignments[0])] + AssignmentParts(e, assignments[1..])
  }

  const INSERT_INTO: seq<Lexeme> := [Word("INSERT"), Gap(" "), Word("INTO"), Gap(" ")]
  const OVERRIDING: seq<Lexeme> := [Gap(" "), Word("OVERRIDING"), Gap(" "), Word("SYSTEM"), Gap(" "), Word("VALUE")]

  function ValuesLine(e: Engine): seq<Lexeme> {
    [Gap(" "), Word("VALUES"), Gap(ValuesEnd(e))]
  }
  const UPDATE_WORD: seq<Lexeme> := [Word("UPDATE"), Gap(" ")]

  function StatementLexemes(e: Engine, item: Item, s: Statement): seq<Lexeme> {
    match s
    case InsertRows(names, overriding, rows) =>
      INSERT_INTO + (TableLexemes(e, item.schema, item.table)
      + ([Gap(" ")] + (Parens(JoinLexemes(NameParts(e, names), COMMA))
      + ((if overriding then OVERRIDING else [])
      + (ValuesLine(e) + JoinLexemes(RowParts(e, rows), COMMA_LINE))))))
    case UpdateRow(assignments, conditions) =>
      Written(e, item, assignments) + (Keyword("WHERE") + Scope(e, conditions))
  }

  /** An UPDATE up to its WHERE. */
  function Written(e: Engine, item: Item, assignments: seq<Assignment>): seq<Lexeme> {
    UPDATE_WORD + (TableLexemes(e, item.schema, item.table) + (Keyword("SET") + JoinLexemes(AssignmentParts(e, assignments), COMMA)))
  }

  function Scope(e: Engine, conditions: seq<Condition>): seq<Lexeme> {
    JoinLexemes(ConditionParts(e, conditions), Keyword("AND"))
  }

  // ------------------------------------------------------------------
  // The lexemes spell the statement.

  lemma {:induction false} EscapesTwice(value: string)
    ensures LiteralBody(value, false) == Double(value, '\'')
    ensures LiteralBody(value, true) == Double(Double(value, '\\'), '\'')
    decreases |value|
  {
    if value != "" {
      EscapesTwice(value[1..]);
      var rest := Double(value[1..], '\\');
      if value[0] == '\\' {
        assert Double(value, '\\') == ['\\', '\\'] + rest;
        assert (['\\', '\\'] + rest)[1..] == ['\\'] + rest && (['\\'] + rest)[1..] == rest;
        assert Double(['\\'] + rest, '\'') == ['\\'] + Double(rest, '\'');
      } else {
        assert Double(value, '\\') == [value[0]] + rest;
        assert ([value[0]] + rest)[1..] == rest;
      }
    }
  }

  lemma {:induction false} PlainBody(value: string, doubled: bool)
    requires forall i :: 0 <= i < |value| ==> value[i] != '\'' && value[i] != '\\'
    ensures LiteralBody(value, doubled) == value
    decreases |value|
  {
    if value != "" {
      PlainBody(value[1..], doubled);
    }
  }

  lemma {:induction false} SpellNumber(s: string)
    ensures SpellAll(NumberLexemes(s)) == s
    decreases |s|
  {
    if s == "" {
    } else if WordByte(s[0]) {
      var n := WordEnd(s, 1);
      SpellNumber(s[n..]);
      SpellFirst(Word(s[..n]), NumberLexemes(s[n..]));
      assert s[..n] + s[n..] == s;
    } else {
      SpellNumber(s[1..]);
      SpellFirst(Mark(s[0]), NumberLexemes(s[1..]));
      assert [s[0]] + s[1..] == s;
    }
  }

  lemma SpellFirst(x: Lexeme, xs: seq<Lexeme>)
    ensures SpellAll([x] + xs) == Spell(x) + SpellAll(xs)
  {
    hide Spell;
    assert ([x] + xs)[1..] == xs;
  }

  lemma SpellOne(x: Lexeme)
    ensures SpellAll([x]) == Spell(x)
  {
    hide Spell;
    assert [x] + [] == [x];
    SpellFirst(x, []);
    assert Spell(x) + "" == Spell(x);
  }

  lemma SpellParens(xs: seq<Lexeme>)
    ensures SpellAll(Parens(xs)) == "(" + SpellAll(xs) + ")"
  {
    hide SpellAll;
    SpellConcat([Mark('(')] + xs, [Mark(')')]);
    SpellConcat([Mark('(')], xs);
    SpellOne(Mark('('));
    SpellOne(Mark(')'));
  }

  lemma SpellUnhex(digits: string)
    requires SpellAll([Literal(digits, false)]) == "'" + digits + "'"
    ensures SpellAll([Word("unhex")] + Parens([Literal(digits, false)])) == "unhex('" + digits + "')"
  {
    hide SpellAll, Spell, Parens;
    var quoted := "'" + digits + "'";
    SpellFirst(Word("unhex"), Parens([Literal(digits, false)]));
    SpellParens([Literal(digits, false)]);
    SpellWord("unhex");
    assert "unhex" + ("(" + quoted + ")") == "unhex('" + digits + "')";
  }

  lemma SpellHex(e: Engine, digits: string)
    requires HexText(digits)
    ensures SpellAll(HexLexemes(e, digits)) == HexLiteral(e, digits)
  {
    hide SpellAll, Spell;
    PlainBody(digits, true);
    PlainBody(digits, false);
    SpellPlain(digits, true);
    SpellPlain(digits, false);
    var quoted := "'" + digits + "'";
    if MySQLFamily(e) || e == SQLite {
      SpellTwo(Word("X"), Literal(digits, MySQLFamily(e)));
      SpellWord("X");
      assert "X" + quoted == "X'" + digits + "'";
    } else if SQLServerFamily(e) {
      SpellOne(Word("0x" + digits));
      SpellWord("0x" + digits);
    } else if e == DuckDB {
      SpellOne(Literal(digits, false));
      SpellUnhex(digits);
    } else {
      SpellOne(Literal("\\x" + digits, false));
      SlashX(digits);
    }
  }

  lemma SpellWord(w: string)
    ensures Spell(Word(w)) == w
  {
  }

  lemma SpellPlain(value: string, doubled: bool)
    requires LiteralBody(value, doubled) == value
    ensures Spell(Literal(value, doubled)) == "'" + value + "'"
  {
  }

  lemma SlashX(digits: string)
    requires LiteralBody(digits, false) == digits
    ensures Spell(Literal("\\x" + digits, false)) == "'\\x" + digits + "'"
    ensures "'" + LiteralBody("\\x" + digits, false) + "'" == "'\\x" + digits + "'"
  {
    var v := "\\x" + digits;
    assert v[1..] == "x" + digits && v[1..][1..] == digits;
    assert LiteralBody(v[1..], false) == "x" + digits;
  }

  lemma SpellValue(e: Engine, v: BackupValue)
    requires Encoded(v)
    ensures SpellAll(ValueLexemes(e, v)) == ValueText(e, v)
  {
    hide SpellAll, LiteralBody, HexLexemes, HexLiteral, NumberLexemes, HexText, NumberText, UuidText, Double;
    if e == Cassandra {
      SpellCassandra(v);
    } else {
      match v.kind
      case Null => SpellOne(Word("NULL"));
      case Bool => SpellBool(e, v);
      case Num => SpellNumber(v.text);
      case Blob =>
        SpellHex(e, v.text);
        var tail := [Mark(':'), Mark(':'), Word("bytea")];
        SpellConcat(HexLexemes(e, v.text), tail);
        SpellTail();
      case _ => SpellText(e, v);
    }
  }

  lemma SpellCassandra(v: BackupValue)
    ensures SpellAll(CassandraLexemes(v)) == CassandraLiteral(v)
  {
    hide SpellAll, LiteralBody, NumberLexemes, Double;
    match v.kind
    case Null => SpellOne(Word("null"));
    case Bool => SpellOne(Word(v.text));
    case Num => SpellNumber(v.text);
    case Uuid => SpellNumber(v.text);
    case Blob => SpellOne(Word("0x" + v.text));
    case _ =>
      EscapesTwice(v.text);
      SpellOne(Literal(v.text, false));
  }

  lemma SpellTail()
    ensures SpellAll([Mark(':'), Mark(':'), Word("bytea")]) == "::bytea"
  {
    var tail := [Mark(':'), Mark(':'), Word("bytea")];
    assert tail[1..] == [Mark(':'), Word("bytea")] && tail[1..][1..] == [Word("bytea")] && tail[1..][1..][1..] == [];
  }

  lemma SpellBool(e: Engine, v: BackupValue)
    requires v.kind == Bool && Encoded(v)
    ensures SpellAll(RestoreLexemes(e, v)) == RestoreLiteral(e, v)
  {
    SpellOne(Word(if v.text == "true" then "TRUE" else "FALSE"));
    SpellOne(Word(if v.text == "true" then "1" else "0"));
    assert ToUpper("true") == ['T', 'R', 'U', 'E'];
    assert ToUpper("false") == ['F', 'A', 'L', 'S', 'E'];
  }

  lemma SpellText(e: Engine, v: BackupValue)
    requires v.kind == Time || v.kind == Str || v.kind == Uuid
    ensures SpellAll(RestoreLexemes(e, v)) == RestoreLiteral(e, v)
  {
    hide SpellAll, LiteralBody, Double;
    var x := Literal(v.text, MySQLFamily(e));
    EscapesTwice(v.text);
    SpellOne(x);
    SpellFirst(Word("N"), [x]);
    assert [] + [x] == [x];
    var body := LiteralBody(v.text, MySQLFamily(e));
    assert "N" + ("'" + body + "'") == "N'" + body + "'";
  }

  lemma SpellVariant()
    ensures SpellAll(AS_VARIANT) == " AS sql_variant"
  {
    hide SpellAll;
    var a, b, c := [Word("sql_variant")], [Gap(" "), Word("sql_variant")], [Word("AS"), Gap(" "), Word("sql_variant")];
    SpellOne(Word("sql_variant"));
    SpellFirst(Gap(" "), a);
    SpellFirst(Word("AS"), b);
    SpellFirst(Gap(" "), c);
    assert [Gap(" ")] + a == b && [Word("AS")] + b == c && [Gap(" ")] + c == AS_VARIANT;
    assert " " + ("AS" + (" " + "sql_variant")) == " AS sql_variant";
  }

  lemma SpellCell(e: Engine, c: Cell)
    requires EncodedCell(c)
    ensures SpellAll(CellLexemes(e, c)) == CellText(e, c)
  {
    hide SpellAll, ValueLexemes, ValueText, Encoded, Parens;
    match c
    case Missing => SpellOne(Word(NullText(e)));
    case Stored(v, variant) =>
      SpellValue(e, v);
      if variant {
        SpellFirst(Word("CAST"), Parens(ValueLexemes(e, v) + AS_VARIANT));
        SpellParens(ValueLexemes(e, v) + AS_VARIANT);
        SpellConcat(ValueLexemes(e, v), AS_VARIANT);
        SpellVariant();
        var text := ValueText(e, v);
        assert "CAST" + ("(" + (text + " AS sql_variant") + ")") == "CAST(" + text + " AS sql_variant)";
      }
  }

  lemma SpellName(e: Engine, name: string)
    ensures SpellAll([Name(e, name)]) == QuoteIdentifier(e, name)
  {
    hide Double, SpellAll;
    SpellOne(Name(e, name));
  }

  lemma SpellTable(e: Engine, schema: string, table: string)
    ensures SpellAll(TableLexemes(e, schema, table)) == QualifiedTable(e, schema, table)
  {
    hide QuoteIdentifier, SpellAll, Spell, Name;
    SpellName(e, table);
    SpellName(e, schema);
    SpellOne(Name(e, table));
    SpellOne(Name(e, schema));
    SpellThree(Name(e, schema), Mark('.'), Name(e, table));
    SpellDot();
  }

  lemma SpellDot()
    ensures Spell(Mark('.')) == "."
  {
  }

  lemma {:induction false} SpellJoin(parts: seq<seq<Lexeme>>, separator: seq<Lexeme>, texts: seq<string>)
    requires |parts| == |texts| && forall i :: 0 <= i < |parts| ==> SpellAll(parts[i]) == texts[i]
    ensures SpellAll(JoinLexemes(parts, separator)) == Join(texts, SpellAll(separator))
    decreases |parts|
  {
    hide SpellAll;
    if parts == [] {
      assert SpellAll([]) == "" by { SpellNothing(); }
    } else if |parts| > 1 {
      SpellJoin(parts[1..], separator, texts[1..]);
      SpellConcat(parts[0] + separator, JoinLexemes(parts[1..], separator));
      SpellConcat(parts[0], separator);
    }
  }

  lemma SpellNothing()
    ensures SpellAll([]) == ""
  {
  }

  lemma SpellKeywords()
    ensures SpellAll(COMMA) == ", " && SpellAll(COMMA_LINE) == ",\n" && SpellAll(EQUALS) == " = "
    ensures SpellAll(Keyword("AND")) == " AND " && SpellAll(Keyword("WHERE")) == " WHERE " && SpellAll(Keyword("SET")) == " SET "
    ensures SpellAll([Gap("  ")]) == "  " && SpellAll([Gap(" ")]) == " " && SpellAll(UPDATE_WORD) == "UPDATE "
  {
    SpellTwo(Mark(','), Gap(" "));
    SpellTwo(Mark(','), Gap("\n"));
    SpellThree(Gap(" "), Mark('='), Gap(" "));
    SpellThree(Gap(" "), Word("AND"), Gap(" "));
    SpellThree(Gap(" "), Word("WHERE"), Gap(" "));
    SpellThree(Gap(" "), Word("SET"), Gap(" "));
    SpellTwo(Word("UPDATE"), Gap(" "));
    SpellOne(Gap("  "));
    SpellOne(Gap(" "));
  }

  lemma SpellValues(e: Engine)
    ensures SpellAll(ValuesLine(e)) == " VALUES" + ValuesEnd(e)
  {
    hide SpellAll;
    SpellThree(Gap(" "), Word("VALUES"), Gap(ValuesEnd(e)));
    assert " " + "VALUES" + ValuesEnd(e) == " VALUES" + ValuesEnd(e);
  }

  lemma SpellTwo(x: Lexeme, y: Lexeme)
    ensures SpellAll([x, y]) == Spell(x) + Spell(y)
  {
    hide Spell, SpellAll;
    assert [x, y] == [x] + [y];
    SpellFirst(x, [y]);
    SpellOne(y);
  }

  lemma SpellThree(x: Lexeme, y: Lexeme, z: Lexeme)
    ensures SpellAll([x, y, z]) == Spell(x) + Spell(y) + Spell(z)
  {
    hide Spell, SpellAll;
    assert [x, y, z] == [x] + [y, z];
    SpellFirst(x, [y, z]);
    SpellTwo(y, z);
  }

  lemma SpellInsertInto()
    ensures SpellAll(INSERT_INTO) == "INSERT INTO "
  {
    hide SpellAll;
    assert INSERT_INTO == [Word("INSERT"), Gap(" ")] + [Word("INTO"), Gap(" ")];
    SpellConcat([Word("INSERT"), Gap(" ")], [Word("INTO"), Gap(" ")]);
    SpellTwo(Word("INSERT"), Gap(" "));
    SpellTwo(Word("INTO"), Gap(" "));
    assert "INSERT " + "INTO " == "INSERT INTO ";
  }

  lemma SpellOverriding()
    ensures SpellAll(OVERRIDING) == " OVERRIDING SYSTEM VALUE"
  {
    hide SpellAll;
    var front, back := [Gap(" "), Word("OVERRIDING"), Gap(" ")], [Word("SYSTEM"), Gap(" "), Word("VALUE")];
    assert OVERRIDING == front + back;
    SpellConcat(front, back);
    SpellThree(Gap(" "), Word("OVERRIDING"), Gap(" "));
    SpellThree(Word("SYSTEM"), Gap(" "), Word("VALUE"));
    assert SpellAll(front) == " OVERRIDING " && SpellAll(back) == "SYSTEM VALUE";
  }

  lemma SpellAssignment(e: Engine, a: Assignment)
    requires EncodedCell(a.cell)
    ensures SpellAll(AssignmentLexemes(e, a)) == QuoteIdentifier(e, a.column) + " = " + CellText(e, a.cell)
  {
    hide SpellAll, CellLexemes, CellText, EncodedCell, QuoteIdentifier, Name;
    SpellConcat([Name(e, a.column)], EQUALS + CellLexemes(e, a.cell));
    SpellConcat(EQUALS, CellLexemes(e, a.cell));
    SpellName(e, a.column);
    SpellCell(e, a.cell);
    SpellKeywords();
  }

  lemma SpellCondition(e: Engine, c: Condition)
    requires EncodedCondition(c)
    ensures SpellAll(ConditionLexemes(e, c)) == ConditionText(e, c)
  {
    hide SpellAll, CellLexemes, CellText, EncodedCell, QuoteIdentifier, Name, Spell;
    match c
    case IsNull(column) =>
      var tail := [Gap(" "), Word("IS"), Gap(" "), Word("NULL")];
      SpellConcat([Name(e, column)], tail);
      SpellName(e, column);
      SpellIsNull();
    case Equals(column, cell) => SpellAssignment(e, Assignment(column, cell));
  }

  lemma SpellIsNull()
    ensures SpellAll([Gap(" "), Word("IS"), Gap(" "), Word("NULL")]) == " IS NULL"
  {
    hide SpellAll;
    assert [Gap(" "), Word("IS"), Gap(" "), Word("NULL")] == [Gap(" "), Word("IS")] + [Gap(" "), Word("NULL")];
    SpellConcat([Gap(" "), Word("IS")], [Gap(" "), Word("NULL")]);
    SpellTwo(Gap(" "), Word("IS"));
    SpellTwo(Gap(" "), Word("NULL"));
  }

  lemma {:induction false} CellTextsAt(e: Engine, cs: seq<Cell>)
    ensures forall i :: 0 <= i < |cs| ==> CellTexts(e, cs)[i] == CellText(e, cs[i])
    decreases |cs|
  {
    hide CellText;
    if cs != [] {
      CellTextsAt(e, cs[1..]);
    }
  }

  lemma SpellRow(e: Engine, row: seq<Cell>)
    requires forall j :: 0 <= j < |row| ==> EncodedCell(row[j])
    ensures SpellAll(RowLexemes(e, row)) == RowIndent(e) + "(" + Join(CellTexts(e, row), ", ") + ")"
  {
    hide SpellAll, CellLexemes, CellText, EncodedCell, Parens, Join, JoinLexemes, CellTexts, CellParts;
    forall j | 0 <= j < |row| ensures SpellAll(CellParts(e, row)[j]) == CellTexts(e, row)[j] {
      SpellCell(e, row[j]);
      CellTextsAt(e, row);
    }
    SpellKeywords();
    SpellJoin(CellParts(e, row), COMMA, CellTexts(e, row));
    SpellParens(JoinLexemes(CellParts(e, row), COMMA));
    SpellConcat([Gap(RowIndent(e))], Parens(JoinLexemes(CellParts(e, row), COMMA)));
    SpellOne(Gap(RowIndent(e)));
    var t := Join(CellTexts(e, row), ", ");
    assert RowIndent(e) + ("(" + t + ")") == RowIndent(e) + "(" + t + ")";
  }

  lemma {:induction false} NameTextsAt(e: Engine, names: seq<string>)
    ensures forall i :: 0 <= i < |names| ==> QuotedNames(e, names)[i] == QuoteIdentifier(e, names[i])
    decreases |names|
  {
    hide QuoteIdentifier;
    if names != [] {
      NameTextsAt(e, names[1..]);
    }
  }

  lemma {:induction false} RowTextsAt(e: Engine, rows: seq<seq<Cell>>)
    ensures forall i :: 0 <= i < |rows| ==> RowTexts(e, rows)[i] == RowIndent(e) + "(" + Join(CellTexts(e, rows[i]), ", ") + ")"
    decreases |rows|
  {
    hide Join, CellTexts, RowIndent;
    if rows != [] {
      RowTextsAt(e, rows[1..]);
    }
  }

  lemma {:induction false} AssignmentTextsAt(e: Engine, a: seq<Assignment>)
    ensures forall i :: 0 <= i < |a| ==> AssignmentTexts(e, a)[i] == QuoteIdentifier(e, a[i].column) + " = " + CellText(e, a[i].cell)
    decreases |a|
  {
    hide QuoteIdentifier, CellText;
    if a != [] {
      AssignmentTextsAt(e, a[1..]);
    }
  }

  lemma {:induction false} ConditionTextsAt(e: Engine, c: seq<Condition>)
    ensures forall i :: 0 <= i < |c| ==> ConditionTexts(e, c)[i] == ConditionText(e, c[i])
    decreases |c|
  {
    hide ConditionText;
    if c != [] {
      ConditionTextsAt(e, c[1..]);
    }
  }

  lemma JoinNames(e: Engine, names: seq<string>)
    ensures SpellAll(JoinLexemes(NameParts(e, names), COMMA)) == Join(QuotedNames(e, names), ", ")
  {
    hide SpellAll, JoinLexemes, Join, NameParts, QuotedNames, QuoteIdentifier, Name;
    NameTextsAt(e, names);
    forall i | 0 <= i < |names| ensures SpellAll(NameParts(e, names)[i]) == QuotedNames(e, names)[i] {
      SpellName(e, names[i]);
    }
    SpellKeywords();
    SpellJoin(NameParts(e, names), COMMA, QuotedNames(e, names));
  }

  lemma JoinRows(e: Engine, rows: seq<seq<Cell>>)
    requires forall i, j :: 0 <= i < |rows| && 0 <= j < |rows[i]| ==> EncodedCell(rows[i][j])
    ensures SpellAll(JoinLexemes(RowParts(e, rows), COMMA_LINE)) == Join(RowTexts(e, rows), ",\n")
  {
    hide SpellAll, JoinLexemes, Join, RowParts, RowTexts, RowLexemes, EncodedCell, CellTexts;
    RowTextsAt(e, rows);
    forall i | 0 <= i < |rows| ensures SpellAll(RowParts(e, rows)[i]) == RowTexts(e, rows)[i] {
      SpellRow(e, rows[i]);
    }
    SpellKeywords();
    SpellJoin(RowParts(e, rows), COMMA_LINE, RowTexts(e, rows));
  }

  lemma JoinAssignments(e: Engine, a: seq<Assignment>)
    requires forall i :: 0 <= i < |a| ==> EncodedCell(a[i].cell)
    ensures SpellAll(JoinLexemes(AssignmentParts(e, a), COMMA)) == Join(AssignmentTexts(e, a), ", ")
  {
    hide SpellAll, JoinLexemes, Join, AssignmentParts, AssignmentTexts, EncodedCell, AssignmentLexemes, QuoteIdentifier, CellText;
    AssignmentTextsAt(e, a);
    forall i | 0 <= i < |a| ensures SpellAll(AssignmentParts(e, a)[i]) == AssignmentTexts(e, a)[i] {
      SpellAssignment(e, a[i]);
    }
    SpellKeywords();
    SpellJoin(AssignmentParts(e, a), COMMA, AssignmentTexts(e, a));
  }

  lemma JoinConditions(e: Engine, c: seq<Condition>)
    requires forall i :: 0 <= i < |c| ==> EncodedCondition(c[i])
    ensures SpellAll(Scope(e, c)) == Join(ConditionTexts(e, c), " AND ")
  {
    hide SpellAll, JoinLexemes, Join, ConditionParts, ConditionTexts, EncodedCondition, ConditionLexemes, ConditionText;
    ConditionTextsAt(e, c);
    forall i | 0 <= i < |c| ensures SpellAll(ConditionParts(e, c)[i]) == ConditionTexts(e, c)[i] {
      SpellCondition(e, c[i]);
    }
    SpellKeywords();
    SpellJoin(ConditionParts(e, c), Keyword("AND"), ConditionTexts(e, c));
  }

  /** Main result of this module. */
  lemma LexemesSpellStatement(e: Engine, item: Item, s: Statement)
    requires EncodedStatement(s)
    ensures SpellAll(StatementLexemes(e, item, s)) == StatementText(e, item, s)
  {
    hide *;
    match s
    case InsertRows(names, overriding, rows) => SpellInsert(e, item, names, overriding, rows);
    case UpdateRow(assignments, conditions) => SpellUpdate(e, item, assignments, conditions);
  }

  lemma EncodedParts(s: Statement)
    requires EncodedStatement(s)
    ensures s.InsertRows? ==> forall i, j :: 0 <= i < |s.rows| && 0 <= j < |s.rows[i]| ==> EncodedCell(s.rows[i][j])
    ensures s.UpdateRow? ==> (forall i :: 0 <= i < |s.assignments| ==> EncodedCell(s.assignments[i].cell))
                             && (forall i :: 0 <= i < |s.conditions| ==> EncodedCondition(s.conditions[i]))
                             && s.assignments != [] && s.conditions != []
  {
    hide EncodedCell, EncodedCondition;
  }

  lemma SpellInsert(e: Engine, item: Item, names: seq<string>, overriding: bool, rows: seq<seq<Cell>>)
    requires EncodedStatement(InsertRows(names, overriding, rows))
    ensures SpellAll(StatementLexemes(e, item, InsertRows(names, overriding, rows))) == StatementText(e, item, InsertRows(names, overriding, rows))
  {
    hide SpellAll, QualifiedTable, TableLexemes, JoinLexemes, Parens, Join, EncodedStatement, EncodedCell, QuotedNames, RowTexts, RowParts, NameParts;
    EncodedParts(InsertRows(names, overriding, rows));
    JoinRows(e, rows);
    JoinNames(e, names);
    SpellTable(e, item.schema, item.table);
    SpellInsertInto();
    SpellKeywords();
    SpellValues(e);
    SpellOverriding();
    SpellNothing();
    var table := TableLexemes(e, item.schema, item.table);
    var columns := JoinLexemes(NameParts(e, names), COMMA);
    SpellParens(columns);
    var lines := JoinLexemes(RowParts(e, rows), COMMA_LINE);
    var mode := if overriding then OVERRIDING else [];
    SpellSeven(INSERT_INTO, table, [Gap(" ")], Parens(columns), mode, ValuesLine(e), lines);
    var n, r := Join(QuotedNames(e, names), ", "), Join(RowTexts(e, rows), ",\n");
    var m := if overriding then " OVERRIDING SYSTEM VALUE" else "";
    InsertShape(SpellAll(table), n, m, ValuesEnd(e), r);
  }

  lemma InsertShape(table: string, names: string, mode: string, white: string, rows: string)
    ensures "INSERT INTO " + (table + (" " + (("(" + names + ")") + (mode + ((" VALUES" + white) + rows)))))
         == "INSERT INTO " + table + " (" + names + ")" + mode + " VALUES" + white + rows
  {
    assert " " + "(" == " (";
  }

  lemma SpellSeven(a: seq<Lexeme>, b: seq<Lexeme>, c: seq<Lexeme>, d: seq<Lexeme>, f: seq<Lexeme>, g: seq<Lexeme>, h: seq<Lexeme>)
    ensures SpellAll(a + (b + (c + (d + (f + (g + h))))))
         == SpellAll(a) + (SpellAll(b) + (SpellAll(c) + (SpellAll(d) + (SpellAll(f) + (SpellAll(g) + SpellAll(h))))))
  {
    hide SpellAll;
    SpellConcat(a, b + (c + (d + (f + (g + h)))));
    SpellConcat(b, c + (d + (f + (g + h))));
    SpellConcat(c, d + (f + (g + h)));
    SpellConcat(d, f + (g + h));
    SpellConcat(f, g + h);
    SpellConcat(g, h);
  }

  lemma SpellUpdate(e: Engine, item: Item, a: seq<Assignment>, c: seq<Condition>)
    requires EncodedStatement(UpdateRow(a, c))
    ensures SpellAll(StatementLexemes(e, item, UpdateRow(a, c))) == StatementText(e, item, UpdateRow(a, c))
  {
    hide SpellAll, QualifiedTable, TableLexemes, JoinLexemes, Join, EncodedStatement, EncodedCell, EncodedCondition, AssignmentTexts, ConditionTexts, Scope, Keyword;
    EncodedParts(UpdateRow(a, c));
    JoinAssignments(e, a);
    JoinConditions(e, c);
    SpellTable(e, item.schema, item.table);
    SpellKeywords();
    var table := TableLexemes(e, item.schema, item.table);
    var list := JoinLexemes(AssignmentParts(e, a), COMMA);
    SpellConcat(UPDATE_WORD + (table + (Keyword("SET") + list)), Keyword("WHERE") + Scope(e, c));
    SpellConcat(UPDATE_WORD, table + (Keyword("SET") + list));
    SpellConcat(table, Keyword("SET") + list);
    SpellConcat(Keyword("SET"), list);
    SpellConcat(Keyword("WHERE"), Scope(e, c));
  }
}
