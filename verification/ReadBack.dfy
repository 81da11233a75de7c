/** Undo statements lex as intended: whatever the names and the stored values,
    the guard's own lexer finds one quoted token per name and one string token
    per text. */
module ReadBack {
  import opened Prelude
  import opened Bytes
  import opened Lexer
  import opened Render
  import opened RowBackup
  import opened RestoreText

  // ------------------------------------------------------------------
  // Lists that read the same whatever stop follows.

  predicate Stop(c: char) {
    c == ' ' || c == ',' || c == ')' || c == '.' || c == ';' || c == '\n'
  }

  predicate StopsAt(rest: string) {
    rest == "" || Stop(rest[0])
  }

  ghost predicate Solid(d: Dialect, xs: seq<Lexeme>) {
    Balanced(xs, 0) && forall rest :: StopsAt(rest) ==> ReadableBefore(d, xs, rest)
  }

  /** Whatever follows. */
  ghost predicate Open(d: Dialect, xs: seq<Lexeme>) {
    Balanced(xs, 0) && forall rest :: ReadableBefore(d, xs, rest)
  }

  lemma SolidAt(d: Dialect, xs: seq<Lexeme>, rest: string)
    requires Solid(d, xs) && StopsAt(rest)
    ensures ReadableBefore(d, xs, rest) && Balanced(xs, 0)
  {
  }

  lemma {:induction false} BalancedNest(xs: seq<Lexeme>, m: nat, ys: seq<Lexeme>, k: nat)
    requires Balanced(xs, m) && Balanced(ys, k)
    ensures Balanced(xs + ys, m + k)
    decreases |xs|
  {
    if xs == [] {
      assert xs + ys == ys;
    } else {
      assert (xs + ys)[1..] == xs[1..] + ys && (xs + ys)[0] == xs[0];
      BalancedNest(xs[1..], Advance(xs[0], m), ys, k);
    }
  }

  lemma StopsAhead(a: string, rest: string)
    requires StopsAt(a) && StopsAt(rest)
    ensures StopsAt(a + rest)
  {
    if a == "" {
      assert a + rest == rest;
    }
  }

  lemma Lead(d: Dialect, a: seq<Lexeme>, b: seq<Lexeme>)
    requires Open(d, a) && Solid(d, b)
    ensures Solid(d, a + b)
  {
    hide ReadableBefore, Balanced, StopsAt;
    BalancedNest(a, 0, b, 0);
    forall rest | StopsAt(rest) ensures ReadableBefore(d, a + b, rest) {
      ReadableConcat(d, a, b, rest);
    }
  }

  lemma Follow(d: Dialect, a: seq<Lexeme>, b: seq<Lexeme>)
    requires Solid(d, a) && Solid(d, b) && StopsAt(SpellAll(b))
    ensures Solid(d, a + b)
  {
    hide ReadableBefore, Balanced, StopsAt, SpellAll;
    BalancedNest(a, 0, b, 0);
    forall rest | StopsAt(rest) ensures ReadableBefore(d, a + b, rest) {
      StopsAhead(SpellAll(b), rest);
      ReadableConcat(d, a, b, rest);
    }
  }

  /** a, a separator that starts with a stop, b. */
  lemma Glue(d: Dialect, a: seq<Lexeme>, link: seq<Lexeme>, b: seq<Lexeme>)
    requires Solid(d, a) && Open(d, link) && StopsAt(SpellAll(link)) && SpellAll(link) != "" && Solid(d, b)
    ensures Solid(d, link + b) && StopsAt(SpellAll(link + b)) && Solid(d, a + (link + b))
  {
    hide ReadableBefore, Balanced, SpellAll, Solid, Open;
    Lead(d, link, b);
    SpellConcat(link, b);
    Follow(d, a, link + b);
  }

  lemma {:induction false} JoinSolid(d: Dialect, parts: seq<seq<Lexeme>>, link: seq<Lexeme>)
    requires forall i :: 0 <= i < |parts| ==> Solid(d, parts[i])
    requires Open(d, link) && StopsAt(SpellAll(link)) && SpellAll(link) != ""
    ensures Solid(d, JoinLexemes(parts, link))
    decreases |parts|
  {
    hide Solid, Open, SpellAll, StopsAt;
    if parts == [] {
      NothingIsSolid(d);
    } else if |parts| > 1 {
      JoinSolid(d, parts[1..], link);
      Glue(d, parts[0], link, JoinLexemes(parts[1..], link));
      assert parts[0] + (link + JoinLexemes(parts[1..], link)) == JoinLexemes(parts, link);
    }
  }

  lemma NothingIsSolid(d: Dialect)
    ensures Solid(d, [])
  {
  }

  lemma SpellOpen(xs: seq<Lexeme>)
    ensures SpellAll(Parens(xs)) != "" && SpellAll(Parens(xs))[0] == '('
  {
    hide SpellAll;
    SpellParens(xs);
  }

  lemma ParensSolid(d: Dialect, xs: seq<Lexeme>)
    requires Solid(d, xs)
    ensures Solid(d, Parens(xs))
  {
    hide Solid, SpellAll;
    forall rest | StopsAt(rest) ensures ReadableBefore(d, Parens(xs), rest) {
      ClosesSolid(d, xs, rest);
      assert Parens(xs)[0] == Mark('(') && Parens(xs)[1..] == xs + [Mark(')')];
    }
    BalancedParens(d, xs);
    assert Solid(d, Parens(xs)) by { SolidMeans(d, Parens(xs)); }
  }

  lemma SolidMeans(d: Dialect, xs: seq<Lexeme>)
    requires Balanced(xs, 0) && forall rest :: StopsAt(rest) ==> ReadableBefore(d, xs, rest)
    ensures Solid(d, xs)
  {
  }

  lemma ClosesSolid(d: Dialect, xs: seq<Lexeme>, rest: string)
    requires Solid(d, xs) && StopsAt(rest)
    ensures ReadableBefore(d, xs + [Mark(')')], rest)
  {
    hide Solid, StopsAt, Stop;
    SpellOne(Mark(')'));
    assert SpellAll([Mark(')')]) == ")";
    assert StopsAt(")" + rest) by { CloserStops(rest); }
    SolidAt(d, xs, ")" + rest);
    assert ReadableBefore(d, [Mark(')')], rest);
    ReadableConcat(d, xs, [Mark(')')], rest);
  }

  lemma CloserStops(rest: string)
    ensures StopsAt(")" + rest)
  {
  }

  lemma BalancedParens(d: Dialect, xs: seq<Lexeme>)
    requires Solid(d, xs)
    ensures Balanced(Parens(xs), 0)
  {
    var tail := xs + [Mark(')')];
    assert Balanced([Mark(')')], 1) by { assert [Mark(')')][1..] == []; }
    BalancedNest(xs, 0, [Mark(')')], 1);
    assert Parens(xs)[0] == Mark('(') && Parens(xs)[1..] == tail;
  }

  /** A word straight before an opening parenthesis. */
  lemma CallSolid(d: Dialect, w: string, xs: seq<Lexeme>)
    requires Solid(d, xs) && Formed(d, Word(w))
    ensures Solid(d, [Word(w)] + Parens(xs))
  {
    hide Solid, SpellAll, Formed, Parens;
    ParensSolid(d, xs);
    var all := [Word(w)] + Parens(xs);
    assert all[0] == Word(w) && all[1..] == Parens(xs);
    SpellOpen(xs);
    forall rest | StopsAt(rest) ensures ReadableBefore(d, all, rest) {
      SolidAt(d, Parens(xs), rest);
      assert (SpellAll(Parens(xs)) + rest)[0] == '(';
    }
    assert Balanced(Parens(xs), 0) by { SolidAt(d, Parens(xs), ""); }
    SolidMeans(d, all);
  }

  lemma {:induction false} OneSolid(d: Dialect, x: Lexeme)
    requires Formed(d, x) && !Opens(x) && !Closes(x) && x != Mark('-') && x != Mark('/')
    ensures Solid(d, [x])
    ensures x.Gap? ==> Open(d, [x])
  {
    hide Formed, Spell;
    assert [x][1..] == [];
    assert Balanced([x], 0);
    forall rest | StopsAt(rest) ensures ReadableBefore(d, [x], rest) {
      assert "" + rest == rest;
      StopFits(d, x, rest);
    }
    if x.Gap? {
      forall rest ensures ReadableBefore(d, [x], rest) {
        assert "" + rest == rest;
      }
    }
  }

  lemma StopFits(d: Dialect, x: Lexeme, rest: string)
    requires Formed(d, x) && StopsAt(rest)
    ensures Fits(x, rest)
  {
  }

  lemma ConsOpen(d: Dialect, x: Lexeme, xs: seq<Lexeme>)
    requires Formed(d, x) && Open(d, xs) && !Opens(x) && !Closes(x) && SpellAll(xs) != ""
    requires Fits(x, SpellAll(xs)[..1])
    ensures Open(d, [x] + xs)
  {
    hide Formed, SpellAll;
    var all := [x] + xs;
    assert all[0] == x && all[1..] == xs;
    forall rest ensures ReadableBefore(d, all, rest) {
      assert Fits(x, SpellAll(xs) + rest);
    }
  }

  lemma ConsSolid(d: Dialect, x: Lexeme, xs: seq<Lexeme>)
    requires Formed(d, x) && Solid(d, xs) && !Opens(x) && !Closes(x) && SpellAll(xs) != ""
    requires Fits(x, SpellAll(xs)[..1])
    ensures Solid(d, [x] + xs)
  {
    hide Formed, SpellAll;
    var all := [x] + xs;
    assert all[0] == x && all[1..] == xs;
    forall rest | StopsAt(rest) ensures ReadableBefore(d, all, rest) {
      assert Fits(x, SpellAll(xs) + rest);
    }
  }

  // ------------------------------------------------------------------
  // The fixed parts.

  lemma ValueWords(d: Dialect)
    ensures Formed(d, Word("null")) && Formed(d, Word("true")) && Formed(d, Word("false"))
    ensures Formed(d, Word("NULL")) && Formed(d, Word("TRUE")) && Formed(d, Word("FALSE"))
    ensures Formed(d, Word("0")) && Formed(d, Word("1")) && Formed(d, Word("N")) && Formed(d, Word("X"))
  {
  }

  lemma CastWords(d: Dialect)
    ensures Formed(d, Word("CAST")) && Formed(d, Word("AS")) && Formed(d, Word("unhex")) && Formed(d, Word("bytea"))
    ensures Formed(d, Word("sql_variant"))
  {
  }

  lemma ScopeWords(d: Dialect)
    ensures Formed(d, Word("IS")) && Formed(d, Word("AND")) && Formed(d, Word("WHERE")) && Formed(d, Word("SET"))
    ensures Formed(d, Word("UPDATE"))
  {
  }

  lemma InsertWords(d: Dialect)
    ensures Formed(d, Word("INSERT")) && Formed(d, Word("INTO")) && Formed(d, Word("VALUES"))
    ensures Formed(d, Word("OVERRIDING")) && Formed(d, Word("SYSTEM")) && Formed(d, Word("VALUE"))
  {
  }

  lemma KeywordOpen(d: Dialect, w: string)
    requires Formed(d, Word(w))
    ensures Open(d, Keyword(w)) && StopsAt(SpellAll(Keyword(w))) && SpellAll(Keyword(w)) != ""
  {
    hide Open, SpellAll, Formed;
    SpellThree(Gap(" "), Word(w), Gap(" "));
    Spaced(d, Word(w), " ");
    assert Keyword(w) == [Gap(" ")] + [Word(w), Gap(" ")];
  }

  /** Gap, x, gap. */
  lemma Spaced(d: Dialect, x: Lexeme, white: string)
    requires Formed(d, x) && (x.Word? || x == Mark('=')) && (white == " " || white == "\n")
    ensures Open(d, [Gap(" ")] + [x, Gap(white)]) && Open(d, [x, Gap(white)])
    ensures SpellAll([x, Gap(white)]) != ""
  {
    hide Open, SpellAll, IdentByte;
    assert Formed(d, Gap(white));
    OneSolid(d, Gap(white));
    SpellOne(Gap(white));
    assert SpellAll([Gap(white)])[..1] == white;
    assert !IdentByte(' ') && !IdentByte('\n') by { NotIdent(); }
    assert [x] + [Gap(white)] == [x, Gap(white)];
    ConsOpen(d, x, [Gap(white)]);
    SpellTwo(x, Gap(white));
    ConsOpen(d, Gap(" "), [x, Gap(white)]);
  }

  lemma NotIdent()
    ensures !IdentByte(' ') && !IdentByte('\n')
  {
  }

  lemma SeparatorsOpen(d: Dialect)
    ensures Open(d, COMMA) && StopsAt(SpellAll(COMMA)) && SpellAll(COMMA) != ""
    ensures Open(d, COMMA_LINE) && StopsAt(SpellAll(COMMA_LINE)) && SpellAll(COMMA_LINE) != ""
    ensures Open(d, EQUALS) && StopsAt(SpellAll(EQUALS)) && SpellAll(EQUALS) != ""
    ensures Open(d, UPDATE_WORD) && Open(d, INSERT_INTO)
  {
    hide Open, SpellAll, Formed;
    SpellKeywords();
    CommaOpen(d, " ");
    CommaOpen(d, "\n");
    assert Formed(d, Mark('=')) by { EqualFormed(d); }
    Spaced(d, Mark('='), " ");
    assert EQUALS == [Gap(" ")] + [Mark('='), Gap(" ")];
    ScopeWords(d);
    Spaced(d, Word("UPDATE"), " ");
    InsertWords(d);
    InsertWords(d);
    Spaced(d, Word("INTO"), " ");
    SpellThree(Gap(" "), Word("INTO"), Gap(" "));
    var rest := [Gap(" ")] + [Word("INTO"), Gap(" ")];
    assert rest == [Gap(" "), Word("INTO"), Gap(" ")];
    assert SpellAll(rest)[..1] == " ";
    assert Fits(Word("INSERT"), " ") by { NotIdent(); }
    ConsOpen(d, Word("INSERT"), rest);
    assert [Word("INSERT")] + rest == INSERT_INTO;
  }

  lemma ValuesOpen(d: Dialect, e: Engine)
    ensures Open(d, ValuesLine(e)) && StopsAt(SpellAll(ValuesLine(e))) && SpellAll(ValuesLine(e)) != ""
  {
    hide Open, SpellAll, Formed;
    SpellValues(e);
    InsertWords(d);
    Spaced(d, Word("VALUES"), ValuesEnd(e));
    assert ValuesLine(e) == [Gap(" ")] + [Word("VALUES"), Gap(ValuesEnd(e))];
  }

  lemma EqualFormed(d: Dialect)
    ensures Formed(d, Mark('=')) && Formed(d, Mark(',')) && Formed(d, Mark('.')) && Formed(d, Mark(':'))
  {
  }

  lemma CommaOpen(d: Dialect, white: string)
    requires white == " " || white == "\n"
    ensures Open(d, [Mark(','), Gap(white)])
  {
    hide Open, SpellAll;
    EqualFormed(d);
    assert Formed(d, Gap(white));
    OneSolid(d, Gap(white));
    SpellOne(Gap(white));
    ConsOpen(d, Mark(','), [Gap(white)]);
    assert [Mark(',')] + [Gap(white)] == [Mark(','), Gap(white)];
  }

  lemma WordSolid(d: Dialect, w: string)
    requires Formed(d, Word(w))
    ensures Solid(d, [Word(w)])
  {
    hide Solid, Formed;
    OneSolid(d, Word(w));
  }

  /** " a b", each word after one space. */
  lemma TwoWords(d: Dialect, a: string, b: string)
    requires Formed(d, Word(a)) && Formed(d, Word(b))
    ensures Solid(d, [Gap(" "), Word(a), Gap(" "), Word(b)]) && StopsAt(SpellAll([Gap(" "), Word(a), Gap(" "), Word(b)]))
  {
    hide Solid, Open, Formed, SpellAll;
    KeywordOpen(d, a);
    WordSolid(d, b);
    Lead(d, Keyword(a), [Word(b)]);
    assert Keyword(a) + [Word(b)] == [Gap(" "), Word(a), Gap(" "), Word(b)];
    SpellConcat(Keyword(a), [Word(b)]);
  }

  lemma OverridingSolid(d: Dialect)
    ensures Solid(d, OVERRIDING) && StopsAt(SpellAll(OVERRIDING))
  {
    hide Solid, Open, Formed, SpellAll;
    InsertWords(d);
    KeywordOpen(d, "SYSTEM");
    WordSolid(d, "VALUE");
    Lead(d, Keyword("SYSTEM"), [Word("VALUE")]);
    WordSolid(d, "OVERRIDING");
    SpellConcat(Keyword("SYSTEM"), [Word("VALUE")]);
    Follow(d, [Word("OVERRIDING")], Keyword("SYSTEM") + [Word("VALUE")]);
    assert Formed(d, Gap(" ")) by { SpaceFormed(d); }
    OneSolid(d, Gap(" "));
    Lead(d, [Gap(" ")], [Word("OVERRIDING")] + (Keyword("SYSTEM") + [Word("VALUE")]));
    assert OVERRIDING == [Gap(" ")] + ([Word("OVERRIDING")] + (Keyword("SYSTEM") + [Word("VALUE")]));
    SpellOverriding();
  }

  lemma SpaceFormed(d: Dialect)
    ensures Formed(d, Gap("")) && Formed(d, Gap(" ")) && Formed(d, Gap("  "))
  {
  }

  // ------------------------------------------------------------------
  // Values, cells and names.

  /** The bytes of numbers and UUIDs. */
  predicate BareByte(c: char) {
    WordByte(c) || c == '.' || c == '+' || c == '-'
  }

  lemma {:induction false} NumberSolid(d: Dialect, s: string)
    requires forall i :: 0 <= i < |s| ==> BareByte(s[i])
    requires forall i :: 0 <= i < |s| - 1 ==> s[i] == '-' ==> s[i + 1] != '-'
    ensures Solid(d, NumberLexemes(s))
    decreases |s|
  {
    hide Solid, SpellAll;
    if s == "" {
      NothingIsSolid(d);
    } else if WordByte(s[0]) {
      var n := WordEnd(s, 1);
      NumberSolid(d, s[n..]);
      SpellNumber(s[n..]);
      assert Formed(d, Word(s[..n]));
      WordSolid(d, s[..n]);
      if n < |s| {
        assert s[n..][0] == s[n];
        assert !IdentByte(s[n]);
        ConsSolid(d, Word(s[..n]), NumberLexemes(s[n..]));
      } else {
        assert NumberLexemes(s[n..]) == [];
        assert [Word(s[..n])] + [] == [Word(s[..n])];
      }
    } else {
      NumberSolid(d, s[1..]);
      SpellNumber(s[1..]);
      assert Formed(d, Mark(s[0]));
      if s[1..] != "" {
        assert s[1..][0] == s[1];
        ConsSolid(d, Mark(s[0]), NumberLexemes(s[1..]));
      } else {
        LastSign(d, s[0]);
        assert [Mark(s[0])] + [] == [Mark(s[0])];
      }
    }
  }

  lemma LastSign(d: Dialect, c: char)
    requires BareByte(c) && !WordByte(c)
    ensures Solid(d, [Mark(c)])
  {
    assert [Mark(c)][1..] == [];
    forall rest | StopsAt(rest) ensures ReadableBefore(d, [Mark(c)], rest) {
      assert "" + rest == rest;
    }
  }

  lemma LiteralSolid(d: Dialect, e: Engine, value: string, doubled: bool)
    requires BackslashEscapes(d) ==> doubled
    ensures Solid(d, [Literal(value, doubled)])
  {
    hide Solid;
    OneSolid(d, Literal(value, doubled));
  }

  lemma QuoteAhead(value: string, doubled: bool)
    ensures SpellAll([Literal(value, doubled)]) != "" && SpellAll([Literal(value, doubled)])[..1] == "'"
  {
    hide SpellAll, LiteralBody;
    SpellOne(Literal(value, doubled));
  }

  lemma PrefixedSolid(d: Dialect, w: string, value: string, doubled: bool)
    requires (BackslashEscapes(d) ==> doubled) && Formed(d, Word(w))
    ensures Solid(d, [Word(w)] + [Literal(value, doubled)])
  {
    hide Solid, SpellAll, LiteralBody;
    LiteralSolid(d, OtherEngine, value, doubled);
    QuoteAhead(value, doubled);
    ConsSolid(d, Word(w), [Literal(value, doubled)]);
  }

  lemma HexSolid(d: Dialect, e: Engine, digits: string)
    requires HexText(digits) && Reads(d, e)
    ensures Solid(d, HexLexemes(e, digits))
  {
    hide Solid, SpellAll, LiteralBody;
    ValueWords(d);
    CastWords(d);
    if MySQLFamily(e) || e == SQLite {
      PrefixedSolid(d, "X", digits, MySQLFamily(e));
      assert [Word("X")] + [Literal(digits, MySQLFamily(e))] == HexLexemes(e, digits);
    } else if SQLServerFamily(e) {
      assert Formed(d, Word("0x" + digits));
      WordSolid(d, "0x" + digits);
    } else if e == DuckDB {
      LiteralSolid(d, e, digits, false);
      CallSolid(d, "unhex", [Literal(digits, false)]);
    } else {
      LiteralSolid(d, e, "\\x" + digits, false);
    }
  }

  lemma CastTail(d: Dialect, digits: string)
    requires d != MySQL
    ensures Solid(d, [Literal("\\x" + digits, false)] + [Mark(':'), Mark(':'), Word("bytea")])
  {
    hide Solid, SpellAll, LiteralBody;
    var x := Literal("\\x" + digits, false);
    EqualFormed(d);
    CastWords(d);
    WordSolid(d, "bytea");
    SpellOne(Word("bytea"));
    ConsSolid(d, Mark(':'), [Word("bytea")]);
    assert [Mark(':')] + [Word("bytea")] == [Mark(':'), Word("bytea")];
    SpellTwo(Mark(':'), Word("bytea"));
    ConsSolid(d, Mark(':'), [Mark(':'), Word("bytea")]);
    assert [Mark(':')] + [Mark(':'), Word("bytea")] == [Mark(':'), Mark(':'), Word("bytea")];
    SpellTail();
    ConsSolid(d, x, [Mark(':'), Mark(':'), Word("bytea")]);
  }

  lemma ValueSolid(d: Dialect, e: Engine, v: BackupValue)
    requires Encoded(v) && Reads(d, e)
    ensures Solid(d, ValueLexemes(e, v))
  {
    hide Solid, SpellAll, LiteralBody, NumberLexemes, HexText, Formed, CassandraLexemes;
    if e == Cassandra {
      CassandraSolid(d, v);
    } else {
      match v.kind
      case Null => ValueWords(d); WordSolid(d, "NULL");
      case Bool =>
        ValueWords(d);
        WordSolid(d, "TRUE"); WordSolid(d, "FALSE"); WordSolid(d, "0"); WordSolid(d, "1");
      case Num => NumberSolid(d, v.text);
      case Blob =>
        if e == PostgresEngine || e == CockroachDB {
          CastTail(d, v.text);
        } else {
          HexSolid(d, e, v.text);
        }
      case _ => TextSolid(d, e, v);
    }
  }

  lemma CassandraSolid(d: Dialect, v: BackupValue)
    requires Encoded(v) && d != MySQL
    ensures Solid(d, CassandraLexemes(v))
  {
    hide Solid, SpellAll, LiteralBody, NumberLexemes;
    ValueWords(d);
    match v.kind
    case Null => WordSolid(d, "null");
    case Bool => WordSolid(d, v.text);
    case Num => NumberSolid(d, v.text);
    case Uuid => NumberSolid(d, v.text);
    case Blob =>
      assert Formed(d, Word("0x" + v.text));
      WordSolid(d, "0x" + v.text);
    case _ => LiteralSolid(d, Cassandra, v.text, false);
  }

  lemma TextSolid(d: Dialect, e: Engine, v: BackupValue)
    requires (v.kind == Time || v.kind == Str || v.kind == Uuid) && Reads(d, e)
    ensures Solid(d, RestoreLexemes(e, v))
  {
    hide Solid, SpellAll, LiteralBody;
    var x := [Literal(v.text, MySQLFamily(e))];
    LiteralSolid(d, e, v.text, MySQLFamily(e));
    ValueWords(d);
    PrefixedSolid(d, "N", v.text, MySQLFamily(e));
    assert [] + x == x;
  }

  lemma CellSolid(d: Dialect, e: Engine, c: Cell)
    requires EncodedCell(c) && Reads(d, e)
    ensures Solid(d, CellLexemes(e, c))
  {
    hide Solid, SpellAll, ValueLexemes, Encoded, Formed, Parens;
    ValueWords(d);
    WordSolid(d, "NULL");
    WordSolid(d, "null");
    match c
    case Missing =>
    case Stored(v, variant) =>
      ValueSolid(d, e, v);
      if variant {
        CastWords(d);
        TwoWords(d, "AS", "sql_variant");
        Follow(d, ValueLexemes(e, v), AS_VARIANT);
        CallSolid(d, "CAST", ValueLexemes(e, v) + AS_VARIANT);
      }
  }

  lemma NameSolid(d: Dialect, e: Engine, name: string)
    ensures Solid(d, [Name(e, name)])
  {
    hide Solid;
    OneSolid(d, Name(e, name));
  }

  lemma TableSolid(d: Dialect, e: Engine, schema: string, table: string)
    ensures Solid(d, TableLexemes(e, schema, table))
  {
    hide Solid, SpellAll, Name;
    NameSolid(d, e, table);
    NameSolid(d, e, schema);
    if schema != "" {
      EqualFormed(d);
      NameText(e, table);
      ConsSolid(d, Mark('.'), [Name(e, table)]);
      SpellFirst(Mark('.'), [Name(e, table)]);
      assert StopsAt(SpellAll([Mark('.')] + [Name(e, table)]));
      Follow(d, [Name(e, schema)], [Mark('.')] + [Name(e, table)]);
      assert [Name(e, schema)] + ([Mark('.')] + [Name(e, table)]) == TableLexemes(e, schema, table);
    }
  }

  lemma NameText(e: Engine, name: string)
    ensures SpellAll([Name(e, name)]) != "" && SpellAll([Name(e, name)])[..1] == [OpenQuote(e)]
  {
    hide SpellAll, Double;
    SpellOne(Name(e, name));
  }

  lemma AssignmentSolid(d: Dialect, e: Engine, a: Assignment)
    requires EncodedCell(a.cell) && Reads(d, e)
    ensures Solid(d, AssignmentLexemes(e, a))
  {
    hide Solid, Open, SpellAll, CellLexemes, Name, EncodedCell, StopsAt;
    NameSolid(d, e, a.column);
    CellSolid(d, e, a.cell);
    SeparatorsOpen(d);
    Glue(d, [Name(e, a.column)], EQUALS, CellLexemes(e, a.cell));
  }

  lemma ConditionSolid(d: Dialect, e: Engine, c: Condition)
    requires EncodedCondition(c) && Reads(d, e)
    ensures Solid(d, ConditionLexemes(e, c))
  {
    hide Solid, Open, SpellAll, CellLexemes, Name, EncodedCell, StopsAt, Formed;
    match c
    case IsNull(column) =>
      NameSolid(d, e, column);
      ScopeWords(d);
      ValueWords(d);
      TwoWords(d, "IS", "NULL");
      Follow(d, [Name(e, column)], [Gap(" "), Word("IS"), Gap(" "), Word("NULL")]);
    case Equals(column, cell) => AssignmentSolid(d, e, Assignment(column, cell));
  }

  lemma RowSolid(d: Dialect, e: Engine, row: seq<Cell>)
    requires Reads(d, e) && forall j :: 0 <= j < |row| ==> EncodedCell(row[j])
    ensures Solid(d, RowLexemes(e, row))
  {
    hide Solid, Open, SpellAll, CellLexemes, EncodedCell, StopsAt, Parens, JoinLexemes, CellParts, Formed;
    forall j | 0 <= j < |row| ensures Solid(d, CellParts(e, row)[j]) {
      CellSolid(d, e, row[j]);
    }
    SeparatorsOpen(d);
    JoinSolid(d, CellParts(e, row), COMMA);
    ParensSolid(d, JoinLexemes(CellParts(e, row), COMMA));
    SpaceFormed(d);
    OneSolid(d, Gap(RowIndent(e)));
    Lead(d, [Gap(RowIndent(e))], Parens(JoinLexemes(CellParts(e, row), COMMA)));
  }
  lemma NamesSolid(d: Dialect, e: Engine, names: seq<string>)
    ensures Solid(d, JoinLexemes(NameParts(e, names), COMMA))
  {
    hide Solid, Open, SpellAll, StopsAt, JoinLexemes, NameParts, Name;
    forall i | 0 <= i < |names| ensures Solid(d, NameParts(e, names)[i]) {
      NameSolid(d, e, names[i]);
    }
    SeparatorsOpen(d);
    JoinSolid(d, NameParts(e, names), COMMA);
  }

  lemma RowsSolid(d: Dialect, e: Engine, rows: seq<seq<Cell>>)
    requires Reads(d, e) && forall i, j :: 0 <= i < |rows| && 0 <= j < |rows[i]| ==> EncodedCell(rows[i][j])
    ensures Solid(d, JoinLexemes(RowParts(e, rows), COMMA_LINE))
  {
    hide Solid, Open, SpellAll, StopsAt, JoinLexemes, RowParts, RowLexemes, EncodedCell;
    forall i | 0 <= i < |rows| ensures Solid(d, RowParts(e, rows)[i]) {
      RowSolid(d, e, rows[i]);
    }
    SeparatorsOpen(d);
    JoinSolid(d, RowParts(e, rows), COMMA_LINE);
  }

  lemma WrittenSolid(d: Dialect, e: Engine, item: Item, a: seq<Assignment>)
    requires Reads(d, e) && forall i :: 0 <= i < |a| ==> EncodedCell(a[i].cell)
    ensures Solid(d, Written(e, item, a))
  {
    hide Solid, Open, SpellAll, StopsAt, JoinLexemes, AssignmentParts, AssignmentLexemes, EncodedCell, TableLexemes, Keyword;
    forall i | 0 <= i < |a| ensures Solid(d, AssignmentParts(e, a)[i]) {
      AssignmentSolid(d, e, a[i]);
    }
    SeparatorsOpen(d);
    var list := JoinLexemes(AssignmentParts(e, a), COMMA);
    JoinSolid(d, AssignmentParts(e, a), COMMA);
    TableSolid(d, e, item.schema, item.table);
    ScopeWords(d);
    KeywordOpen(d, "SET");
    Glue(d, TableLexemes(e, item.schema, item.table), Keyword("SET"), list);
    Lead(d, UPDATE_WORD, TableLexemes(e, item.schema, item.table) + (Keyword("SET") + list));
  }

  lemma ScopeSolid(d: Dialect, e: Engine, c: seq<Condition>)
    requires Reads(d, e) && forall i :: 0 <= i < |c| ==> EncodedCondition(c[i])
    ensures Solid(d, Scope(e, c))
  {
    hide Solid, Open, SpellAll, StopsAt, JoinLexemes, ConditionParts, ConditionLexemes, EncodedCondition, Keyword;
    forall i | 0 <= i < |c| ensures Solid(d, ConditionParts(e, c)[i]) {
      ConditionSolid(d, e, c[i]);
    }
    ScopeWords(d);
    KeywordOpen(d, "AND");
    JoinSolid(d, ConditionParts(e, c), Keyword("AND"));
  }

  lemma InsertSolid(d: Dialect, e: Engine, item: Item, names: seq<string>, overriding: bool, rows: seq<seq<Cell>>)
    requires Reads(d, e) && EncodedStatement(InsertRows(names, overriding, rows))
    ensures Solid(d, StatementLexemes(e, item, InsertRows(names, overriding, rows)))
  {
    hide Solid, Open, SpellAll, StopsAt, JoinLexemes, RowParts, NameParts, TableLexemes, Keyword, Parens, EncodedStatement, EncodedCell, Formed;
    EncodedParts(InsertRows(names, overriding, rows));
    SeparatorsOpen(d);
    ValuesOpen(d, e);
    RowsSolid(d, e, rows);
    NamesSolid(d, e, names);
    TableSolid(d, e, item.schema, item.table);
    OverridingSolid(d);
    NothingIsSolid(d);
    var lines := ValuesLine(e) + JoinLexemes(RowParts(e, rows), COMMA_LINE);
    var columns := Parens(JoinLexemes(NameParts(e, names), COMMA));
    var mode := if overriding then OVERRIDING else [];
    Lead(d, ValuesLine(e), JoinLexemes(RowParts(e, rows), COMMA_LINE));
    StartsWithStop(ValuesLine(e), JoinLexemes(RowParts(e, rows), COMMA_LINE));
    Follow(d, mode, lines);
    ModeStops(mode, lines);
    ParensSolid(d, JoinLexemes(NameParts(e, names), COMMA));
    Follow(d, columns, mode + lines);
    SpaceFormed(d);
    OneSolid(d, Gap(" "));
    SpellKeywords();
    assert StopsAt(" ") by { SpaceStops(); }
    Glue(d, TableLexemes(e, item.schema, item.table), [Gap(" ")], columns + (mode + lines));
    Lead(d, INSERT_INTO, TableLexemes(e, item.schema, item.table) + ([Gap(" ")] + (columns + (mode + lines))));
  }

  lemma SpaceStops()
    ensures StopsAt(" ")
  {
  }

  lemma StartsWithStop(a: seq<Lexeme>, b: seq<Lexeme>)
    requires StopsAt(SpellAll(a)) && SpellAll(a) != ""
    ensures StopsAt(SpellAll(a + b)) && SpellAll(a + b) != ""
  {
    hide SpellAll;
    SpellConcat(a, b);
  }

  lemma ModeStops(mode: seq<Lexeme>, lines: seq<Lexeme>)
    requires mode == [] || mode == OVERRIDING
    requires StopsAt(SpellAll(lines))
    ensures StopsAt(SpellAll(mode + lines))
  {
    hide SpellAll;
    SpellOverriding();
    SpellConcat(mode, lines);
    if mode == [] {
      assert mode + lines == lines;
    }
  }

  lemma StatementSolid(d: Dialect, e: Engine, item: Item, s: Statement)
    requires Reads(d, e) && EncodedStatement(s)
    ensures Solid(d, StatementLexemes(e, item, s))
  {
    hide Solid, Open, SpellAll, StopsAt, Keyword, EncodedStatement, Written, Scope, EncodedCell, EncodedCondition;
    match s
    case InsertRows(names, overriding, rows) => InsertSolid(d, e, item, names, overriding, rows);
    case UpdateRow(a, c) =>
      EncodedParts(s);
      WrittenSolid(d, e, item, a);
      ScopeSolid(d, e, c);
      ScopeWords(d);
      KeywordOpen(d, "WHERE");
      Glue(d, Written(e, item, a), Keyword("WHERE"), Scope(e, c));
  }

  /** The tokens an undo statement is meant to have. */
  function IntendedTokens(e: Engine, item: Item, s: Statement): seq<Token>
    requires Balanced(StatementLexemes(e, item, s), 0)
  {
    TokensOf(StatementLexemes(e, item, s), 0, 0)
  }

  /** Main result: an undo statement lexes, to exactly the tokens it was built from. */
  lemma StatementLexes(d: Dialect, e: Engine, item: Item, s: Statement)
    requires Reads(d, e) && EncodedStatement(s)
    ensures Balanced(StatementLexemes(e, item, s), 0)
    ensures Readable(d, StatementLexemes(e, item, s))
    ensures Lex(d, StatementText(e, item, s)) == Ok(IntendedTokens(e, item, s))
  {
    hide Solid, SpellAll, StatementLexemes, StatementText, EncodedStatement, Readable, ReadableBefore, Balanced, Lex, TokensOf;
    var xs := StatementLexemes(e, item, s);
    StatementSolid(d, e, item, s);
    SolidAt(d, xs, "");
    ReadableBeforeNothing(d, xs);
    LexReads(d, xs);
    LexemesSpellStatement(e, item, s);
  }
}
