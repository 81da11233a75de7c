/** What the constant folder and the classifier meet in the lexemes of an undo
    statement: no word that matters to them, no semicolon, and a WHERE the folder
    leaves undecided. */
module RestoreVerdict {
  import opened Bytes
  import opened Lexer
  import opened Resplit
  import opened Folder
  import opened Formula
  import opened Classifier
  import R = Render
  import opened RowBackup
  import opened RestoreText
  import opened ReadBack
  import opened RestoreData

  // ------------------------------------------------------------------
  // Tokens that mean nothing to the guard.

  predicate CalmWord(w: string) {
    w !in ["update", "merge", "delete", "where"]
  }

  /** Not a word that could end a CQL batch. */
  predicate QuietWord(w: string) {
    w != "apply" && w != "batch"
  }

  predicate TameWord(w: string) {
    CalmWord(w) && QuietWord(w) && w != "or" && w != "and" && !Reserved(w)
  }

  predicate Calm(x: R.Lexeme) {
    x != R.Mark(';') && (x.Word? ==> CalmWord(ToLower(x.word)))
  }

  predicate Tame(x: R.Lexeme) {
    x != R.Mark(';') && (x.Word? ==> TameWord(ToLower(x.word)))
  }

  predicate CalmToken(t: Token) {
    t.text != ";" && (!t.quoted ==> CalmWord(t.lower))
  }

  predicate TameToken(t: Token) {
    t.text != ";" && (!t.quoted ==> TameWord(t.lower))
  }

  predicate Opener(c: char) {
    c == '"' || c == '`' || c == '['
  }

  predicate OpensWithQuote(text: string) {
    text != "" && Opener(text[0])
  }

  ghost predicate AllCalm(xs: seq<R.Lexeme>) {
    forall i :: 0 <= i < |xs| ==> Calm(xs[i])
  }

  ghost predicate AllTame(xs: seq<R.Lexeme>) {
    forall i :: 0 <= i < |xs| ==> Tame(xs[i])
  }

  ghost predicate NoNames(xs: seq<R.Lexeme>) {
    forall i :: 0 <= i < |xs| ==> !xs[i].Quoted?
  }

  lemma ShortWordIsTame(w: string)
    requires |w| < 2
    ensures TameWord(w)
  {
    hide Reserved;
    if Reserved(w) {
      ReservedIsFar(w);
    }
  }

  lemma TokenReads(d: Dialect, x: R.Lexeme, at: nat, depth: nat)
    requires R.Formed(d, x) && !x.Gap?
    ensures Calm(x) ==> CalmToken(R.TokenOf(x, at, depth))
    ensures Tame(x) ==> TameToken(R.TokenOf(x, at, depth))
    ensures R.TokenOf(x, at, depth).text != ""
    ensures OpensWithQuote(R.TokenOf(x, at, depth).text) <==> x.Quoted?
  {
    hide BareName, ToLower, Reserved, R.LiteralBody, R.Double;
    var t := R.TokenOf(x, at, depth);
    match x
    case Word(w) => assert R.WordByte(w[0]) && t.text[0] == w[0];
    case Quoted(_, _) => assert |t.text| >= 2;
    case Literal(_, _) => assert t.text[0] == '\''; ShortWordIsTame("?");
    case Mark(c) => assert t.text == [c] && t.text[0] == c; ShortWordIsTame([c]);
  }

  lemma {:induction false} TokensRead(d: Dialect, xs: seq<R.Lexeme>, at: nat, depth: nat)
    requires AllFormed(d, xs) && R.Balanced(xs, depth)
    ensures AllCalm(xs) ==> forall t :: t in R.TokensOf(xs, at, depth) ==> CalmToken(t)
    ensures AllTame(xs) ==> forall t :: t in R.TokensOf(xs, at, depth) ==> TameToken(t)
    ensures NoNames(xs) ==> forall t :: t in R.TokensOf(xs, at, depth) ==> t.text != "" && !OpensWithQuote(t.text)
    decreases |xs|
  {
    hide R.Spell, R.Formed, CalmToken, TameToken, OpensWithQuote, Calm, Tame, R.TokenOf;
    if xs != [] {
      TokensRead(d, xs[1..], at + |R.Spell(xs[0])|, R.Advance(xs[0], depth));
      if !xs[0].Gap? {
        TokenReads(d, xs[0], at, R.Outside(xs[0], depth));
      }
    }
  }

  // ------------------------------------------------------------------
  // The words of an undo statement.

  lemma NullIsTame()
    ensures TameWord("null")
  {
  }

  lemma TrueIsTame()
    ensures TameWord("true")
  {
  }

  lemma FalseIsTame()
    ensures TameWord("false")
  {
  }

  lemma CastIsTame()
    ensures TameWord("cast")
  {
  }

  lemma AsIsTame()
    ensures TameWord("as")
  {
  }

  lemma IsIsTame()
    ensures TameWord("is")
  {
  }

  lemma UnhexIsTame()
    ensures TameWord("unhex")
  {
  }

  lemma ByteaIsTame()
    ensures TameWord("bytea")
  {
  }

  lemma SqlVariantIsTame()
    ensures TameWord("sql_variant")
  {
  }

  lemma LowerCase()
    ensures ToLower("NULL") == "null" && ToLower("TRUE") == "true" && ToLower("FALSE") == "false"
    ensures ToLower("CAST") == "cast" && ToLower("AS") == "as" && ToLower("IS") == "is"
    ensures ToLower("unhex") == "unhex" && ToLower("bytea") == "bytea" && ToLower("sql_variant") == "sql_variant"
  {
    assert ToLower("NULL") == ['n', 'u', 'l', 'l'];
    assert ToLower("TRUE") == ['t', 'r', 'u', 'e'];
    assert ToLower("FALSE") == ['f', 'a', 'l', 's', 'e'];
    assert ToLower("CAST") == ['c', 'a', 's', 't'];
    assert ToLower("AS") == ['a', 's'];
    assert ToLower("IS") == ['i', 's'];
    assert ToLower("unhex") == ['u', 'n', 'h', 'e', 'x'];
    assert ToLower("bytea") == ['b', 'y', 't', 'e', 'a'];
    assert ToLower("sql_variant") == ['s', 'q', 'l', '_', 'v', 'a', 'r', 'i', 'a', 'n', 't'];
  }

  lemma LettersAreTame()
    ensures TameWord(ToLower("0")) && TameWord(ToLower("1")) && TameWord(ToLower("N")) && TameWord(ToLower("X"))
  {
    hide TameWord;
    ShortWordIsTame(ToLower("0"));
    ShortWordIsTame(ToLower("1"));
    ShortWordIsTame(ToLower("N"));
    ShortWordIsTame(ToLower("X"));
  }

  lemma ValueWordsAreTame()
    ensures TameWord(ToLower("NULL")) && TameWord(ToLower("TRUE")) && TameWord(ToLower("FALSE")) && TameWord(ToLower("CAST"))
    ensures TameWord(ToLower("AS")) && TameWord(ToLower("IS")) && TameWord(ToLower("unhex")) && TameWord(ToLower("bytea"))
    ensures TameWord(ToLower("sql_variant"))
    ensures TameWord(ToLower("0")) && TameWord(ToLower("1")) && TameWord(ToLower("N")) && TameWord(ToLower("X"))
  {
    hide TameWord, ToLower;
    LowerCase();
    NullIsTame();
    TrueIsTame();
    FalseIsTame();
    CastIsTame();
    AsIsTame();
    IsIsTame();
    UnhexIsTame();
    ByteaIsTame();
    SqlVariantIsTame();
    LettersAreTame();
  }

  lemma LowerWordsAreTame()
    ensures TameWord(ToLower("null")) && TameWord(ToLower("true")) && TameWord(ToLower("false"))
  {
    hide TameWord;
    assert ToLower("null") == "null" && ToLower("true") == "true" && ToLower("false") == "false";
    NullIsTame();
    TrueIsTame();
    FalseIsTame();
  }

  lemma StatementWords()
    ensures ToLower("SET") == "set" && ToLower("WHERE") == "where" && ToLower("AND") == "and" && ToLower("UPDATE") == "update"
    ensures ToLower("INSERT") == "insert" && ToLower("INTO") == "into" && CalmWord(ToLower("VALUES"))
    ensures CalmWord(ToLower("OVERRIDING")) && CalmWord(ToLower("SYSTEM")) && CalmWord(ToLower("VALUE"))
  {
    assert ToLower("SET") == ['s', 'e', 't'];
    assert ToLower("WHERE") == ['w', 'h', 'e', 'r', 'e'];
    assert ToLower("AND") == ['a', 'n', 'd'];
    assert ToLower("UPDATE") == ['u', 'p', 'd', 'a', 't', 'e'];
    assert ToLower("INSERT") == ['i', 'n', 's', 'e', 'r', 't'];
    assert ToLower("INTO") == ['i', 'n', 't', 'o'];
    assert ToLower("VALUES")[0] == 'v';
    assert ToLower("OVERRIDING")[0] == 'o';
    assert ToLower("SYSTEM")[0] == 's';
    assert ToLower("VALUE")[0] == 'v';
  }

  lemma DigitWordIsTame(w: string)
    requires w != "" && Digit(w[0])
    ensures TameWord(ToLower(w))
  {
    assert ToLower(w)[0] == w[0];
  }

  /** A number's word starts with a digit, and no mark in it ends a statement. */
  lemma NumberStart(s: string)
    requires NumberTail(s) && s != ""
    ensures if R.WordByte(s[0]) then Digit(s[0]) else s[0] != ';'
  {
    assert NumberByte(s[0]);
  }

  lemma NumberTails(s: string, n: nat)
    requires NumberTail(s) && 0 < n <= |s| && (n == |s| || !R.WordByte(s[n]) || !R.WordByte(s[n - 1]))
    ensures NumberTail(s[n..])
  {
  }

  lemma {:induction false} NumberIsTame(s: string)
    requires NumberTail(s)
    ensures AllTame(NumberLexemes(s)) && NoNames(NumberLexemes(s))
    decreases |s|
  {
    hide TameWord, ToLower, NumberTail;
    if s == "" {
    } else {
      NumberStart(s);
      if R.WordByte(s[0]) {
        var n := WordEnd(s, 1);
        NumberTails(s, n);
        NumberIsTame(s[n..]);
        DigitWordIsTame(s[..n]);
      } else {
        NumberTails(s, 1);
        NumberIsTame(s[1..]);
      }
    }
  }

  lemma HexIsTame(e: Engine, digits: string)
    ensures AllTame(HexLexemes(e, digits)) && NoNames(HexLexemes(e, digits))
  {
    hide TameWord, ToLower;
    ValueWordsAreTame();
    DigitWordIsTame("0x" + digits);
  }

  /** A letter past 'f' among the first three. */
  predicate FarLetter(w: string) {
    |w| >= 2 && (w[0] > 'f' || w[1] > 'f' || (|w| >= 3 && w[2] > 'f'))
  }

  lemma TableWordIsFar(w: string)
    requires TableWord(w)
    ensures FarLetter(w)
  {
  }

  lemma ClauseWordIsFar(w: string)
    requires ClauseWord(w)
    ensures FarLetter(w)
  {
  }

  lemma OptionWordIsFar(w: string)
    requires OptionWord(w)
    ensures FarLetter(w)
  {
  }

  lemma ReservedIsFar(w: string)
    requires Reserved(w)
    ensures FarLetter(w)
  {
    hide TableWord, ClauseWord, OptionWord, FarLetter;
    if TableWord(w) {
      TableWordIsFar(w);
    } else if ClauseWord(w) {
      ClauseWordIsFar(w);
    } else {
      OptionWordIsFar(w);
    }
  }

  lemma VerbIsFar(w: string)
    requires !CalmWord(w) || !QuietWord(w) || w == "or" || w == "and"
    ensures FarLetter(w)
  {
  }

  lemma HexWordIsTame(w: string)
    requires forall i :: 0 <= i < |w| ==> HexDigit(w[i])
    ensures TameWord(ToLower(w))
  {
    hide Reserved, CalmWord;
    assert ToLower(w) == w;
    if Reserved(w) {
      ReservedIsFar(w);
      assert false;
    }
    if !CalmWord(w) || !QuietWord(w) || w == "or" || w == "and" {
      VerbIsFar(w);
      assert false;
    }
  }

  lemma {:induction false} UuidIsTame(s: string)
    requires forall i :: 0 <= i < |s| ==> HexDigit(s[i]) || s[i] == '-'
    ensures AllTame(NumberLexemes(s)) && NoNames(NumberLexemes(s))
    decreases |s|
  {
    hide TameWord, ToLower;
    if s == "" {
    } else if R.WordByte(s[0]) {
      var n := WordEnd(s, 1);
      UuidIsTame(s[n..]);
      HexWordIsTame(s[..n]);
    } else {
      UuidIsTame(s[1..]);
    }
  }

  lemma RestoredIsTame(e: Engine, v: BackupValue)
    requires Encoded(v)
    ensures AllTame(RestoreLexemes(e, v)) && NoNames(RestoreLexemes(e, v))
  {
    hide TameWord, ToLower, NumberLexemes, HexLexemes, NumberTail, HexText, UuidText;
    match v.kind
    case Num => NumberIsTame(v.text);
    case Blob =>
      HexIsTame(e, v.text);
      ValueWordsAreTame();
    case _ => ValueWordsAreTame();
  }

  lemma ValueIsTame(e: Engine, v: BackupValue)
    requires Encoded(v)
    ensures AllTame(ValueLexemes(e, v)) && NoNames(ValueLexemes(e, v))
  {
    hide TameWord, ToLower, RestoreLexemes, CassandraLexemes, Encoded, AllTame, NoNames;
    if e == Cassandra {
      CassandraIsTame(v);
    } else {
      RestoredIsTame(e, v);
    }
  }

  lemma CassandraIsTame(v: BackupValue)
    requires Encoded(v)
    ensures AllTame(CassandraLexemes(v)) && NoNames(CassandraLexemes(v))
  {
    hide TameWord, ToLower, NumberLexemes;
    LowerWordsAreTame();
    DigitWordIsTame("0x" + v.text);
    match v.kind
    case Num => NumberIsTame(v.text);
    case Uuid => UuidIsTame(v.text);
    case _ =>
  }

  lemma CellIsTame(e: Engine, c: Cell)
    requires EncodedCell(c)
    ensures AllTame(CellLexemes(e, c)) && NoNames(CellLexemes(e, c))
  {
    hide TameWord, ToLower, ValueLexemes, Encoded;
    ValueWordsAreTame();
    LowerWordsAreTame();
    if c.Stored? {
      ValueIsTame(e, c.value);
    }
  }

  lemma ConditionIsTame(e: Engine, c: Condition)
    requires EncodedCondition(c)
    ensures AllTame(ConditionLexemes(e, c))
  {
    hide TameWord, ToLower, CellLexemes, EncodedCell;
    ValueWordsAreTame();
    if c.Equals? {
      CellIsTame(e, c.cell);
    }
  }

  lemma TameIsCalm(xs: seq<R.Lexeme>)
    requires AllTame(xs)
    ensures AllCalm(xs)
  {
    hide CalmWord, Reserved, ToLower;
  }

  lemma {:induction false} JoinIsCalm(parts: seq<seq<R.Lexeme>>, separator: seq<R.Lexeme>)
    requires AllCalm(separator) && forall i :: 0 <= i < |parts| ==> AllCalm(parts[i])
    ensures AllCalm(JoinLexemes(parts, separator))
    decreases |parts|
  {
    hide Calm;
    if |parts| > 1 {
      JoinIsCalm(parts[1..], separator);
    }
  }

  lemma FixedAreCalm()
    ensures AllCalm(COMMA) && AllCalm(COMMA_LINE) && AllCalm(EQUALS) && AllCalm(Keyword("SET")) && AllCalm(Keyword("AND"))
    ensures AllCalm(OVERRIDING)
  {
    hide ToLower;
    StatementWords();
  }

  lemma TableIsCalm(e: Engine, schema: string, table: string)
    ensures AllCalm(TableLexemes(e, schema, table))
  {
  }

  // ------------------------------------------------------------------
  // A condition decides nothing.

  /** No number is spelled with an opening quote. */
  ghost predicate ReadsNumbers(number: Numbers) {
    forall text :: OpensWithQuote(text) ==> number(text).None?
  }

  lemma NeverEqual(a: string, b: string)
    requires OpensWithQuote(a) && b != "" && !OpensWithQuote(b)
    ensures !EqualFold(a, b)
  {
    assert ToLower(a)[0] == a[0] && ToLower(b)[0] == LowerByte(b[0]);
  }

  lemma LeafIsUnknown(number: Numbers, ts: seq<Token>)
    requires ReadsNumbers(number) && |ts| >= 3 && OpensWithQuote(ts[0].text)
    requires ts[1].text == "=" || (|ts| == 3 && ts[1].text == "IS")
    requires ts[2].text != "" && !OpensWithQuote(ts[2].text)
    ensures Leaf(number, ts) == Unknown
  {
    hide EqualFold;
    NeverEqual(ts[0].text, ts[2].text);
    assert number(ts[0].text).None?;
    if |ts| == 4 {
      var op := ts[1].text + ts[2].text;
      assert op[0] == '=';
    }
  }

  lemma TameIsNoJoin(t: Token)
    requires TameToken(t)
    ensures !t.Keyword("or") && !t.Keyword("and")
  {
  }

  lemma NoJoin(ts: seq<Token>)
    requires forall t :: t in ts ==> TameToken(t)
    ensures !HasOp(ts, 0, "or") && !HasOp(ts, 0, "and")
  {
    hide TameToken, HasOp;
    forall k | 0 <= k < |ts| ensures !ts[k].Keyword("or") && !ts[k].Keyword("and") {
      TameIsNoJoin(ts[k]);
    }
    FreeHasNoOp(ts, 0, "or");
    FreeHasNoOp(ts, 0, "and");
  }

  lemma ConditionIsUnknown(number: Numbers, ts: seq<Token>)
    requires ReadsNumbers(number) && |ts| >= 3 && OpensWithQuote(ts[0].text) && ts[0].quoted && ts[0].depth == 0
    requires ts[1].text == "=" || (|ts| == 3 && ts[1].text == "IS")
    requires ts[2].text != "" && !OpensWithQuote(ts[2].text)
    requires forall t :: t in ts ==> TameToken(t)
    ensures Fold(number, ts) == Unknown && FoldBy(number, ts, 0, "and") == Unknown
  {
    hide Fold, HasOp, Leaf, TameToken, FoldOperands;
    LeafIsUnknown(number, ts);
    NoJoin(ts);
    assert !WrapsAll(ts);
    FoldCases(number, ts, 0);
  }

  /** What the folder needs to know of a WHERE clause. */
  ghost predicate Undecided(number: Numbers, ts: seq<Token>) {
    && ts != [] && ts[0].depth == 0 && ts[0].text != "("
    && (forall t :: t in ts ==> t.text != ";" && (!t.quoted ==> CalmWord(t.lower) && t.lower != "or" && !Reserved(t.lower)))
    && FoldBy(number, ts, 0, "and") == Unknown
  }

  lemma ConditionTokens(number: Numbers, d: Dialect, e: Engine, c: Condition, at: nat)
    requires ReadsNumbers(number) && Reads(d, e) && EncodedCondition(c)
    ensures R.Balanced(ConditionLexemes(e, c), 0)
    ensures var ts := R.TokensOf(ConditionLexemes(e, c), at, 0); Undecided(number, ts) && Fold(number, ts) == Unknown
  {
    hide Fold, FoldBy, R.Readable, R.Balanced, TameToken, Solid, OpensWithQuote, R.TokensOf, ConditionLexemes, AllTame, EncodedCondition;
    var xs := ConditionLexemes(e, c);
    ConditionSolid(d, e, c);
    SolidAt(d, xs, "");
    R.ReadableBeforeNothing(d, xs);
    ReadableIsFormed(d, xs);
    ConditionIsTame(e, c);
    TokensRead(d, xs, at, 0);
    var ts := R.TokensOf(xs, at, 0);
    ConditionShape(d, e, c, at);
    ConditionIsUnknown(number, ts);
    forall t | t in ts ensures t.text != ";" && (!t.quoted ==> CalmWord(t.lower) && t.lower != "or" && !Reserved(t.lower)) {
      assert TameToken(t) by { assert t in ts; }
      TameTokenMeans(t);
    }
    QuoteIsNoParen(ts[0].text);
  }

  lemma QuoteIsNoParen(text: string)
    requires OpensWithQuote(text)
    ensures text != "("
  {
  }

  lemma TameTokenMeans(t: Token)
    requires TameToken(t)
    ensures t.text != ";" && (!t.quoted ==> CalmWord(t.lower) && t.lower != "or" && !Reserved(t.lower))
  {
  }

  /** Quoted column, then "=" and a value or "IS NULL". */
  lemma ConditionShape(d: Dialect, e: Engine, c: Condition, at: nat)
    requires Reads(d, e) && EncodedCondition(c) && R.Balanced(ConditionLexemes(e, c), 0) && AllFormed(d, ConditionLexemes(e, c))
    ensures var ts := R.TokensOf(ConditionLexemes(e, c), at, 0);
            && |ts| >= 3 && OpensWithQuote(ts[0].text) && ts[0].quoted && ts[0].depth == 0
            && (ts[1].text == "=" || (|ts| == 3 && ts[1].text == "IS"))
            && ts[2].text != "" && !OpensWithQuote(ts[2].text)
  {
    hide R.Formed, EncodedCell, CellLexemes, R.Double, R.LowerOf, Solid, OpensWithQuote;
    var xs, name := ConditionLexemes(e, c), Name(e, c.column);
    var at1 := at + |R.Spell(name)|;
    assert xs[0] == name;
    TokenReads(d, name, at, 0) by { assert R.Formed(d, xs[0]); }
    match c
    case IsNull(_) =>
      var rest := [R.Gap(" "), R.Word("IS"), R.Gap(" "), R.Word("NULL")];
      assert xs[1..] == rest;
      IsNullTokens(at1);
    case Equals(_, cell) =>
      var value := CellLexemes(e, cell);
      assert xs[1..] == EQUALS + value;
      CellTokens(d, e, cell, at1);
  }

  lemma TokensSkip(x: R.Lexeme, xs: seq<R.Lexeme>, at: nat)
    requires x.Gap? && R.Balanced(xs, 0)
    ensures R.Balanced([x] + xs, 0) && R.TokensOf([x] + xs, at, 0) == R.TokensOf(xs, at + |R.Spell(x)|, 0)
  {
    hide R.Spell;
    var rest := R.TokensOf(xs, at + |R.Spell(x)|, 0);
    assert ([x] + xs)[1..] == xs && [] + rest == rest;
  }

  lemma TokensTake(x: R.Lexeme, xs: seq<R.Lexeme>, at: nat)
    requires !x.Gap? && !R.Opens(x) && !R.Closes(x) && R.Balanced(xs, 0)
    ensures R.Balanced([x] + xs, 0)
    ensures R.TokensOf([x] + xs, at, 0) == [R.TokenOf(x, at, 0)] + R.TokensOf(xs, at + |R.Spell(x)|, 0)
  {
    hide R.Spell, R.TokenOf;
    assert ([x] + xs)[1..] == xs;
  }

  lemma TokensEnd(x: R.Lexeme, at: nat)
    requires !R.Opens(x) && !R.Closes(x)
    ensures R.Balanced([x], 0)
    ensures R.TokensOf([x], at, 0) == if x.Gap? then [] else [R.TokenOf(x, at, 0)]
  {
    hide R.Spell, R.TokenOf;
    assert [x][1..] == [];
  }

  lemma IsNullTokens(at: nat)
    ensures R.Balanced([R.Gap(" "), R.Word("IS"), R.Gap(" "), R.Word("NULL")], 0)
    ensures var ts := R.TokensOf([R.Gap(" "), R.Word("IS"), R.Gap(" "), R.Word("NULL")], at, 0);
            |ts| == 2 && ts[0].text == "IS" && ts[1].text == "NULL" && !OpensWithQuote("NULL")
  {
    hide ToLower, R.TokensOf, R.Balanced;
    TokensEnd(R.Word("NULL"), at + 4);
    TokensSkip(R.Gap(" "), [R.Word("NULL")], at + 3);
    assert [R.Gap(" ")] + [R.Word("NULL")] == [R.Gap(" "), R.Word("NULL")];
    TokensTake(R.Word("IS"), [R.Gap(" "), R.Word("NULL")], at + 1);
    assert [R.Word("IS")] + [R.Gap(" "), R.Word("NULL")] == [R.Word("IS"), R.Gap(" "), R.Word("NULL")];
    TokensSkip(R.Gap(" "), [R.Word("IS"), R.Gap(" "), R.Word("NULL")], at);
    assert [R.Gap(" ")] + [R.Word("IS"), R.Gap(" "), R.Word("NULL")] == [R.Gap(" "), R.Word("IS"), R.Gap(" "), R.Word("NULL")];
  }

  /** A keyword between two spaces is one token. */
  lemma KeywordTokens(word: string, at: nat)
    ensures R.Balanced(Keyword(word), 0)
    ensures R.TokensOf(Keyword(word), at, 0) == [R.TokenOf(R.Word(word), at + 1, 0)]
  {
    hide ToLower, R.TokensOf, R.Balanced;
    SpacedTokens(R.Word(word), at);
  }

  lemma SpacedTokens(x: R.Lexeme, at: nat)
    requires !x.Gap? && !R.Opens(x) && !R.Closes(x)
    ensures R.Balanced([R.Gap(" "), x, R.Gap(" ")], 0)
    ensures R.TokensOf([R.Gap(" "), x, R.Gap(" ")], at, 0) == [R.TokenOf(x, at + 1, 0)]
  {
    hide R.TokensOf, R.Balanced, R.TokenOf;
    TokensEnd(R.Gap(" "), at + 1 + |R.Spell(x)|);
    TokensTake(x, [R.Gap(" ")], at + 1);
    assert [x] + [R.Gap(" ")] == [x, R.Gap(" ")];
    TokensSkip(R.Gap(" "), [x, R.Gap(" ")], at);
    assert [R.Gap(" ")] + [x, R.Gap(" ")] == [R.Gap(" "), x, R.Gap(" ")];
    assert [R.TokenOf(x, at + 1, 0)] + [] == [R.TokenOf(x, at + 1, 0)];
  }

  lemma CellTokens(d: Dialect, e: Engine, cell: Cell, at: nat)
    requires Reads(d, e) && EncodedCell(cell)
    ensures R.Balanced(EQUALS + CellLexemes(e, cell), 0)
    ensures var ts := R.TokensOf(EQUALS + CellLexemes(e, cell), at, 0);
            |ts| >= 2 && ts[0].text == "=" && ts[1].text != "" && !OpensWithQuote(ts[1].text)
  {
    hide CellLexemes, EncodedCell, R.Spell, R.TokenOf, Solid, OpensWithQuote, R.Readable, AllTame, NoNames;
    var xs := CellLexemes(e, cell);
    CellSolid(d, e, cell);
    SolidAt(d, xs, "");
    R.ReadableBeforeNothing(d, xs);
    ReadableIsFormed(d, xs);
    CellIsTame(e, cell);
    CellStarts(e, cell);
    EqualTokens(at);
    R.TokensConcat(EQUALS, xs, at, 0);
    var rest := R.TokensOf(xs, at + |R.SpellAll(EQUALS)|, 0);
    TokensRead(d, xs, at + |R.SpellAll(EQUALS)|, 0);
    assert rest != [] && rest[0] in rest;
  }

  lemma EqualTokens(at: nat)
    ensures R.Balanced(EQUALS, 0)
    ensures |R.TokensOf(EQUALS, at, 0)| == 1 && R.TokensOf(EQUALS, at, 0)[0].text == "="
  {
    hide R.TokensOf, R.Balanced;
    SpacedTokens(R.Mark('='), at);
  }

  lemma ValueStarts(e: Engine, v: BackupValue)
    requires Encoded(v)
    ensures ValueLexemes(e, v) != [] && !ValueLexemes(e, v)[0].Gap?
  {
    hide NumberTail, HexText, HexDigit, WordEnd, R.WordByte, HexLiteral, PostgresFamily, MySQLFamily, SQLServerFamily;
  }

  lemma CellStarts(e: Engine, c: Cell)
    requires EncodedCell(c)
    ensures CellLexemes(e, c) != [] && !CellLexemes(e, c)[0].Gap?
  {
    hide Encoded, ValueLexemes;
    if c.Stored? {
      ValueStarts(e, c.value);
    }
  }

  // ------------------------------------------------------------------
  // The whole WHERE clause.

  /** Two undecided sides joined by AND stay undecided. */
  lemma JoinUndecided(number: Numbers, a: seq<Token>, t: Token, b: seq<Token>)
    requires Undecided(number, a) && Fold(number, a) == Unknown && Undecided(number, b)
    requires t.depth == 0 && t.Keyword("and") && t.text == "AND"
    ensures Undecided(number, a + [t] + b)
  {
    hide Fold, FoldOperands, HasOp, Reserved;
    var ts := a + [t] + b;
    FoldJoin(number, a, t, b, 0, "and", 0);
    if HasOp(a, 0, "and") {
      assert FoldBy(number, a, 0, "and") == Unknown;
    }
    AndIsPlain();
    assert ts[0] == a[0];
    forall u | u in ts ensures u.text != ";" && (!u.quoted ==> CalmWord(u.lower) && u.lower != "or" && !Reserved(u.lower)) {
      assert u in a || u == t || u in b;
    }
  }

  lemma AndIsPlain()
    ensures !Reserved("and") && CalmWord("and")
  {
  }

  lemma {:induction false} ScopeTokens(number: Numbers, d: Dialect, e: Engine, cs: seq<Condition>, at: nat)
    requires ReadsNumbers(number) && Reads(d, e) && cs != [] && forall i :: 0 <= i < |cs| ==> EncodedCondition(cs[i])
    ensures R.Balanced(Scope(e, cs), 0) && Undecided(number, R.TokensOf(Scope(e, cs), at, 0))
    decreases |cs|
  {
    hide Undecided, Fold, R.TokensOf, R.Balanced, ConditionLexemes, EncodedCondition, Keyword, ReadsNumbers, R.SpellAll;
    var first := ConditionLexemes(e, cs[0]);
    ConditionTokens(number, d, e, cs[0], at);
    ScopeStep(e, cs);
    if |cs| > 1 {
      var rest, link := Scope(e, cs[1..]), Keyword("AND");
      var at1 := at + |R.SpellAll(first)|;
      var at2 := at1 + |R.SpellAll(link)|;
      ScopeTokens(number, d, e, cs[1..], at2);
      KeywordTokens("AND", at1);
      R.TokensConcat(link, rest, at1, 0);
      R.TokensConcat(first, link + rest, at, 0);
      var a, t, b := R.TokensOf(first, at, 0), R.TokenOf(R.Word("AND"), at1 + 1, 0), R.TokensOf(rest, at2, 0);
      AndToken(at1 + 1);
      JoinUndecided(number, a, t, b);
      assert a + ([t] + b) == a + [t] + b;
    }
  }

  lemma AndToken(at: nat)
    ensures var t := R.TokenOf(R.Word("AND"), at, 0); t.depth == 0 && t.Keyword("and") && t.text == "AND"
  {
    hide ToLower;
    StatementWords();
  }

  lemma ScopeStep(e: Engine, cs: seq<Condition>)
    requires cs != []
    ensures Scope(e, cs) == if |cs| == 1 then ConditionLexemes(e, cs[0]) else ConditionLexemes(e, cs[0]) + (Keyword("AND") + Scope(e, cs[1..]))
  {
    hide ConditionLexemes, Keyword;
    var parts := ConditionParts(e, cs);
    assert parts[1..] == ConditionParts(e, cs[1..]);
    if |cs| > 1 {
      assert parts[0] + Keyword("AND") + JoinLexemes(parts[1..], Keyword("AND")) == parts[0] + (Keyword("AND") + JoinLexemes(parts[1..], Keyword("AND")));
    }
  }

  /** An undecided clause is not always true. */
  lemma UndecidedIsNotTrue(number: Numbers, ts: seq<Token>)
    requires Undecided(number, ts)
    ensures !AlwaysTrue(number, ts)
  {
    hide Fold, FoldOperands, Reserved, CalmWord, HasOp;
    forall k | 0 <= k < |ts| ensures !ts[k].Keyword("or") {
      assert ts[k] in ts;
    }
    FreeHasNoOp(ts, 0, "or");
    FoldCases(number, ts, 0);
  }

  // ------------------------------------------------------------------
  // UPDATE ... WHERE ... as the guard reads it.

  lemma {:induction false} WhereFound(ts: seq<Token>, i: nat, w: nat)
    requires i <= w < |ts| && ts[w].depth == 0 && ts[w].Keyword("where")
    requires forall k :: i <= k < w ==> !ts[k].Keyword("where")
    ensures WhereOf(ts, 0, i) == w
    decreases w - i
  {
    if i < w {
      WhereFound(ts, i + 1, w);
    }
  }

  lemma {:induction false} ClauseRuns(ts: seq<Token>, i: nat)
    requires i <= |ts| && forall k :: i <= k < |ts| ==> !ReservedWord(ts[k])
    ensures ClauseEnd(ts, 0, i) == |ts|
    decreases |ts| - i
  {
    hide ReservedWord;
    if i < |ts| {
      ClauseRuns(ts, i + 1);
    }
  }

  lemma UpdateReads(number: Numbers, a: seq<Token>, w: Token, c: seq<Token>)
    requires a != [] && a[0].Keyword("update") && a[0].depth == 0
    requires forall k :: 0 < k < |a| ==> CalmToken(a[k])
    requires w.Keyword("where") && w.depth == 0 && Undecided(number, c)
    ensures WritesHaveEffectiveWhere(number, a + [w] + c)
  {
    hide Fold, FoldBy, Reserved, AlwaysTrue, ClauseEnd, WhereOf;
    var ts, n := a + [w] + c, |a|;
    assert ts[0] == a[0] && ts[n] == w && ts[n + 1..] == c;
    forall k | 0 < k < |ts| ensures !WritesRows(ts, k) && (k < n ==> !ts[k].Keyword("where")) && (k > n ==> !ReservedWord(ts[k])) {
      if k < n {
        assert ts[k] == a[k];
      } else if k > n {
        assert ts[k] == c[k - n - 1] && c[k - n - 1] in c;
      }
    }
    assert WritesRows(ts, 0);
    WhereFound(ts, 1, n);
    ClauseRuns(ts, n + 1);
    UndecidedIsNotTrue(number, c);
    assert ts[n + 1..|ts|] == ts[n + 1..];
  }

  lemma WrittenTokens(d: Dialect, e: Engine, item: Item, a: seq<Assignment>)
    requires Reads(d, e) && forall i :: 0 <= i < |a| ==> EncodedCell(a[i].cell)
    ensures R.Balanced(Written(e, item, a), 0)
    ensures var ts := R.TokensOf(Written(e, item, a), 0, 0);
            && |ts| >= 2 && ts[0].Keyword("update") && ts[0].text == "UPDATE" && ts[0].depth == 0 && OpensWithQuote(ts[1].text)
            && forall k :: 0 < k < |ts| ==> CalmToken(ts[k])
  {
    hide R.TokensOf, R.Balanced, R.Readable, R.SpellAll, Solid, AllCalm, AllFormed, JoinLexemes, AssignmentParts, TableLexemes, Keyword, EncodedCell,
         ToLower, CalmToken, OpensWithQuote, R.Spell, R.LowerOf;
    var table := TableLexemes(e, item.schema, item.table);
    var list := JoinLexemes(AssignmentParts(e, a), COMMA);
    var tail := Keyword("SET") + list;
    var rest := [R.Gap(" ")] + (table + tail);
    assert UPDATE_WORD + (table + tail) == [R.Word("UPDATE")] + rest;
    WrittenSolid(d, e, item, a);
    SolidAt(d, Written(e, item, a), "");
    R.ReadableBeforeNothing(d, Written(e, item, a));
    ReadableIsFormed(d, Written(e, item, a));
    FormedRest(d, R.Word("UPDATE"), rest);
    RestBalanced(R.Word("UPDATE"), rest);
    TokensTake(R.Word("UPDATE"), rest, 0);
    RestIsCalm(e, item, a);
    var at := |R.Spell(R.Word("UPDATE"))|;
    TokensRead(d, rest, at, 0);
    TableStarts(e, item, tail, at);
    UpdateToken();
    var after := R.TokensOf(rest, at, 0);
    forall k | 0 < k < |[R.TokenOf(R.Word("UPDATE"), 0, 0)] + after| ensures CalmToken(([R.TokenOf(R.Word("UPDATE"), 0, 0)] + after)[k]) {
      assert after[k - 1] in after;
    }
  }

  lemma UpdateToken()
    ensures var t := R.TokenOf(R.Word("UPDATE"), 0, 0); t.Keyword("update") && t.text == "UPDATE" && t.depth == 0
  {
    hide ToLower;
    StatementWords();
  }

  lemma FormedRest(d: Dialect, x: R.Lexeme, xs: seq<R.Lexeme>)
    requires AllFormed(d, [x] + xs)
    ensures AllFormed(d, xs)
  {
    hide R.Formed;
    forall i | 0 <= i < |xs| ensures R.Formed(d, xs[i]) {
      assert xs[i] == ([x] + xs)[i + 1];
    }
  }

  lemma RestBalanced(x: R.Lexeme, xs: seq<R.Lexeme>)
    requires R.Balanced([x] + xs, 0) && !R.Opens(x) && !R.Closes(x)
    ensures R.Balanced(xs, 0)
  {
    assert ([x] + xs)[1..] == xs;
  }

  lemma RestIsCalm(e: Engine, item: Item, a: seq<Assignment>)
    requires forall i :: 0 <= i < |a| ==> EncodedCell(a[i].cell)
    ensures AllCalm([R.Gap(" ")] + (TableLexemes(e, item.schema, item.table) + (Keyword("SET") + JoinLexemes(AssignmentParts(e, a), COMMA))))
  {
    hide JoinLexemes, AssignmentParts, TableLexemes, EncodedCell, Calm, Keyword;
    FixedAreCalm();
    TableIsCalm(e, item.schema, item.table);
    forall i | 0 <= i < |a| ensures AllCalm(AssignmentParts(e, a)[i]) {
      AssignmentIsCalm(e, a[i]);
    }
    JoinIsCalm(AssignmentParts(e, a), COMMA);
    assert Calm(R.Gap(" ")) by { GapIsCalm(); }
  }

  lemma GapIsCalm()
    ensures Calm(R.Gap(" "))
  {
  }

  lemma AssignmentIsCalm(e: Engine, a: Assignment)
    requires EncodedCell(a.cell)
    ensures AllCalm(AssignmentLexemes(e, a))
  {
    hide EncodedCell, CellLexemes, AllTame, ToLower, CalmWord;
    FixedAreCalm();
    CellIsTame(e, a.cell);
    TameIsCalm(CellLexemes(e, a.cell));
  }

  /** After one gap comes the table's name. */
  lemma TableStarts(e: Engine, item: Item, tail: seq<R.Lexeme>, at: nat)
    requires R.Balanced([R.Gap(" ")] + (TableLexemes(e, item.schema, item.table) + tail), 0)
    ensures var ts := R.TokensOf([R.Gap(" ")] + (TableLexemes(e, item.schema, item.table) + tail), at, 0);
            |ts| > 0 && OpensWithQuote(ts[0].text)
  {
    hide R.TokensOf, R.Balanced, R.Spell, R.LowerOf;
    var table := TableLexemes(e, item.schema, item.table);
    var first := table[0];
    var more := table[1..] + tail;
    assert table + tail == [first] + more;
    RestBalanced(R.Gap(" "), table + tail);
    TokensSkip(R.Gap(" "), table + tail, at);
    RestBalanced(first, more);
    TokensTake(first, more, at + |R.Spell(R.Gap(" "))|);
    NameOpens(e, if item.schema != "" then item.schema else item.table);
  }

  lemma NameOpens(e: Engine, name: string)
    ensures OpensWithQuote(R.Spell(Name(e, name)))
  {
  }

  lemma WhereToken(at: nat)
    ensures var t := R.TokenOf(R.Word("WHERE"), at, 0); t.Keyword("where") && t.depth == 0 && t.text == "WHERE"
  {
    hide ToLower;
    StatementWords();
  }

  /** What the classifier finds in an undo UPDATE. */
  ghost predicate ReadsAsUpdate(number: Numbers, ts: seq<Token>) {
    && |ts| >= 2 && ts[0].Keyword("update") && OpensWithQuote(ts[1].text)
    && NoSemicolon(ts) && WritesHaveEffectiveWhere(number, ts)
  }

  lemma UpdateTokens(number: Numbers, d: Dialect, e: Engine, item: Item, a: seq<Assignment>, c: seq<Condition>)
    requires ReadsNumbers(number) && Reads(d, e) && EncodedStatement(UpdateRow(a, c))
    ensures R.Balanced(StatementLexemes(e, item, UpdateRow(a, c)), 0)
    ensures ReadsAsUpdate(number, IntendedTokens(e, item, UpdateRow(a, c)))
  {
    hide Undecided, R.TokensOf, R.Balanced, R.SpellAll, Written, Scope, Keyword, EncodedCell, EncodedCondition, EncodedStatement, CalmToken,
         WritesHaveEffectiveWhere, ReadsNumbers, OpensWithQuote;
    EncodedParts(UpdateRow(a, c));
    WrittenTokens(d, e, item, a);
    var written, link, scope := Written(e, item, a), Keyword("WHERE"), Scope(e, c);
    var at1 := 0 + |R.SpellAll(written)|;
    var at2 := at1 + |R.SpellAll(link)|;
    KeywordTokens("WHERE", at1);
    ScopeTokens(number, d, e, c, at2);
    R.TokensConcat(link, scope, at1, 0);
    R.TokensConcat(written, link + scope, 0, 0);
    var x, w, y := R.TokensOf(written, 0, 0), R.TokenOf(R.Word("WHERE"), at1 + 1, 0), R.TokensOf(scope, at2, 0);
    WhereToken(at1 + 1);
    UpdateReads(number, x, w, y);
    assert x + ([w] + y) == x + [w] + y;
    PartsNoSemicolon(number, x, w, y);
  }

  lemma PartsNoSemicolon(number: Numbers, x: seq<Token>, w: Token, y: seq<Token>)
    requires x != [] && x[0].Keyword("update") && (forall k :: 0 < k < |x| ==> CalmToken(x[k])) && w.text == "WHERE" && Undecided(number, y)
    requires x[0].text == "UPDATE"
    ensures NoSemicolon(x + [w] + y)
  {
    hide FoldBy, Reserved, CalmWord;
    var ts := x + [w] + y;
    forall k | 0 <= k < |ts| ensures ts[k].text != ";" {
      if 0 < k < |x| {
        assert ts[k] == x[k];
      } else if k > |x| {
        assert ts[k] == y[k - |x| - 1] && y[k - |x| - 1] in y;
      }
    }
  }
}
