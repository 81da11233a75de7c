/** A statement whose backup does not select by its own condition: a quoted
    column name is taken for the WHERE. */
module BackupExample {
  import opened Prelude
  import opened Bytes
  import opened Lexer
  import opened Folder
  import opened Classifier
  import opened RowBackup
  import opened SetList
  import opened BackupTarget
  import opened Concrete
  import R = Render

  const STATEMENT := "UPDATE t SET \"where\"=1 WHERE id=2"
  const EQUALS := R.Mark('=')

  const SET_PART: seq<R.Lexeme> := [R.Word("UPDATE"), SPACE, R.Word("t"), SPACE, R.Word("SET"), SPACE]
  const NAME_PART: seq<R.Lexeme> := [R.Quoted('"', "where"), EQUALS, R.Word("1")]
  const WHERE_PART: seq<R.Lexeme> := [SPACE, R.Word("WHERE"), SPACE, R.Word("id"), EQUALS, R.Word("2")]

  ghost predicate Lexed(ts: seq<Token>) {
    && |ts| == 10
    && Reads(ts[0], "UPDATE", "update", 0, true) && Reads(ts[1], "t", "t", 7, true) && Reads(ts[2], "SET", "set", 9, true)
    && Reads(ts[3], "\"where\"", "where", 13, true) && Reads(ts[4], "=", "=", 20, false) && Reads(ts[5], "1", "1", 21, true)
    && Reads(ts[6], "WHERE", "where", 23, true) && Reads(ts[7], "id", "id", 29, true) && Reads(ts[8], "=", "=", 31, false)
    && Reads(ts[9], "2", "2", 32, true)
  }

  lemma WordsLower()
    ensures ToLower("UPDATE") == "update" && ToLower("t") == "t" && ToLower("SET") == "set" && ToLower("1") == "1"
    ensures ToLower("WHERE") == "where" && ToLower("id") == "id" && ToLower("2") == "2" && ToLower("where") == "where"
  {
    assert ToLower("UPDATE") == ['u', 'p', 'd', 'a', 't', 'e'];
    assert ToLower("t") == ['t'];
    assert ToLower("SET") == ['s', 'e', 't'];
    assert ToLower("1") == ['1'];
    assert ToLower("WHERE") == ['w', 'h', 'e', 'r', 'e'];
    assert ToLower("where") == ['w', 'h', 'e', 'r', 'e'];
    assert ToLower("id") == ['i', 'd'];
    assert ToLower("2") == ['2'];
  }

  lemma NameSpells()
    ensures R.Spell(R.Quoted('"', "where")) == "\"where\""
  {
    hide R.Double;
    assert R.Double("", '"') == "" by { DoubleStep("", 'x'); }
    DoubleStep("e", 'e');
    DoubleStep("re", 'r');
    DoubleStep("ere", 'e');
    DoubleStep("here", 'h');
    DoubleStep("where", 'w');
    assert "e"[1..] == "" && "re"[1..] == "e" && "ere"[1..] == "re" && "here"[1..] == "ere" && "where"[1..] == "here";
  }

  lemma DoubleStep(s: string, c: char)
    ensures R.Double("", '"') == ""
    ensures s != "" && s[0] == c && c != '"' ==> R.Double(s, '"') == [c] + R.Double(s[1..], '"')
  {
  }

  lemma NameIsBare()
    ensures BareName("\"where\"") == "where"
  {
    hide ToLower;
    WordsLower();
    var q := "\"where\"";
    assert q[1..] == "where\"" && TrimQuotesLeft(q[1..]) == q[1..];
    assert TrimQuotesLeft(q) == TrimQuotesLeft(q[1..]);
    var p := "where\"";
    assert p[..5] == "where" && TrimQuotesRight(p[..5]) == p[..5];
    assert p[5] == '"' && TrimQuotesRight(p) == TrimQuotesRight(p[..5]);
  }

  lemma NameReads(at: nat)
    ensures Reads(R.TokenOf(R.Quoted('"', "where"), at, 0), "\"where\"", "where", at, true)
  {
    hide BareName;
    NameSpells();
    NameIsBare();
  }

  lemma AllWordLike()
    ensures WordLike("UPDATE") && WordLike("t") && WordLike("SET") && WordLike("1") && WordLike("WHERE") && WordLike("id") && WordLike("2")
  {
  }

  ghost predicate ReadsWhere(ts: seq<Token>) {
    && |ts| == 4 && Reads(ts[0], "WHERE", "where", 23, true) && Reads(ts[1], "id", "id", 29, true)
    && Reads(ts[2], "=", "=", 31, false) && Reads(ts[3], "2", "2", 32, true)
  }

  lemma WhereTokens()
    ensures R.Balanced(WHERE_PART, 0) && R.SpellAll(WHERE_PART) == " WHERE id=2" && ReadsWhere(R.TokensOf(WHERE_PART, 22, 0))
  {
    hide R.TokensOf, R.Balanced, R.SpellAll, Reads, ToLower, R.TokenOf, WordLike;
    EmptyBalanced();
    WordsLower();
    AllWordLike();
    var a := [R.Word("2")] + [];
    WordAhead("2", "2", [], 32);
    var b := [EQUALS] + a;
    MarkAhead('=', a, 31);
    var c := [R.Word("id")] + b;
    WordAhead("id", "id", b, 29);
    var e := [SPACE] + c;
    SpaceAhead(c, 28);
    var f := [R.Word("WHERE")] + e;
    WordAhead("WHERE", "where", e, 23);
    SpaceAhead(f, 22);
    assert [SPACE] + f == WHERE_PART;
    assert " " + ("WHERE" + (" " + ("id" + ("=" + ("2" + ""))))) == " WHERE id=2";
  }

  ghost predicate ReadsName(ts: seq<Token>) {
    |ts| >= 3 && Reads(ts[0], "\"where\"", "where", 13, true) && Reads(ts[1], "=", "=", 20, false) && Reads(ts[2], "1", "1", 21, true)
  }

  lemma NameAhead(xs: seq<R.Lexeme>)
    requires R.Balanced(xs, 0)
    ensures var name := R.Quoted('"', "where");
            && R.SpellAll([name] + xs) == "\"where\"" + R.SpellAll(xs) && R.Balanced([name] + xs, 0)
            && R.TokensOf([name] + xs, 13, 0) == [R.TokenOf(name, 13, 0)] + R.TokensOf(xs, 20, 0)
            && Reads(R.TokenOf(name, 13, 0), "\"where\"", "where", 13, true)
  {
    hide R.TokensOf, R.Balanced, R.SpellAll, R.TokenOf, R.Spell, Reads;
    NameSpells();
    InFront(R.Quoted('"', "where"), xs, 13);
    NameReads(13);
  }

  lemma NameTokens(rest: seq<R.Lexeme>)
    requires R.Balanced(rest, 0)
    ensures var xs := NAME_PART + rest;
            && R.Balanced(xs, 0) && R.SpellAll(xs) == "\"where\"=1" + R.SpellAll(rest)
            && ReadsName(R.TokensOf(xs, 13, 0)) && R.TokensOf(xs, 13, 0)[3..] == R.TokensOf(rest, 22, 0)
  {
    hide R.TokensOf, R.Balanced, R.SpellAll, R.TokenOf, Reads, ToLower, WordLike;
    WordsLower();
    AllWordLike();
    var a := [R.Word("1")] + rest;
    WordAhead("1", "1", rest, 21);
    var b := [EQUALS] + a;
    MarkAhead('=', a, 20);
    NameAhead(b);
    assert [R.Quoted('"', "where")] + b == NAME_PART + rest;
    assert "\"where\"" + ("=" + ("1" + R.SpellAll(rest))) == "\"where\"=1" + R.SpellAll(rest);
  }

  ghost predicate ReadsSet(ts: seq<Token>) {
    |ts| >= 3 && Reads(ts[0], "UPDATE", "update", 0, true) && Reads(ts[1], "t", "t", 7, true) && Reads(ts[2], "SET", "set", 9, true)
  }

  lemma SetTokens(rest: seq<R.Lexeme>)
    requires R.Balanced(rest, 0)
    ensures var xs := SET_PART + rest;
            && R.Balanced(xs, 0) && R.SpellAll(xs) == "UPDATE t SET " + R.SpellAll(rest)
            && ReadsSet(R.TokensOf(xs, 0, 0)) && R.TokensOf(xs, 0, 0)[3..] == R.TokensOf(rest, 13, 0)
  {
    hide R.TokensOf, R.Balanced, R.SpellAll, R.TokenOf, Reads, ToLower, WordLike;
    WordsLower();
    AllWordLike();
    var b := [SPACE] + rest;
    SpaceAhead(rest, 12);
    var c := [R.Word("SET")] + b;
    WordAhead("SET", "set", b, 9);
    var e := [SPACE] + c;
    SpaceAhead(c, 8);
    var f := [R.Word("t")] + e;
    WordAhead("t", "t", e, 7);
    var g := [SPACE] + f;
    SpaceAhead(f, 6);
    WordAhead("UPDATE", "update", g, 0);
    assert [R.Word("UPDATE")] + g == SET_PART + rest;
    assert "UPDATE" + (" " + ("t" + (" " + ("SET" + (" " + R.SpellAll(rest)))))) == "UPDATE t SET " + R.SpellAll(rest);
  }

  lemma ThreeParts(ts: seq<Token>, names: seq<Token>, wheres: seq<Token>)
    requires ReadsSet(ts) && ts[3..] == names && ReadsName(names) && names[3..] == wheres && ReadsWhere(wheres)
    ensures Lexed(ts)
  {
    hide Reads;
    assert ts[3] == names[0] && ts[4] == names[1] && ts[5] == names[2];
    assert ts[6] == names[3] == wheres[0] && ts[7] == names[4] == wheres[1] && ts[8] == names[5] == wheres[2] && ts[9] == names[6] == wheres[3];
  }

  lemma StatementTokens()
    ensures var xs := SET_PART + (NAME_PART + WHERE_PART);
            R.Balanced(xs, 0) && R.SpellAll(xs) == STATEMENT && Lexed(R.TokensOf(xs, 0, 0))
  {
    hide R.TokensOf, R.Balanced, R.SpellAll, ReadsSet, ReadsName, ReadsWhere, Lexed;
    var rest := NAME_PART + WHERE_PART;
    WhereTokens();
    NameTokens(WHERE_PART);
    SetTokens(rest);
    ThreeParts(R.TokensOf(SET_PART + rest, 0, 0), R.TokensOf(rest, 13, 0), R.TokensOf(WHERE_PART, 22, 0));
    assert "UPDATE t SET " + ("\"where\"=1" + " WHERE id=2") == STATEMENT;
  }

  lemma StatementLexes()
    ensures Lex(Postgres, STATEMENT).Ok? && Lexed(Lex(Postgres, STATEMENT).value)
  {
    hide R.TokensOf, R.Balanced, R.SpellAll, Lexed, Lex;
    StatementTokens();
    TidyLexes(Postgres, SET_PART + (NAME_PART + WHERE_PART));
  }

  // ------------------------------------------------------------------
  // What the classifier reads.

  lemma WordsAreQuiet(w: string)
    requires w in ["t", "set", "where", "=", "1", "id", "2"]
    ensures Quiet(w)
  {
  }

  lemma OneOfSeven(ts: seq<Token>, i: nat)
    requires Lexed(ts) && 0 < i < 10
    ensures ts[i].lower in ["t", "set", "where", "=", "1", "id", "2"]
  {
  }

  lemma NoTableAfter(ts: seq<Token>, i: nat)
    requires Lexed(ts) && 0 < i < 10
    ensures TableAt(ts, i) == None && !WritesRows(ts, i) && ts[i].lower !in JOIN_WORDS && ts[i].lower != "from"
  {
    hide *;
    TenTokens(ts);
    OneOfSeven(ts, i);
    WordsAreQuiet(ts[i].lower);
    QuietNamesNoTable(ts, i);
  }

  lemma {:induction false} NoTablesAfter(ts: seq<Token>, i: nat, seen: set<string>)
    requires Lexed(ts) && 0 < i <= 10
    ensures ExtractTables(ts, i, seen) == []
    decreases 10 - i
  {
    hide TableAt, Lexed;
    assert |ts| == 10 by { TenTokens(ts); }
    if i < 10 {
      NoTableAfter(ts, i);
      NoTablesAfter(ts, i + 1, seen);
    }
  }

  lemma TenTokens(ts: seq<Token>)
    requires Lexed(ts)
    ensures |ts| == 10
  {
  }

  lemma SetIsReserved()
    ensures Reserved("set")
  {
  }

  lemma FirstTable(ts: seq<Token>)
    requires Lexed(ts)
    ensures TableAt(ts, 0) == Some(TableRef("", "t", ""))
  {
    hide Reserved;
    SetIsReserved();
    assert ts[2].text != "." && DottedEnd(ts, 1) == 2;
  }

  lemma OneTable(ts: seq<Token>)
    requires Lexed(ts)
    ensures ExtractTables(ts, 0, {}) == [TableRef("", "t", "")]
  {
    hide TableAt, Lexed;
    TenTokens(ts);
    FirstTable(ts);
    NoTablesAfter(ts, 1, {} + {TableKey(TableRef("", "t", ""))});
  }

  lemma OnlyUpdateWrites(ts: seq<Token>, i: nat)
    requires Lexed(ts) && i < 10
    ensures WritesRows(ts, i) <==> i == 0
  {
    if i > 0 {
      NoTableAfter(ts, i);
    }
  }

  lemma WhereIsSixth(ts: seq<Token>)
    requires Lexed(ts)
    ensures WhereOf(ts, 0, 1) == 6 && ClauseEnd(ts, 0, 7) == 10
  {
    hide Reserved;
    PlainWords();
    assert WhereOf(ts, 0, 6) == 6;
    assert WhereOf(ts, 0, 5) == 6;
    assert WhereOf(ts, 0, 4) == 6;
    assert WhereOf(ts, 0, 3) == 6;
    assert WhereOf(ts, 0, 2) == 6;
    assert ClauseEnd(ts, 0, 10) == 10;
    assert ClauseEnd(ts, 0, 9) == 10;
    assert ClauseEnd(ts, 0, 8) == 10;
  }

  lemma PlainWords()
    ensures !Reserved("id") && !Reserved("=") && !Reserved("2")
  {
    hide Reserved;
    ShortIsFree("id");
    ShortIsFree("=");
    ShortIsFree("2");
  }

  lemma NotAlwaysTrue(number: Numbers, ts: seq<Token>)
    requires Lexed(ts)
    ensures !AlwaysTrue(number, ts[7..10])
  {
    hide FoldOperands, LiteralToken;
    var us := ts[7..10];
    assert us[0] == ts[7] && us[1] == ts[8] && us[2] == ts[9];
    assert Strip(us) == us;
    assert !HasOp(us, 0, "or") && !HasOp(us, 0, "and");
    assert !EqualFold("id", "2") by { assert |ToLower("id")| == 2 && |ToLower("2")| == 1; }
  }

  lemma WritesWithWhere(number: Numbers, ts: seq<Token>)
    requires Lexed(ts)
    ensures WritesHaveEffectiveWhere(number, ts)
  {
    hide Lexed, AlwaysTrue, WhereOf, ClauseEnd, WritesRows;
    TenTokens(ts);
    OnlyUpdateWrites(ts, 0);
    WhereIsSixth(ts);
    NotAlwaysTrue(number, ts);
    assert ts[0].depth == 0 by { FirstDepth(ts); }
    forall i | 0 <= i < |ts| && WritesRows(ts, i) ensures EffectiveWhere(number, ts, i) {
      OnlyUpdateWrites(ts, i);
    }
  }

  lemma FirstDepth(ts: seq<Token>)
    requires Lexed(ts)
    ensures ts[0].depth == 0 && ts[0].lower == "update" && !ts[0].quoted
  {
  }

  lemma UpdateIsNoOtherVerb()
    ensures !ReadVerb("update") && !BlockVerb("update") && "update" != "explain"
  {
  }

  lemma ClassifiedAs(number: Numbers, ts: seq<Token>)
    requires Lexed(ts)
    ensures var info := ClassifyTokens(number, Postgres, STATEMENT, ts);
            && info.command == Update && info.tables == [TableRef("", "t", "")] && info.hasWhere && !info.isScript
            && info.raw == STATEMENT && info.tokens == ts
  {
    hide Lexed, ExtractTables, WritesHaveEffectiveWhere, TouchesSession, ControlsTransaction, ReadVerb, BlockVerb, SessionVerb, AdminVerb, Names, BlockKind, ExplainRuns;
    TenTokens(ts);
    FirstDepth(ts);
    UpdateIsNoOtherVerb();
    OneTable(ts);
    WritesWithWhere(number, ts);
  }

  // ------------------------------------------------------------------
  // What is backed up.

  lemma AllTop(ts: seq<Token>)
    requires Lexed(ts)
    ensures Top(ts) == ts
  {
    TopIsTop(ts);
  }

  lemma HeadWords(ts: seq<Token>)
    requires Lexed(ts)
    ensures ts[0].lower !in JOIN_WORDS && ts[0].lower != "from"
    ensures ts[0].lower !in WHERE_WORD && ts[1].lower !in WHERE_WORD && ts[2].lower !in WHERE_WORD && ts[3].lower in WHERE_WORD
    ensures forall k :: 4 <= k < 10 ==> ts[k].lower !in TAIL_WORDS
  {
  }

  lemma WordsFound(ts: seq<Token>)
    requires Lexed(ts)
    ensures FindWord(ts, JOIN_WORDS, 0) == 10 && FindWord(ts, WHERE_WORD, 0) == 3 && FindWord(ts, TAIL_WORDS, 4) == 10
    ensures CountWord(ts, "from", 10) == 0
  {
    hide Lexed;
    TenTokens(ts);
    HeadWords(ts);
    forall k | 0 < k < |ts| ensures ts[k].lower !in JOIN_WORDS {
      NoTableAfter(ts, k);
    }
    NoFrom(ts, 10);
  }

  lemma {:induction false} NoFrom(ts: seq<Token>, n: nat)
    requires Lexed(ts) && n <= 10
    ensures CountWord(ts, "from", n) == 0
    decreases n
  {
    hide Lexed;
    TenTokens(ts);
    HeadWords(ts);
    if n > 0 {
      NoFrom(ts, n - 1);
      if n > 1 {
        NoTableAfter(ts, n - 1);
      }
    }
  }

  lemma ConditionCut(ts: seq<Token>)
    requires Lexed(ts)
    ensures ConditionIn(STATEMENT, ts) == "=1 WHERE id=2"
  {
    hide FindWord, TrimSpace;
    WordsFound(ts);
    assert |STATEMENT| == 33 && STATEMENT[20..33] == "=1 WHERE id=2";
    Trims("=1 WHERE id=2");
    var x := "=1 WHERE id=2";
    assert TrimRightEnd(x, 13) == 13;
    assert x[..13] == x;
  }

  /** The quoted column is taken for the WHERE, so the rows are read by `=1 WHERE id=2`, not by `id=2`. */
  lemma QuotedNameMisleads(number: Numbers)
    ensures var info := Classify(number, Postgres, STATEMENT);
            && BackupTargetOf(info) == Some(Target(UpdateBackup, "", "t", "=1 WHERE id=2"))
            && Clauses(info.tokens, 6, |info.tokens|) && Misleads(info.tokens, WHERE_WORD, 0, 6, QuotedName)
  {
    hide Lex, TrimSpace, FindWord, CountWord, ConditionIn, ClassifyTokens, Lexed, Clauses, Misleads, Top;
    StatementLexes();
    Trims(STATEMENT);
    var ts := Lex(Postgres, STATEMENT).value;
    TenTokens(ts);
    FirstDepth(ts);
    ClassifiedAs(number, ts);
    AllTop(ts);
    WordsFound(ts);
    ConditionCut(ts);
    WhereIsOwn(ts);
  }

  lemma WhereIsOwn(ts: seq<Token>)
    requires Lexed(ts)
    ensures Clauses(ts, 6, 10) && Misleads(ts, WHERE_WORD, 0, 6, QuotedName)
  {
    assert Spelled(ts[3], WHERE_WORD) && GuiseOf(ts, 3) == QuotedName;
  }
}
