/** A script of two reads that is refused, though each of them, sent alone, is not. */
module SelectExample {
  import opened Prelude
  import opened Bytes
  import opened Lexer
  import opened Splitter
  import opened Folder
  import opened Classifier
  import opened Script
  import opened Policy
  import opened Concrete
  import R = Render

  const ONE := "SELECT 1"
  const SCOPED := "SELECT a FROM t WHERE t.id = 1"
  const SCRIPT := ONE + (";" + SCOPED)

  const ONE_WORDS: seq<R.Lexeme> := [R.Word("SELECT"), SPACE, R.Word("1")]
  const WHERE_WORDS: seq<R.Lexeme> :=
    [R.Word("WHERE"), SPACE, R.Word("t"), R.Mark('.'), R.Word("id"), SPACE, R.Mark('='), SPACE, R.Word("1")]
  const FROM_WORDS: seq<R.Lexeme> := [R.Word("SELECT"), SPACE, R.Word("a"), SPACE, R.Word("FROM"), SPACE, R.Word("t"), SPACE]

  // ------------------------------------------------------------------
  // The tokens.

  lemma WordsLower()
    ensures ToLower("SELECT") == "select" && ToLower("FROM") == "from" && ToLower("WHERE") == "where"
    ensures ToLower("a") == "a" && ToLower("t") == "t" && ToLower("id") == "id" && ToLower("1") == "1"
  {
    assert ToLower("SELECT") == ['s', 'e', 'l', 'e', 'c', 't'];
    assert ToLower("FROM") == ['f', 'r', 'o', 'm'];
    assert ToLower("WHERE") == ['w', 'h', 'e', 'r', 'e'];
    assert ToLower("id") == ['i', 'd'];
  }

  lemma AllWordLike()
    ensures WordLike("SELECT") && WordLike("FROM") && WordLike("WHERE") && WordLike("a") && WordLike("t") && WordLike("id") && WordLike("1")
  {
  }

  ghost predicate ReadsOne(ts: seq<Token>) {
    |ts| >= 2 && Reads(ts[0], "SELECT", "select", 0, true) && Reads(ts[1], "1", "1", 7, true)
  }

  ghost predicate ReadsWhere(ts: seq<Token>, at: nat) {
    && |ts| == 6 && Reads(ts[0], "WHERE", "where", at, true) && Reads(ts[1], "t", "t", at + 6, true) && Reads(ts[2], ".", ".", at + 7, false)
    && Reads(ts[3], "id", "id", at + 8, true) && Reads(ts[4], "=", "=", at + 11, false) && Reads(ts[5], "1", "1", at + 13, true)
  }

  ghost predicate ReadsFrom(ts: seq<Token>, at: nat) {
    && |ts| >= 4 && Reads(ts[0], "SELECT", "select", at, true) && Reads(ts[1], "a", "a", at + 7, true)
    && Reads(ts[2], "FROM", "from", at + 9, true) && Reads(ts[3], "t", "t", at + 14, true)
  }

  ghost predicate ReadsScoped(ts: seq<Token>, at: nat) {
    |ts| == 10 && ReadsFrom(ts, at) && ReadsWhere(ts[4..], at + 16)
  }

  /** The ten tokens one by one. */
  lemma ScopedOneByOne(ts: seq<Token>, at: nat)
    requires ReadsScoped(ts, at)
    ensures ts[0].lower == "select" && ts[1].lower == "a" && Reads(ts[2], "FROM", "from", at + 9, true) && Reads(ts[3], "t", "t", at + 14, true)
    ensures Reads(ts[4], "WHERE", "where", at + 16, true) && Reads(ts[5], "t", "t", at + 22, true) && Reads(ts[6], ".", ".", at + 23, false)
    ensures Reads(ts[7], "id", "id", at + 24, true) && Reads(ts[8], "=", "=", at + 27, false) && Reads(ts[9], "1", "1", at + 29, true)
    ensures ts[0].text == "SELECT" && ts[1].text == "a"
  {
    var tail := ts[4..];
    assert ts[4] == tail[0] && ts[5] == tail[1] && ts[6] == tail[2] && ts[7] == tail[3] && ts[8] == tail[4] && ts[9] == tail[5];
  }

  lemma WhereTokens(at: nat)
    ensures R.Balanced(WHERE_WORDS, 0) && R.SpellAll(WHERE_WORDS) == "WHERE t.id = 1" && ReadsWhere(R.TokensOf(WHERE_WORDS, at, 0), at)
  {
    hide R.TokensOf, R.Balanced, R.SpellAll, R.TokenOf, Reads, ToLower, WordLike;
    WordsLower();
    AllWordLike();
    EmptyBalanced();
    var a := [R.Word("1")] + [];
    WordAhead("1", "1", [], at + 13);
    var b := [SPACE] + a;
    SpaceAhead(a, at + 12);
    var c := [R.Mark('=')] + b;
    MarkAhead('=', b, at + 11);
    var e := [SPACE] + c;
    SpaceAhead(c, at + 10);
    var f := [R.Word("id")] + e;
    WordAhead("id", "id", e, at + 8);
    var g := [R.Mark('.')] + f;
    MarkAhead('.', f, at + 7);
    var h := [R.Word("t")] + g;
    WordAhead("t", "t", g, at + 6);
    var k := [SPACE] + h;
    SpaceAhead(h, at + 5);
    WordAhead("WHERE", "where", k, at);
    assert [R.Word("WHERE")] + k == WHERE_WORDS;
    assert "WHERE" + (" " + ("t" + ("." + ("id" + (" " + ("=" + (" " + ("1" + "")))))))) == "WHERE t.id = 1";
  }

  lemma FromTokens(rest: seq<R.Lexeme>, at: nat)
    requires R.Balanced(rest, 0)
    ensures var xs := FROM_WORDS + rest;
            && R.Balanced(xs, 0) && R.SpellAll(xs) == "SELECT a FROM t " + R.SpellAll(rest)
            && ReadsFrom(R.TokensOf(xs, at, 0), at) && R.TokensOf(xs, at, 0)[4..] == R.TokensOf(rest, at + 16, 0)
  {
    hide R.TokensOf, R.Balanced, R.SpellAll, R.TokenOf, Reads, ToLower, WordLike;
    WordsLower();
    AllWordLike();
    var a := [SPACE] + rest;
    SpaceAhead(rest, at + 15);
    var b := [R.Word("t")] + a;
    WordAhead("t", "t", a, at + 14);
    var c := [SPACE] + b;
    SpaceAhead(b, at + 13);
    var e := [R.Word("FROM")] + c;
    WordAhead("FROM", "from", c, at + 9);
    var f := [SPACE] + e;
    SpaceAhead(e, at + 8);
    var g := [R.Word("a")] + f;
    WordAhead("a", "a", f, at + 7);
    var h := [SPACE] + g;
    SpaceAhead(g, at + 6);
    WordAhead("SELECT", "select", h, at);
    assert [R.Word("SELECT")] + h == FROM_WORDS + rest;
    assert "SELECT" + (" " + ("a" + (" " + ("FROM" + (" " + ("t" + (" " + R.SpellAll(rest)))))))) == "SELECT a FROM t " + R.SpellAll(rest);
  }

  /** The words of the read with a WHERE, and that they are the text. */
  lemma ScopedTokens(scoped: seq<R.Lexeme>, at: nat)
    requires scoped == FROM_WORDS + WHERE_WORDS
    ensures Tidy(scoped) && R.Balanced(scoped, 0) && R.SpellAll(scoped) == SCOPED && ReadsScoped(R.TokensOf(scoped, at, 0), at)
  {
    hide R.TokensOf, R.Balanced, R.SpellAll, Reads, Tidy;
    WhereTokens(at + 16);
    FromTokens(WHERE_WORDS, at);
    assert "SELECT a FROM t " + "WHERE t.id = 1" == SCOPED;
    TidyFront();
    TidyJoin(FROM_WORDS, WHERE_WORDS);
  }

  lemma TidyFront()
    ensures Tidy(ONE_WORDS) && Tidy(FROM_WORDS) && Tidy(WHERE_WORDS)
  {
    assert Tidy(ONE_WORDS);
    assert Tidy(FROM_WORDS) by { FromIsTidy(); }
    assert Tidy(WHERE_WORDS) by { WhereIsTidy(); }
  }

  lemma FromIsTidy()
    ensures Tidy(FROM_WORDS)
  {
  }

  lemma WhereIsTidy()
    ensures Tidy(WHERE_WORDS)
  {
  }

  lemma OneTokens(rest: seq<R.Lexeme>)
    requires R.Balanced(rest, 0)
    ensures var xs := ONE_WORDS + rest;
            && R.Balanced(xs, 0) && R.SpellAll(xs) == ONE + R.SpellAll(rest)
            && ReadsOne(R.TokensOf(xs, 0, 0)) && R.TokensOf(xs, 0, 0)[2..] == R.TokensOf(rest, 8, 0)
  {
    hide R.TokensOf, R.Balanced, R.SpellAll, R.TokenOf, Reads, ToLower, WordLike;
    WordsLower();
    AllWordLike();
    var a := [R.Word("1")] + rest;
    WordAhead("1", "1", rest, 7);
    var b := [SPACE] + a;
    SpaceAhead(a, 6);
    WordAhead("SELECT", "select", b, 0);
    assert [R.Word("SELECT")] + b == ONE_WORDS + rest;
    assert "SELECT" + (" " + ("1" + R.SpellAll(rest))) == ONE + R.SpellAll(rest);
  }

  lemma OneLexes(d: Dialect)
    ensures Lex(d, ONE).Ok? && |Lex(d, ONE).value| == 2 && ReadsOne(Lex(d, ONE).value)
  {
    hide R.TokensOf, R.Balanced, R.SpellAll, Lex, Reads;
    EmptyBalanced();
    OneTokens([]);
    assert ONE_WORDS + [] == ONE_WORDS && ONE + "" == ONE;
    TidyLexes(d, ONE_WORDS);
  }

  lemma ScopedLexes(d: Dialect)
    ensures Lex(d, SCOPED).Ok? && ReadsScoped(Lex(d, SCOPED).value, 0)
  {
    hide R.TokensOf, R.Balanced, R.SpellAll, Lex, ReadsScoped, Tidy;
    var scoped := FROM_WORDS + WHERE_WORDS;
    ScopedTokens(scoped, 0);
    TidyLexes(d, scoped);
  }

  ghost predicate ReadsScript(ts: seq<Token>) {
    |ts| == 13 && ReadsOne(ts) && Reads(ts[2], ";", ";", 8, false) && ReadsScoped(ts[3..], 9)
  }

  lemma ScriptLexes(d: Dialect)
    ensures Lex(d, SCRIPT).Ok? && ReadsScript(Lex(d, SCRIPT).value)
  {
    hide R.TokensOf, R.Balanced, R.SpellAll, R.TokenOf, Lex, Reads, ReadsScoped, Tidy;
    var scoped := FROM_WORDS + WHERE_WORDS;
    ScopedTokens(scoped, 9);
    MarkAhead(';', scoped, 8);
    OneTokens([R.Mark(';')] + scoped);
    ScriptIsTidy(scoped);
    TidyLexes(d, ONE_WORDS + ([R.Mark(';')] + scoped));
    ScriptParts(Lex(d, SCRIPT).value, R.TokenOf(R.Mark(';'), 8, 0), R.TokensOf(scoped, 9, 0));
  }

  lemma MarkIsTidy()
    ensures Tidy([R.Mark(';')])
  {
  }

  lemma ScriptIsTidy(scoped: seq<R.Lexeme>)
    requires Tidy(scoped) && scoped != []
    ensures Tidy(ONE_WORDS + ([R.Mark(';')] + scoped))
  {
    hide Tidy;
    TidyFront();
    MarkIsTidy();
    TidyJoin([R.Mark(';')], scoped);
    TidyJoin(ONE_WORDS, [R.Mark(';')] + scoped);
  }

  lemma ScriptParts(ts: seq<Token>, mark: Token, scoped: seq<Token>)
    requires ReadsOne(ts) && ts[2..] == [mark] + scoped && Reads(mark, ";", ";", 8, false) && ReadsScoped(scoped, 9)
    ensures ReadsScript(ts)
  {
    hide Reads, ReadsFrom, ReadsWhere;
    assert |ts| == 13 && ts[2] == ts[2..][0];
    assert ts[3..] == scoped;
  }

  // ------------------------------------------------------------------
  // Where the statements end.

  lemma {:induction false} NoSemicolon(ts: seq<Token>, i: nat)
    requires i <= |ts| && forall k :: i <= k < |ts| ==> ts[k].text != ";"
    ensures StatementEnd(ts, i, false, 0) == |ts|
    decreases |ts| - i
  {
    if i < |ts| {
      NoSemicolon(ts, i + 1);
    }
  }

  lemma ScopedHasNoSemicolon(ts: seq<Token>, at: nat)
    requires ReadsScoped(ts, at)
    ensures forall k :: 0 <= k < |ts| ==> ts[k].text != ";"
  {
    hide ReadsFrom;
    ScopedOneByOne(ts, at);
  }

  lemma ScriptEnds(ts: seq<Token>)
    requires ReadsScript(ts)
    ensures EndFrom(ts, 0) == 2 && EndFrom(ts, 3) == 13 && ts[2].start == 8 && ts[2].end == 9
  {
    hide RoutineWords, NextLower;
    assert ts[0..] == ts && ts[3..][0] == ts[3];
    ScopedHasNoSemicolon(ts[3..], 9);
    forall k | 3 <= k < |ts| ensures ts[k].text != ";" {
      assert ts[k] == ts[3..][k - 3];
    }
    NoSemicolon(ts, 3);
    assert !Semicolon(ts[0]) && !Semicolon(ts[1]) && Semicolon(ts[2]);
    assert StatementEnd(ts, 2, false, 0) == 2;
    assert StatementEnd(ts, 1, false, 0) == 2;
    assert StatementEnd(ts, 0, false, 0) == 2;
    assert !RoutineDefinition(ts);
  }

  lemma ScriptSplits(d: Dialect)
    ensures Split(d, SCRIPT) == Ok([ONE, SCOPED])
  {
    hide Lex, TrimSpace, EndFrom, Segments, Pieces, Split, ReadsScript;
    ScriptLexes(d);
    var ts := Lex(d, SCRIPT).value;
    assert |ts| == 13 by { ScriptHasThirteen(ts); }
    ScriptEnds(ts);
    SegmentsFrom(SCRIPT, ts, 0, 0);
    SegmentsFrom(SCRIPT, ts, 3, 9);
    ScriptText();
    Trims(ONE);
    Trims(SCOPED);
    assert Piece(SCRIPT, 0, 8) == [ONE] && Piece(SCRIPT, 9, 39) == [SCOPED];
    SplitLexed(d, SCRIPT);
    assert [ONE] + [SCOPED] == [ONE, SCOPED];
  }

  lemma ScriptText()
    ensures |SCRIPT| == 39 && SCRIPT[0..8] == ONE && SCRIPT[9..39] == SCOPED
  {
    var one, mark, scoped := ONE, ";", SCOPED;
    assert |one| == 8 && |scoped| == 30;
    assert (one + (mark + scoped))[0..8] == one && (one + (mark + scoped))[9..39] == scoped;
  }

  lemma ScriptHasThirteen(ts: seq<Token>)
    requires ReadsScript(ts)
    ensures |ts| == 13
  {
  }

  lemma PartsStayWhole(d: Dialect)
    ensures StaysWhole(d, ONE) && StaysWhole(d, SCOPED)
  {
    hide Lex, RoutineWords;
    OneLexes(d);
    ScopedLexes(d);
    var us, ts := Lex(d, ONE).value, Lex(d, SCOPED).value;
    assert us[0..] == us && ts[0..] == ts;
    NoSemicolon(us, 0);
    ScopedHasNoSemicolon(ts, 0);
    NoSemicolon(ts, 0);
  }

  // ------------------------------------------------------------------
  // What the classifier reads.

  lemma SelectIsARead(ts: seq<Token>)
    requires ts != [] && ts[0].lower == "select"
    ensures FirstKinds(ts) == (Select, Select) && !HoldsBlock(ts)
  {
    hide BlockKind, WithKinds, ExplainRuns, SessionVerb, AdminVerb;
  }

  lemma {:induction false} NoInto(ts: seq<Token>, i: nat)
    requires i <= |ts| && forall k :: 0 <= k < |ts| ==> ts[k].lower != "into"
    ensures TopInto(ts, i) == |ts|
    decreases |ts| - i
  {
    if i + 1 < |ts| {
      NoInto(ts, i + 1);
    }
  }

  lemma SelectReads(number: Numbers, d: Dialect, raw: string, ts: seq<Token>)
    requires ts != [] && ts[0].lower == "select" && forall k :: 0 <= k < |ts| ==> ts[k].lower != "into"
    ensures var info := ClassifyTokens(number, d, raw, ts);
            && info.kind == Select && !info.isDrop && !info.isTruncate && info.tables == ExtractTables(ts, 0, {})
            && (info.hasWhere <==> TopWhere(ts, 0) < |ts| && !WhereIsTautology(number, ts))
  {
    hide ExtractTables, TouchesSession, ControlsTransaction, TargetWord, TopWhere, TopInto, FirstKinds, HoldsBlock, Names, WhereIsTautology;
    SelectIsARead(ts);
    NoInto(ts, 0);
  }

  lemma OneReads(number: Numbers, d: Dialect)
    ensures var one := Classify(number, d, ONE);
            one.kind == Select && !one.hasWhere && one.tables == [] && !one.isDrop && !one.isTruncate
  {
    hide Lex, TrimSpace, ClassifyTokens;
    Trims(ONE);
    OneLexes(d);
    var ts := Lex(d, ONE).value;
    SelectReads(number, d, ONE, ts);
    assert TableAt(ts, 0) == None && TableAt(ts, 1) == None;
    assert ExtractTables(ts, 2, {}) == [];
    assert ExtractTables(ts, 1, {}) == [];
    assert TopWhere(ts, 2) == 2;
    assert TopWhere(ts, 1) == 2;
  }

  lemma ScopedWords(ts: seq<Token>)
    requires ReadsScoped(ts, 0)
    ensures ts[0].lower == "select" && forall k :: 0 <= k < |ts| ==> ts[k].lower != "into"
    ensures TableAt(ts, 0) == None && TableAt(ts, 1) == None && TableAt(ts, 2).Some?
  {
    hide ReadsFrom;
    ScopedOneByOne(ts, 0);
  }

  lemma ScopedTables(ts: seq<Token>)
    requires ReadsScoped(ts, 0)
    ensures ExtractTables(ts, 0, {}) != []
  {
    hide TableAt, Reads, ReadsFrom, ReadsWhere;
    ScopedWords(ts);
    assert ExtractTables(ts, 2, {}) != [];
    assert ExtractTables(ts, 1, {}) != [];
  }

  lemma FreeWords()
    ensures !Reserved("t") && !Reserved(".") && !Reserved("id") && !Reserved("=") && !Reserved("1")
  {
    hide Reserved;
    ShortIsFree("t");
    ShortIsFree(".");
    ShortIsFree("id");
    ShortIsFree("=");
    ShortIsFree("1");
  }

  lemma ScopedWhere(number: Numbers, ts: seq<Token>)
    requires ReadsScoped(ts, 0)
    ensures TopWhere(ts, 0) == 4 && !WhereIsTautology(number, ts)
  {
    hide Reserved, Leaf;
    FreeWords();
    ScopedOneByOne(ts, 0);
    assert TopWhere(ts, 3) == 4;
    assert TopWhere(ts, 2) == 4;
    assert TopWhere(ts, 1) == 4;
    assert TopClauseEnd(ts, 9) == 10;
    assert TopClauseEnd(ts, 8) == 10;
    assert TopClauseEnd(ts, 7) == 10;
    assert TopClauseEnd(ts, 6) == 10;
    assert TopClauseEnd(ts, 5) == 10;
    DottedComparison(number, ts[5..10]);
  }

  /** Five tokens without operator are no comparison the folder decides. */
  lemma DottedComparison(number: Numbers, ts: seq<Token>)
    requires |ts| == 5 && Reads(ts[0], "t", "t", 22, true) && Reads(ts[1], ".", ".", 23, false) && Reads(ts[2], "id", "id", 24, true)
    requires Reads(ts[3], "=", "=", 27, false) && Reads(ts[4], "1", "1", 29, true)
    ensures !AlwaysTrue(number, ts)
  {
    NoOperator(ts, "or", 0);
    NoOperator(ts, "and", 0);
    assert Strip(ts) == ts;
  }

  lemma {:induction false} NoOperator(ts: seq<Token>, op: string, i: nat)
    requires i <= |ts| && forall k :: 0 <= k < |ts| ==> ts[k].lower != op
    ensures NextOp(ts, 0, op, i) == |ts|
    decreases |ts| - i
  {
    if i < |ts| {
      NoOperator(ts, op, i + 1);
    }
  }

  lemma ScopedReads(number: Numbers, d: Dialect)
    ensures var scoped := Classify(number, d, SCOPED);
            scoped.kind == Select && scoped.hasWhere && scoped.tables != [] && !scoped.isDrop && !scoped.isTruncate
  {
    hide Lex, TrimSpace, ClassifyTokens, ExtractTables, TopWhere, WhereIsTautology, Reads, ReadsFrom;
    Trims(SCOPED);
    ScopedLexes(d);
    var ts := Lex(d, SCOPED).value;
    ScopedWords(ts);
    SelectReads(number, d, SCOPED, ts);
    ScopedTables(ts);
    ScopedWhere(number, ts);
  }

  lemma PartsAllowed(number: Numbers, d: Dialect, s: Settings, one: Info, scoped: Info)
    requires ParsedAs(number, d, ONE, one) && ParsedAs(number, d, SCOPED, scoped)
    ensures one == Classify(number, d, ONE) && scoped == Classify(number, d, SCOPED) && !Denied(s, one) && !Denied(s, scoped)
    ensures Single(one) && one.kind == Select && !one.hasWhere && one.tables == []
    ensures Single(scoped) && scoped.kind == Select && scoped.hasWhere && scoped.tables != []
  {
    hide ParsedAs, Classify, Denied, StaysWhole, TrimSpace, Single;
    PartsStayWhole(d);
    Trims(ONE);
    Trims(SCOPED);
    WholeTextReads(number, d, ONE, one);
    WholeTextReads(number, d, SCOPED, scoped);
    OneReads(number, d);
    ScopedReads(number, d);
    ReadingsAreSingle(number, d, ONE);
    ReadingsAreSingle(number, d, SCOPED);
    PartDeniedBecause(s, one);
    PartDeniedBecause(s, scoped);
  }

  /** While SELECTs without WHERE are refused, the script is refused, and neither of its statements is when it is sent alone. */
  lemma ScriptIsJudgedHarder(number: Numbers, d: Dialect, s: Settings, merged: Info, one: Info, scoped: Info)
    requires ParsedAs(number, d, SCRIPT, merged) && ParsedAs(number, d, ONE, one) && ParsedAs(number, d, SCOPED, scoped)
    requires s.Active(SelectWithoutWhere)
    ensures Split(d, SCRIPT) == Ok([ONE, SCOPED])
    ensures !Denied(s, one) && !Denied(s, scoped) && Denied(s, merged)
  {
    hide Split, Classify, Merges, Denied, Parts, SomeDenied, ForbidsScripts, OverstrictSelect, Single;
    ScriptSplits(d);
    PartsAllowed(number, d, s, one, scoped);
    ScriptTextDeniedExactly(number, d, SCRIPT, merged, s);
    assert Parts(number, d, [ONE, SCOPED]) == [one, scoped];
    ScriptCanBeJudgedHarder(s, merged, one, scoped);
  }
}
