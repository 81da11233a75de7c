/** Two statements whose backup is read by a cut condition: a column after a dot, and
    a column whose name is not reserved, are taken for the clause after it. */
module DeleteExample {
  import opened Bytes
  import opened Lexer
  import opened Splitter
  import opened Folder
  import opened Classifier
  import opened RowBackup
  import opened SetList
  import opened BackupTarget
  import opened Concrete
  import opened Prelude
  import R = Render

  const DOTTED := "DELETE FROM t WHERE t.order = 5"
  const PLAIN := "DELETE FROM t WHERE id = 1 AND limit > 100"

  const HEAD_WORDS: seq<R.Lexeme> := [R.Word("DELETE"), SPACE, R.Word("FROM"), SPACE, R.Word("t"), SPACE, R.Word("WHERE"), SPACE]
  const DOTTED_WORDS: seq<R.Lexeme> := [R.Word("t"), R.Mark('.'), R.Word("order"), SPACE, R.Mark('='), SPACE, R.Word("5")]
  const PLAIN_WORDS: seq<R.Lexeme> :=
    [R.Word("id"), SPACE, R.Mark('='), SPACE, R.Word("1"), SPACE, R.Word("AND"), SPACE, R.Word("limit"), SPACE, R.Mark('>'), SPACE, R.Word("100")]

  // ------------------------------------------------------------------
  // The tokens.

  lemma WordsLower()
    ensures ToLower("DELETE") == "delete" && ToLower("FROM") == "from" && ToLower("t") == "t" && ToLower("WHERE") == "where"
    ensures ToLower("order") == "order" && ToLower("5") == "5" && ToLower("id") == "id" && ToLower("1") == "1"
    ensures ToLower("AND") == "and" && ToLower("limit") == "limit" && ToLower("100") == "100"
  {
    assert ToLower("DELETE") == ['d', 'e', 'l', 'e', 't', 'e'];
    assert ToLower("FROM") == ['f', 'r', 'o', 'm'];
    assert ToLower("WHERE") == ['w', 'h', 'e', 'r', 'e'];
    assert ToLower("order") == ['o', 'r', 'd', 'e', 'r'];
    assert ToLower("AND") == ['a', 'n', 'd'];
    assert ToLower("limit") == ['l', 'i', 'm', 'i', 't'];
    assert ToLower("id") == ['i', 'd'];
    assert ToLower("100") == ['1', '0', '0'];
  }

  lemma AllWordLike()
    ensures WordLike("DELETE") && WordLike("FROM") && WordLike("t") && WordLike("WHERE") && WordLike("order") && WordLike("5")
    ensures WordLike("id") && WordLike("1") && WordLike("AND") && WordLike("limit") && WordLike("100")
  {
  }

  ghost predicate Heads(ts: seq<Token>)
    requires |ts| >= 4
  {
    && Reads(ts[0], "DELETE", "delete", 0, true) && Reads(ts[1], "FROM", "from", 7, true)
    && Reads(ts[2], "t", "t", 12, true) && Reads(ts[3], "WHERE", "where", 14, true)
  }

  const TABLE_WORDS: seq<R.Lexeme> := [R.Word("t"), SPACE, R.Word("WHERE"), SPACE]

  lemma TableTokens(rest: seq<R.Lexeme>)
    requires R.Balanced(rest, 0)
    ensures var xs := TABLE_WORDS + rest;
            && R.Balanced(xs, 0) && R.SpellAll(xs) == "t WHERE " + R.SpellAll(rest)
            && |R.TokensOf(xs, 12, 0)| >= 2 && R.TokensOf(xs, 12, 0)[2..] == R.TokensOf(rest, 20, 0)
            && Reads(R.TokensOf(xs, 12, 0)[0], "t", "t", 12, true) && Reads(R.TokensOf(xs, 12, 0)[1], "WHERE", "where", 14, true)
  {
    hide R.TokensOf, R.Balanced, R.SpellAll, R.TokenOf, Reads, ToLower, WordLike;
    WordsLower();
    AllWordLike();
    var a := [SPACE] + rest;
    SpaceAhead(rest, 19);
    var b := [R.Word("WHERE")] + a;
    WordAhead("WHERE", "where", a, 14);
    var c := [SPACE] + b;
    SpaceAhead(b, 13);
    WordAhead("t", "t", c, 12);
    assert [R.Word("t")] + c == TABLE_WORDS + rest;
    assert "t" + (" " + ("WHERE" + (" " + R.SpellAll(rest)))) == "t WHERE " + R.SpellAll(rest);
  }

  lemma HeadTokens(rest: seq<R.Lexeme>)
    requires R.Balanced(rest, 0)
    ensures var xs := HEAD_WORDS + rest;
            && R.Balanced(xs, 0) && R.SpellAll(xs) == "DELETE FROM t WHERE " + R.SpellAll(rest)
            && |R.TokensOf(xs, 0, 0)| >= 4 && Heads(R.TokensOf(xs, 0, 0)) && R.TokensOf(xs, 0, 0)[4..] == R.TokensOf(rest, 20, 0)
  {
    hide R.TokensOf, R.Balanced, R.SpellAll, R.TokenOf, Reads, ToLower, WordLike;
    WordsLower();
    AllWordLike();
    TableTokens(rest);
    var e := TABLE_WORDS + rest;
    var f := [SPACE] + e;
    SpaceAhead(e, 11);
    var g := [R.Word("FROM")] + f;
    WordAhead("FROM", "from", f, 7);
    var h := [SPACE] + g;
    SpaceAhead(g, 6);
    WordAhead("DELETE", "delete", h, 0);
    assert [R.Word("DELETE")] + h == HEAD_WORDS + rest;
    assert "DELETE" + (" " + ("FROM" + (" " + ("t WHERE " + R.SpellAll(rest))))) == "DELETE FROM t WHERE " + R.SpellAll(rest);
  }

  ghost predicate DottedTail(ts: seq<Token>) {
    && |ts| == 5 && Reads(ts[0], "t", "t", 20, true) && Reads(ts[1], ".", ".", 21, false) && Reads(ts[2], "order", "order", 22, true)
    && Reads(ts[3], "=", "=", 28, false) && Reads(ts[4], "5", "5", 30, true)
  }

  lemma DottedTokens()
    ensures R.Balanced(DOTTED_WORDS, 0) && R.SpellAll(DOTTED_WORDS) == "t.order = 5" && DottedTail(R.TokensOf(DOTTED_WORDS, 20, 0))
  {
    hide R.TokensOf, R.Balanced, R.SpellAll, R.TokenOf, Reads, ToLower, WordLike;
    WordsLower();
    AllWordLike();
    EmptyBalanced();
    var a := [R.Word("5")] + [];
    WordAhead("5", "5", [], 30);
    var b := [SPACE] + a;
    SpaceAhead(a, 29);
    var c := [R.Mark('=')] + b;
    MarkAhead('=', b, 28);
    var e := [SPACE] + c;
    SpaceAhead(c, 27);
    var f := [R.Word("order")] + e;
    WordAhead("order", "order", e, 22);
    var g := [R.Mark('.')] + f;
    MarkAhead('.', f, 21);
    WordAhead("t", "t", g, 20);
    assert [R.Word("t")] + g == DOTTED_WORDS;
    assert "t" + ("." + ("order" + (" " + ("=" + (" " + ("5" + "")))))) == "t.order = 5";
  }

  ghost predicate PlainTail(ts: seq<Token>) {
    && |ts| == 7 && Reads(ts[0], "id", "id", 20, true) && Reads(ts[1], "=", "=", 23, false) && Reads(ts[2], "1", "1", 25, true)
    && Reads(ts[3], "AND", "and", 27, true) && Reads(ts[4], "limit", "limit", 31, true) && Reads(ts[5], ">", ">", 37, false)
    && Reads(ts[6], "100", "100", 39, true)
  }

  lemma LimitTokens()
    ensures var xs := PLAIN_WORDS[8..];
            && R.Balanced(xs, 0) && R.SpellAll(xs) == "limit > 100" && |R.TokensOf(xs, 31, 0)| == 3
            && Reads(R.TokensOf(xs, 31, 0)[0], "limit", "limit", 31, true) && Reads(R.TokensOf(xs, 31, 0)[1], ">", ">", 37, false)
            && Reads(R.TokensOf(xs, 31, 0)[2], "100", "100", 39, true)
  {
    hide R.TokensOf, R.Balanced, R.SpellAll, R.TokenOf, Reads, ToLower, WordLike;
    WordsLower();
    AllWordLike();
    EmptyBalanced();
    var a := [R.Word("100")] + [];
    WordAhead("100", "100", [], 39);
    var b := [SPACE] + a;
    SpaceAhead(a, 38);
    var c := [R.Mark('>')] + b;
    MarkAhead('>', b, 37);
    var e := [SPACE] + c;
    SpaceAhead(c, 36);
    WordAhead("limit", "limit", e, 31);
    assert [R.Word("limit")] + e == PLAIN_WORDS[8..];
    assert "limit" + (" " + (">" + (" " + ("100" + "")))) == "limit > 100";
  }

  lemma PlainTokens()
    ensures R.Balanced(PLAIN_WORDS, 0) && R.SpellAll(PLAIN_WORDS) == "id = 1 AND limit > 100" && PlainTail(R.TokensOf(PLAIN_WORDS, 20, 0))
  {
    hide R.TokensOf, R.Balanced, R.SpellAll, R.TokenOf, Reads, ToLower, WordLike;
    WordsLower();
    AllWordLike();
    LimitTokens();
    var a := PLAIN_WORDS[8..];
    var b := [SPACE] + a;
    SpaceAhead(a, 30);
    var c := [R.Word("AND")] + b;
    WordAhead("AND", "and", b, 27);
    var e := [SPACE] + c;
    SpaceAhead(c, 26);
    var f := [R.Word("1")] + e;
    WordAhead("1", "1", e, 25);
    var g := [SPACE] + f;
    SpaceAhead(f, 24);
    var h := [R.Mark('=')] + g;
    MarkAhead('=', g, 23);
    var k := [SPACE] + h;
    SpaceAhead(h, 22);
    WordAhead("id", "id", k, 20);
    assert [R.Word("id")] + k == PLAIN_WORDS;
    assert "id" + (" " + ("=" + (" " + ("1" + (" " + ("AND" + (" " + "limit > 100"))))))) == "id = 1 AND limit > 100";
  }

  lemma DottedLexes(d: Dialect)
    ensures Lex(d, DOTTED).Ok? && |Lex(d, DOTTED).value| == 9 && Heads(Lex(d, DOTTED).value) && DottedTail(Lex(d, DOTTED).value[4..])
  {
    hide R.TokensOf, R.Balanced, R.SpellAll, Lex, Reads, Heads, Tidy;
    DottedTokens();
    HeadTokens(DOTTED_WORDS);
    assert Tidy(HEAD_WORDS + DOTTED_WORDS) by { DottedIsTidy(); }
    TidyLexes(d, HEAD_WORDS + DOTTED_WORDS);
    assert "DELETE FROM t WHERE " + "t.order = 5" == DOTTED;
  }

  lemma DottedIsTidy()
    ensures Tidy(HEAD_WORDS + DOTTED_WORDS)
  {
  }

  lemma PlainLexes(d: Dialect)
    ensures Lex(d, PLAIN).Ok? && |Lex(d, PLAIN).value| == 11 && Heads(Lex(d, PLAIN).value) && PlainTail(Lex(d, PLAIN).value[4..])
  {
    hide R.TokensOf, R.Balanced, R.SpellAll, Lex, Reads, Heads, Tidy;
    PlainTokens();
    HeadTokens(PLAIN_WORDS);
    assert Tidy(HEAD_WORDS + PLAIN_WORDS) by { PlainIsTidy(); }
    TidyLexes(d, HEAD_WORDS + PLAIN_WORDS);
    assert "DELETE FROM t WHERE " + "id = 1 AND limit > 100" == PLAIN;
  }

  lemma PlainIsTidy()
    ensures Tidy(HEAD_WORDS + PLAIN_WORDS)
  {
  }

  // ------------------------------------------------------------------
  // What the classifier reads.

  /** A DELETE whose words after the WHERE are unquoted and name no table, no write and no join. */
  ghost predicate Deletes(ts: seq<Token>) {
    && |ts| > 4 && Heads(ts)
    && forall k :: 4 <= k < |ts| ==> ts[k].depth == 0 && !ts[k].quoted && ts[k].lower in ["t", ".", "order", "=", "5", "id", "1", "and", "limit", ">", "100"]
  }

  lemma TailsDelete(ts: seq<Token>)
    requires |ts| > 4 && Heads(ts) && (DottedTail(ts[4..]) || PlainTail(ts[4..]))
    ensures Deletes(ts)
  {
    hide Heads;
    forall k | 4 <= k < |ts| ensures ts[k].depth == 0 && !ts[k].quoted && ts[k].lower in ["t", ".", "order", "=", "5", "id", "1", "and", "limit", ">", "100"] {
      assert ts[k] == ts[4..][k - 4];
    }
  }

  lemma WordsAreQuiet(w: string)
    requires w in ["t", "where", ".", "order", "=", "5", "id", "1", "and", "limit", ">", "100"]
    ensures Quiet(w)
  {
  }

  lemma QuietAfter(ts: seq<Token>, i: nat)
    requires Deletes(ts) && 2 <= i < |ts|
    ensures Quiet(ts[i].lower)
  {
    hide Quiet;
    WordsAreQuiet(ts[i].lower);
  }

  lemma NoTableAfter(ts: seq<Token>, i: nat)
    requires Deletes(ts) && 2 <= i < |ts|
    ensures TableAt(ts, i) == None && !WritesRows(ts, i) && ts[i].lower !in JOIN_WORDS && ts[i].lower != "from"
  {
    hide *;
    QuietAfter(ts, i);
    QuietNamesNoTable(ts, i);
  }

  lemma {:induction false} NoTablesAfter(ts: seq<Token>, i: nat, seen: set<string>)
    requires Deletes(ts) && 2 <= i <= |ts|
    ensures ExtractTables(ts, i, seen) == []
    decreases |ts| - i
  {
    hide TableAt, Deletes;
    if i < |ts| {
      NoTableAfter(ts, i);
      NoTablesAfter(ts, i + 1, seen);
    }
  }

  lemma WhereIsReserved()
    ensures Reserved("where")
  {
  }

  lemma FirstTable(ts: seq<Token>)
    requires Deletes(ts)
    ensures TableAt(ts, 0) == None && TableAt(ts, 1) == Some(TableRef("", "t", ""))
  {
    hide Reserved;
    WhereIsReserved();
    assert ts[3].text != "." && DottedEnd(ts, 2) == 3;
  }

  lemma OneTable(ts: seq<Token>)
    requires Deletes(ts)
    ensures ExtractTables(ts, 0, {}) == [TableRef("", "t", "")]
  {
    hide TableAt, Heads;
    FirstTable(ts);
    NoTablesAfter(ts, 2, {} + {TableKey(TableRef("", "t", ""))});
    assert ExtractTables(ts, 1, {}) == [TableRef("", "t", "")] + ExtractTables(ts, 2, {} + {TableKey(TableRef("", "t", ""))});
  }

  lemma OnlyDeleteWrites(ts: seq<Token>, i: nat)
    requires Deletes(ts) && i < |ts|
    ensures WritesRows(ts, i) <==> i == 0
  {
    if i >= 2 {
      NoTableAfter(ts, i);
    }
  }

  lemma WritesWithWhere(number: Numbers, ts: seq<Token>, e: nat)
    requires Deletes(ts) && 4 <= e <= |ts| && ClauseEnd(ts, 0, 4) == e && !AlwaysTrue(number, ts[4..e])
    ensures WritesHaveEffectiveWhere(number, ts)
  {
    hide AlwaysTrue, ClauseEnd, WritesRows;
    assert WhereOf(ts, 0, 3) == 3;
    assert WhereOf(ts, 0, 2) == 3;
    assert WhereOf(ts, 0, 1) == 3;
    OnlyDeleteWrites(ts, 0);
    forall i | 0 <= i < |ts| && WritesRows(ts, i) ensures EffectiveWhere(number, ts, i) {
      OnlyDeleteWrites(ts, i);
    }
  }

  lemma DeleteIsNoOtherVerb()
    ensures !ReadVerb("delete") && !BlockVerb("delete") && "delete" != "explain"
  {
  }

  lemma DeleteKind(ts: seq<Token>)
    requires ts != [] && ts[0].lower == "delete"
    ensures FirstKinds(ts) == (Delete, Delete) && !HoldsBlock(ts)
  {
    hide ReadVerb, BlockVerb, SessionVerb, AdminVerb, BlockKind, ExplainRuns, WithKinds;
    DeleteIsNoOtherVerb();
  }

  lemma ClassifiedAs(number: Numbers, d: Dialect, raw: string, ts: seq<Token>)
    requires Deletes(ts) && WritesHaveEffectiveWhere(number, ts)
    ensures var info := ClassifyTokens(number, d, raw, ts);
            && info.command == Delete && info.tables == [TableRef("", "t", "")] && info.hasWhere && !info.isScript
            && info.raw == raw && info.tokens == ts
  {
    hide Heads, ExtractTables, WritesHaveEffectiveWhere, TouchesSession, ControlsTransaction, Names, FirstKinds, HoldsBlock;
    HeadsDelete(ts);
    DeleteKind(ts);
    OneTable(ts);
  }

  lemma HeadsDelete(ts: seq<Token>)
    requires Deletes(ts)
    ensures ts[0].lower == "delete" && ts[1].lower == "from"
  {
  }

  // ------------------------------------------------------------------
  // What is backed up.

  lemma HeadWords(ts: seq<Token>)
    requires Deletes(ts)
    ensures ts[0].lower !in JOIN_WORDS && ts[1].lower !in JOIN_WORDS && ts[0].lower != "from" && ts[1].lower == "from"
    ensures ts[0].lower !in WHERE_WORD && ts[1].lower !in WHERE_WORD && ts[2].lower !in WHERE_WORD && ts[3].lower in WHERE_WORD
  {
  }

  lemma WordsFound(ts: seq<Token>)
    requires Deletes(ts)
    ensures FindWord(ts, JOIN_WORDS, 0) == |ts| && FindWord(ts, WHERE_WORD, 0) == 3 && CountWord(ts, "from", |ts|) == 1
  {
    hide Deletes, Heads;
    assert |ts| > 4 by { Long(ts); }
    HeadWords(ts);
    forall k | 0 <= k < |ts| ensures ts[k].lower !in JOIN_WORDS {
      if k >= 2 {
        NoTableAfter(ts, k);
      }
    }
    OneFrom(ts, |ts|);
  }

  lemma Long(ts: seq<Token>)
    requires Deletes(ts)
    ensures |ts| > 4
  {
  }

  lemma {:induction false} OneFrom(ts: seq<Token>, n: nat)
    requires Deletes(ts) && 2 <= n <= |ts|
    ensures CountWord(ts, "from", n) == 1
    decreases n
  {
    hide Deletes, Heads;
    if n > 2 {
      OneFrom(ts, n - 1);
      NoTableAfter(ts, n - 1);
    } else {
      Long(ts);
      HeadWords(ts);
      assert CountWord(ts, "from", 0) == 0 && CountWord(ts, "from", 1) == 0;
    }
  }

  lemma AllTop(ts: seq<Token>)
    requires Deletes(ts)
    ensures Top(ts) == ts
  {
    TopIsTop(ts);
  }

  /** A DELETE of this shape is backed up by the text up to its first tail word. */
  lemma BackedUpTo(number: Numbers, d: Dialect, raw: string, ts: seq<Token>, q: nat, condition: string)
    requires Lex(d, raw) == Ok(ts) && TrimSpace(raw) == raw && Deletes(ts) && WritesHaveEffectiveWhere(number, ts)
    requires 4 <= q < |ts| && FindWord(ts, TAIL_WORDS, 4) == q
    requires TrimRight(TrimSpace(Text(raw, ts[3].end, ts[q].start))) == condition != ""
    ensures Classify(number, d, raw).tokens == ts && BackupTargetOf(Classify(number, d, raw)) == Some(Target(DeleteBackup, "", "t", condition))
  {
    hide Lex, TrimSpace, TrimRight, FindWord, CountWord, ClassifyTokens, Heads, Top, Text, WritesHaveEffectiveWhere;
    HeadsDelete(ts);
    ClassifiedAs(number, d, raw, ts);
    AllTop(ts);
    WordsFound(ts);
  }

  lemma OrderIsReserved()
    ensures Reserved("order")
  {
    assert ClauseWord("order");
  }

  lemma LimitIsReserved()
    ensures Reserved("limit")
  {
    assert ClauseWord("limit");
  }

  lemma DottedWhere(number: Numbers, ts: seq<Token>)
    requires Deletes(ts) && |ts| == 9 && DottedTail(ts[4..])
    ensures WritesHaveEffectiveWhere(number, ts) && FindWord(ts, TAIL_WORDS, 4) == 6
  {
    hide Reserved, Deletes, WritesHaveEffectiveWhere, AlwaysTrue;
    OrderIsReserved();
    ShortIsFree("t");
    ShortIsFree(".");
    var tail := ts[4..];
    assert ts[4] == tail[0] && ts[5] == tail[1] && ts[6] == tail[2];
    assert ClauseEnd(ts, 0, 6) == 6;
    assert ClauseEnd(ts, 0, 5) == 6;
    assert ts[4..6] == [tail[0], tail[1]];
    DotIsNoTruth(number, tail[0], tail[1]);
    WritesWithWhere(number, ts, 6);
    assert ts[4].lower !in TAIL_WORDS && ts[5].lower !in TAIL_WORDS && ts[6].lower in TAIL_WORDS;
  }

  /** A table's name and a dot are not always true. */
  lemma DotIsNoTruth(number: Numbers, t: Token, dot: Token)
    requires t.lower == "t" && t.text == "t" && t.depth == 0 && dot.lower == "." && dot.depth == 0
    ensures !AlwaysTrue(number, [t, dot])
  {
    hide FoldOperands;
    var us := [t, dot];
    assert Strip(us) == us && !HasOp(us, 0, "or") && !HasOp(us, 0, "and");
  }

  lemma PlainWhere(number: Numbers, ts: seq<Token>)
    requires Deletes(ts) && |ts| == 11 && PlainTail(ts[4..])
    ensures WritesHaveEffectiveWhere(number, ts) && FindWord(ts, TAIL_WORDS, 4) == 8
  {
    hide Reserved, Heads, WritesHaveEffectiveWhere, AlwaysTrue, Deletes;
    LimitIsReserved();
    ShortIsFree("id");
    ShortIsFree("=");
    ShortIsFree("1");
    ShortIsFree("and");
    var tail := ts[4..];
    assert ts[4] == tail[0] && ts[5] == tail[1] && ts[6] == tail[2] && ts[7] == tail[3] && ts[8] == tail[4];
    assert ClauseEnd(ts, 0, 8) == 8;
    assert ClauseEnd(ts, 0, 7) == 8;
    assert ClauseEnd(ts, 0, 6) == 8;
    assert ClauseEnd(ts, 0, 5) == 8;
    assert ts[4..8] == [tail[0], tail[1], tail[2]] + [tail[3]];
    AndOfNothing(number, [tail[0], tail[1], tail[2]], tail[3]);
    WritesWithWhere(number, ts, 8);
    assert ts[4].lower !in TAIL_WORDS && ts[5].lower !in TAIL_WORDS && ts[6].lower !in TAIL_WORDS && ts[7].lower !in TAIL_WORDS && ts[8].lower in TAIL_WORDS;
  }

  /** A condition that ends in AND is not always true. */
  lemma AndOfNothing(number: Numbers, a: seq<Token>, t: Token)
    requires |a| == 3 && a[0].lower == "id" && a[1].lower == "=" && a[2].lower == "1" && a[0].text == "id" && t.text == "AND"
    requires a[0].depth == 0 && a[1].depth == 0 && a[2].depth == 0 && t.depth == 0 && t.Keyword("and")
    ensures !AlwaysTrue(number, a + [t])
  {
    hide Leaf;
    var ts := a + [t];
    assert ts[0] == a[0] && ts[1] == a[1] && ts[2] == a[2] && ts[3] == t;
    assert Strip(ts) == ts;
    assert !HasOp(ts, 0, "or");
    assert NextOp(ts, 0, "and", 3) == 3;
    assert NextOp(ts, 0, "and", 2) == 3;
    assert NextOp(ts, 0, "and", 1) == 3;
    assert NextOp(ts, 0, "and", 0) == 3;
    assert NextOp(ts, 0, "and", 4) == 4;
    OperandStep(number, ts, 0, "and", 0);
    OperandStep(number, ts, 0, "and", 4);
    assert ts[4..] == [] && Fold(number, []) == Unknown;
  }

  lemma DottedCut()
    ensures |DOTTED| == 31 && DOTTED[19..22] == " t." && TrimSpace(" t.") == "t." && TrimRight("t.") == "t."
  {
    hide TrimSpace, TrimRight;
    TrimMiddle(" t.", 1, 3);
    assert " t."[1..3] == "t.";
    KeptWhole("t.");
  }

  lemma PlainCut()
    ensures |PLAIN| == 42 && PLAIN[19..31] == " id = 1 AND " && TrimSpace(" id = 1 AND ") == "id = 1 AND" && TrimRight("id = 1 AND") == "id = 1 AND"
  {
    hide TrimSpace, TrimRight;
    PlainMiddle();
    PlainTrimmed(" id = 1 AND ");
    KeptWhole("id = 1 AND");
  }

  lemma PlainMiddle()
    ensures |PLAIN| == 42 && PLAIN[19..31] == " id = 1 AND "
  {
    var front, x, back := "DELETE FROM t WHERE", " id = 1 AND ", "limit > 100";
    assert |front| == 19 && |x| == 12;
    assert PLAIN == front + x + back && (front + x + back)[19..31] == x;
  }

  lemma PlainTrimmed(x: string)
    requires x == " id = 1 AND "
    ensures TrimSpace(x) == "id = 1 AND"
  {
    hide TrimSpace;
    assert |x| == 12 && x[0] == ' ' && x[11] == ' ' && x[10] == 'D' && x[1] == 'i';
    TrimMiddle(x, 1, 11);
    assert x[1..11] == "id = 1 AND";
  }

  lemma KeptWhole(s: string)
    requires s != "" && !TrimmedRight(s[|s| - 1])
    ensures TrimRight(s) == s
  {
  }

  /** One space before, at most one after. */
  lemma TrimMiddle(s: string, lo: nat, hi: nat)
    requires lo == 1 < hi <= |s| <= hi + 1 && s[0] == ' ' && (hi < |s| ==> s[hi] == ' ')
    requires !AsciiSpace(s[1]) && s[1] < '\U{80}' && !AsciiSpace(s[hi - 1]) && s[hi - 1] < '\U{80}'
    ensures TrimSpace(s) == s[lo..hi]
  {
    assert SpaceRuneAt(s, 0) == 1 && SpaceRuneAt(s, 1) == 0;
    assert TrimFrom(s, 1) == 1 && TrimLow(s) == 1;
    assert SpaceRuneBefore(s, hi) == 0;
    assert TrimTo(s, 1, hi) == hi;
    assert hi < |s| ==> SpaceRuneBefore(s, |s|) == 1;
  }

  /** Where `order` needs no quotes after a dot, the statement's condition runs to the end of the text,
      and the rows are read by `t.`, which is no condition. */
  lemma DottedNameMisleads(number: Numbers, d: Dialect)
    ensures var info := Classify(number, d, DOTTED);
            && BackupTargetOf(info) == Some(Target(DeleteBackup, "", "t", "t."))
            && Clauses(info.tokens, 3, |info.tokens|) && Misleads(info.tokens, TAIL_WORDS, 4, |info.tokens|, DottedName)
  {
    hide Lex, TrimSpace, TrimRight, FindWord, Classify, Heads, Deletes, DottedTail, BackupTargetOf, WritesHaveEffectiveWhere;
    DottedLexes(d);
    Trims(DOTTED);
    var ts := Lex(d, DOTTED).value;
    TailsDelete(ts);
    DottedWhere(number, ts);
    DottedCut();
    DottedPlaces(ts);
    BackedUpTo(number, d, DOTTED, ts, 6, "t.");
  }

  lemma DottedPlaces(ts: seq<Token>)
    requires |ts| == 9 && Heads(ts) && DottedTail(ts[4..])
    ensures ts[3].end == 19 && ts[6].start == 22 && Clauses(ts, 3, 9) && Misleads(ts, TAIL_WORDS, 4, 9, DottedName)
  {
    assert ts[5] == ts[4..][1] && ts[6] == ts[4..][2];
    assert Spelled(ts[6], TAIL_WORDS) && GuiseOf(ts, 6) == DottedName;
  }

  /** Where `limit` is not reserved, as in SQL Server, the same happens to a bare column: the rows are read by `id = 1 AND`. */
  lemma PlainNameMisleads(number: Numbers, d: Dialect)
    ensures var info := Classify(number, d, PLAIN);
            && BackupTargetOf(info) == Some(Target(DeleteBackup, "", "t", "id = 1 AND"))
            && Clauses(info.tokens, 3, |info.tokens|) && Misleads(info.tokens, TAIL_WORDS, 4, |info.tokens|, PlainName)
  {
    hide Lex, TrimSpace, TrimRight, FindWord, Classify, Heads, Deletes, PlainTail, BackupTargetOf, WritesHaveEffectiveWhere;
    PlainLexes(d);
    Trims(PLAIN);
    var ts := Lex(d, PLAIN).value;
    TailsDelete(ts);
    PlainWhere(number, ts);
    PlainCut();
    PlainPlaces(ts);
    BackedUpTo(number, d, PLAIN, ts, 8, "id = 1 AND");
  }

  lemma PlainPlaces(ts: seq<Token>)
    requires |ts| == 11 && Heads(ts) && PlainTail(ts[4..])
    ensures ts[3].end == 19 && ts[8].start == 31 && Clauses(ts, 3, 11) && Misleads(ts, TAIL_WORDS, 4, 11, PlainName)
  {
    assert ts[7] == ts[4..][3] && ts[8] == ts[4..][4];
    assert Spelled(ts[8], TAIL_WORDS) && GuiseOf(ts, 8) == PlainName;
  }
}
