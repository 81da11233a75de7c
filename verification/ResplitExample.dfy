/** A piece of a split script that splits again when it is read on its own, and
    is then refused, though the script is not. */
module ResplitExample {
  import opened Prelude
  import opened Bytes
  import opened Lexer
  import opened Splitter
  import opened Folder
  import opened Classifier
  import opened Script
  import opened Policy
  import opened Concrete
  import R = Render

  // ------------------------------------------------------------------
  // The token fields that are read.

  /** The token fields the splitter and the classifier read. */
  ghost predicate Looks(t: Token, word: string, start: nat, end: nat) {
    t.lower == word && t.start == start && t.end == end && t.depth == 0 && !t.quoted && (t.text == ";" <==> word == ";")
  }

  /** One lexeme in front: its text, and its token. */
  lemma Ahead(x: R.Lexeme, xs: seq<R.Lexeme>, at: nat, word: string)
    requires Simple(x) && !x.Quoted? && R.Balanced(xs, 0) && (x.Word? ==> word == ToLower(x.word)) && (x.Mark? ==> [x.c] == word)
    ensures R.SpellAll([x] + xs) == R.Spell(x) + R.SpellAll(xs) && R.Balanced([x] + xs, 0)
    ensures R.TokensOf([x] + xs, at, 0) == (if x.Gap? then [] else [R.TokenOf(x, at, 0)]) + R.TokensOf(xs, at + |R.Spell(x)|, 0)
    ensures !x.Gap? ==> Looks(R.TokenOf(x, at, 0), word, at, at + |R.Spell(x)|)
  {
    hide ToLower, R.Spell, R.TokenOf, R.TokensOf, R.Balanced, R.SpellAll, Looks;
    InFront(x, xs, at);
    if !x.Gap? {
      TokenLooks(x, at, word);
    }
  }

  lemma TokenLooks(x: R.Lexeme, at: nat, word: string)
    requires Simple(x) && !x.Gap? && !x.Quoted? && (x.Word? ==> word == ToLower(x.word)) && (x.Mark? ==> [x.c] == word)
    ensures Looks(R.TokenOf(x, at, 0), word, at, at + |R.Spell(x)|)
  {
    if x.Word? {
      assert (Letter(x.word[0]) || Digit(x.word[0])) && ToLower(x.word)[0] == LowerByte(x.word[0]);
    }
  }

  lemma WordsLower()
    ensures ToLower("CREATE") == "create" && ToLower("BEGIN") == "begin" && ToLower("END") == "end" && ToLower("EVENT") == "event"
    ensures ToLower("DROP") == "drop" && ToLower("x") == "x"
  {
    assert ToLower("CREATE") == ['c', 'r', 'e', 'a', 't', 'e'];
    assert ToLower("BEGIN") == ['b', 'e', 'g', 'i', 'n'];
    assert ToLower("END") == ['e', 'n', 'd'];
    assert ToLower("EVENT") == ['e', 'v', 'e', 'n', 't'];
    assert ToLower("DROP") == ['d', 'r', 'o', 'p'];
    assert ToLower("x") == ['x'];
  }

  // ------------------------------------------------------------------
  // The script and its parts.

  const SCRIPT := "CREATE BEGIN;DROP x;END;EVENT"
  const FRONT := "CREATE BEGIN;DROP x;END"

  const EVENT_WORDS: seq<R.Lexeme> := [R.Word("EVENT")]
  const DROP_WORDS: seq<R.Lexeme> := [R.Word("DROP"), R.Gap(" "), R.Word("x")]
  const FRONT_WORDS: seq<R.Lexeme> :=
    [R.Word("CREATE"), R.Gap(" "), R.Word("BEGIN"), R.Mark(';'), R.Word("DROP"), R.Gap(" "), R.Word("x"), R.Mark(';'), R.Word("END")]

  ghost predicate LooksLikeFront(ts: seq<Token>)
    requires |ts| >= 7
  {
    && Looks(ts[0], "create", 0, 6) && Looks(ts[1], "begin", 7, 12) && Looks(ts[2], ";", 12, 13)
    && Looks(ts[3], "drop", 13, 17) && Looks(ts[4], "x", 18, 19) && Looks(ts[5], ";", 19, 20) && Looks(ts[6], "end", 20, 23)
  }

  const BLOCK_WORDS: seq<R.Lexeme> := [R.Word("DROP"), R.Gap(" "), R.Word("x"), R.Mark(';'), R.Word("END")]

  lemma BlockTokens(rest: seq<R.Lexeme>)
    requires R.Balanced(rest, 0)
    ensures R.Balanced(BLOCK_WORDS + rest, 0) && R.SpellAll(BLOCK_WORDS + rest) == "DROP x;END" + R.SpellAll(rest)
    ensures var ts := R.TokensOf(BLOCK_WORDS + rest, 13, 0);
            && |ts| >= 4 && Looks(ts[0], "drop", 13, 17) && Looks(ts[1], "x", 18, 19) && Looks(ts[2], ";", 19, 20) && Looks(ts[3], "end", 20, 23)
            && ts[4..] == R.TokensOf(rest, 23, 0)
  {
    hide R.TokensOf, R.Balanced, R.SpellAll, Looks, ToLower, R.TokenOf;
    WordsLower();
    var a := [R.Word("END")] + rest;
    Ahead(R.Word("END"), rest, 20, "end");
    var b := [R.Mark(';')] + a;
    Ahead(R.Mark(';'), a, 19, ";");
    var c := [R.Word("x")] + b;
    Ahead(R.Word("x"), b, 18, "x");
    var e := [R.Gap(" ")] + c;
    Ahead(R.Gap(" "), c, 17, "");
    Ahead(R.Word("DROP"), e, 13, "drop");
    assert [R.Word("DROP")] + e == BLOCK_WORDS + rest;
    assert "DROP" + (" " + ("x" + (";" + ("END" + R.SpellAll(rest))))) == "DROP x;END" + R.SpellAll(rest);
  }

  /** The words of the front, before whatever follows them. */
  lemma FrontTokens(rest: seq<R.Lexeme>)
    requires R.Balanced(rest, 0)
    ensures R.Balanced(FRONT_WORDS + rest, 0) && R.SpellAll(FRONT_WORDS + rest) == FRONT + R.SpellAll(rest)
    ensures var ts := R.TokensOf(FRONT_WORDS + rest, 0, 0);
            |ts| >= 7 && LooksLikeFront(ts) && ts[7..] == R.TokensOf(rest, 23, 0)
  {
    hide R.TokensOf, R.Balanced, R.SpellAll, Looks, ToLower, R.TokenOf;
    WordsLower();
    var f := BLOCK_WORDS + rest;
    BlockTokens(rest);
    var g := [R.Mark(';')] + f;
    Ahead(R.Mark(';'), f, 12, ";");
    var h := [R.Word("BEGIN")] + g;
    Ahead(R.Word("BEGIN"), g, 7, "begin");
    var k := [R.Gap(" ")] + h;
    Ahead(R.Gap(" "), h, 6, "");
    Ahead(R.Word("CREATE"), k, 0, "create");
    assert [R.Word("CREATE")] + k == FRONT_WORDS + rest;
    assert "CREATE" + (" " + ("BEGIN" + (";" + ("DROP x;END" + R.SpellAll(rest))))) == FRONT + R.SpellAll(rest);
  }

  lemma FrontLexes()
    ensures Lex(Postgres, FRONT).Ok? && |Lex(Postgres, FRONT).value| == 7 && LooksLikeFront(Lex(Postgres, FRONT).value)
  {
    hide R.TokensOf, R.Balanced, R.SpellAll, Lex, LooksLikeFront;
    EmptyBalanced();
    FrontTokens([]);
    assert FRONT_WORDS + [] == FRONT_WORDS && FRONT + "" == FRONT;
    TidyLexes(Postgres, FRONT_WORDS);
  }

  lemma ScriptLexes()
    ensures Lex(Postgres, SCRIPT).Ok?
    ensures var ts := Lex(Postgres, SCRIPT).value;
            |ts| == 9 && LooksLikeFront(ts) && Looks(ts[7], ";", 23, 24) && Looks(ts[8], "event", 24, 29)
  {
    hide R.TokensOf, R.Balanced, R.SpellAll, Lex, LooksLikeFront, Looks, ToLower;
    WordsLower();
    EmptyBalanced();
    Ahead(R.Word("EVENT"), [], 24, "event");
    assert [R.Word("EVENT")] + [] == EVENT_WORDS;
    Ahead(R.Mark(';'), EVENT_WORDS, 23, ";");
    var back := [R.Mark(';')] + EVENT_WORDS;
    FrontTokens(back);
    assert FRONT + (";" + ("EVENT" + "")) == SCRIPT;
    TidyLexes(Postgres, FRONT_WORDS + back);
  }

  lemma EventLexes()
    ensures Lex(Postgres, "EVENT").Ok? && |Lex(Postgres, "EVENT").value| == 1 && Looks(Lex(Postgres, "EVENT").value[0], "event", 0, 5)
  {
    hide R.TokensOf, R.Balanced, R.SpellAll, Lex, Looks, ToLower;
    WordsLower();
    EmptyBalanced();
    Ahead(R.Word("EVENT"), [], 0, "event");
    assert [R.Word("EVENT")] + [] == EVENT_WORDS && "EVENT" + "" == "EVENT";
    TidyLexes(Postgres, EVENT_WORDS);
  }

  lemma DropLexes()
    ensures Lex(Postgres, "DROP x").Ok? && |Lex(Postgres, "DROP x").value| == 2 && Looks(Lex(Postgres, "DROP x").value[0], "drop", 0, 4)
  {
    hide R.TokensOf, R.Balanced, R.SpellAll, Lex, Looks, ToLower;
    WordsLower();
    EmptyBalanced();
    Ahead(R.Word("x"), [], 5, "x");
    var a := [R.Word("x")] + [];
    Ahead(R.Gap(" "), a, 4, "");
    Ahead(R.Word("DROP"), [R.Gap(" ")] + a, 0, "drop");
    assert [R.Word("DROP")] + ([R.Gap(" ")] + a) == DROP_WORDS && "DROP" + (" " + ("x" + "")) == "DROP x";
    TidyLexes(Postgres, DROP_WORDS);
  }

  // ------------------------------------------------------------------
  // Where the statements end.

  lemma SplitterWords()
    ensures RoutineWord("event")
    ensures forall w :: w in ["begin", "drop", "x", "end", ";"] ==> !RoutineWord(w) && !NotRoutineWord(w)
  {
  }

  lemma BlocksOf(ts: seq<Token>, i: nat, blocks: nat)
    requires i + 1 < |ts| && ts[i].depth == 0 && ts[i + 1].lower in [";", "x", "drop", "end"]
    ensures ts[i].lower in ["create", "drop", "x", ";"] ==> Blocks(ts, i, true, blocks) == blocks
    ensures ts[i].lower == "begin" ==> Blocks(ts, i, true, blocks) == blocks + 1
    ensures ts[i].lower == "end" ==> Blocks(ts, i, true, blocks) == if blocks > 0 then blocks - 1 else 0
  {
  }

  /** EVENT, past all three ';', makes the first statement a routine. */
  lemma ScriptIsRoutine(ts: seq<Token>)
    requires |ts| == 9 && LooksLikeFront(ts) && Looks(ts[7], ";", 23, 24) && Looks(ts[8], "event", 24, 29)
    ensures RoutineDefinition(ts)
  {
    hide RoutineWord, NotRoutineWord;
    SplitterWords();
    assert RoutineWords(ts, 8, 9);
    assert RoutineWords(ts, 7, 9);
    assert RoutineWords(ts, 6, 9);
    assert RoutineWords(ts, 5, 9);
    assert RoutineWords(ts, 4, 9);
    assert RoutineWords(ts, 3, 9);
    assert RoutineWords(ts, 2, 9);
    assert RoutineWords(ts, 1, 9);
  }

  /** Its body ends at END. */
  lemma ScriptEnds(ts: seq<Token>)
    requires |ts| == 9 && LooksLikeFront(ts) && Looks(ts[7], ";", 23, 24) && Looks(ts[8], "event", 24, 29)
    ensures EndFrom(ts, 0) == 7 && EndFrom(ts, 8) == 9
  {
    hide RoutineWord, NotRoutineWord, RoutineDefinition, Blocks, NextLower;
    assert ts[0..] == ts && ts[8..] == [ts[8]];
    ScriptIsRoutine(ts);
    assert !RoutineDefinition([ts[8]]) by { OneWordIsNoRoutine(ts[8]); }
    assert StatementEnd(ts, 9, false, 0) == 9;
    assert StatementEnd(ts, 8, false, 0) == 9 by { assert !Semicolon(ts[8]); }
    BodyEnds(ts);
  }

  lemma OneWordIsNoRoutine(t: Token)
    requires t.lower == "event"
    ensures !RoutineDefinition([t])
  {
  }

  lemma BodyEnds(ts: seq<Token>)
    requires |ts| == 9 && LooksLikeFront(ts) && Looks(ts[7], ";", 23, 24) && Looks(ts[8], "event", 24, 29)
    ensures StatementEnd(ts, 0, true, 0) == 7
  {
    hide Blocks, NextLower;
    BlocksOf(ts, 2, 1);
    BlocksOf(ts, 3, 1);
    BlocksOf(ts, 5, 1);
    BlocksOf(ts, 6, 1);
    BlocksAt(ts);
    assert StatementEnd(ts, 7, true, 0) == 7;
    assert StatementEnd(ts, 6, true, 1) == 7;
    assert StatementEnd(ts, 5, true, 1) == 7;
    assert StatementEnd(ts, 4, true, 1) == 7;
    assert StatementEnd(ts, 3, true, 1) == 7;
    assert StatementEnd(ts, 2, true, 1) == 7;
    assert StatementEnd(ts, 1, true, 0) == 7;
  }

  lemma BlocksAt(ts: seq<Token>)
    requires |ts| == 9 && LooksLikeFront(ts) && Looks(ts[7], ";", 23, 24) && Looks(ts[8], "event", 24, 29)
    ensures Blocks(ts, 0, true, 0) == 0 && Blocks(ts, 1, true, 0) == 1 && Blocks(ts, 4, true, 1) == 1 && Blocks(ts, 7, true, 0) == 0
    ensures Blocks(ts, 2, true, 1) == 1
  {
  }

  lemma FrontIsNoRoutine(ts: seq<Token>)
    requires |ts| == 7 && LooksLikeFront(ts)
    ensures !RoutineDefinition(ts)
  {
    hide RoutineWord, NotRoutineWord;
    SplitterWords();
    assert !RoutineWords(ts, 7, 7);
    assert !RoutineWords(ts, 6, 7);
    assert !RoutineWords(ts, 5, 7);
    assert !RoutineWords(ts, 4, 7);
    assert !RoutineWords(ts, 3, 7);
    assert !RoutineWords(ts, 2, 7);
    assert !RoutineWords(ts, 1, 7);
  }

  /** Alone, the same words are no routine, so every ';' ends a statement. */
  lemma FrontEnds(ts: seq<Token>)
    requires |ts| == 7 && LooksLikeFront(ts)
    ensures EndFrom(ts, 0) == 2 && EndFrom(ts, 3) == 5 && EndFrom(ts, 6) == 7
  {
    hide RoutineWords, NextLower;
    assert ts[0..] == ts && ts[3..][0] == ts[3] && ts[6..][0] == ts[6];
    FrontIsNoRoutine(ts);
    assert StatementEnd(ts, 2, false, 0) == 2;
    assert StatementEnd(ts, 1, false, 0) == 2 by { assert !Semicolon(ts[1]); }
    assert StatementEnd(ts, 0, false, 0) == 2 by { assert !Semicolon(ts[0]); }
    assert StatementEnd(ts, 5, false, 0) == 5;
    assert StatementEnd(ts, 4, false, 0) == 5;
    assert StatementEnd(ts, 3, false, 0) == 5 by { assert !Semicolon(ts[3]); }
    assert StatementEnd(ts, 7, false, 0) == 7;
    assert StatementEnd(ts, 6, false, 0) == 7 by { assert !Semicolon(ts[6]); }
  }

  lemma ScriptSplits()
    ensures Split(Postgres, SCRIPT) == Ok([FRONT, "EVENT"])
  {
    hide Lex, TrimSpace, EndFrom, Segments, Pieces, Split;
    ScriptLexes();
    var ts := Lex(Postgres, SCRIPT).value;
    ScriptEnds(ts);
    SegmentsFrom(SCRIPT, ts, 0, 0);
    SegmentsFrom(SCRIPT, ts, 8, 24);
    assert |SCRIPT| == 29 && SCRIPT[0..23] == FRONT && SCRIPT[24..29] == "EVENT";
    Trims(FRONT);
    Trims("EVENT");
    assert Piece(SCRIPT, 0, 23) == [FRONT] && Piece(SCRIPT, 24, 29) == ["EVENT"];
    SplitLexed(Postgres, SCRIPT);
    assert [FRONT] + ["EVENT"] == [FRONT, "EVENT"];
  }

  lemma FrontSplits()
    ensures Split(Postgres, FRONT) == Ok(["CREATE BEGIN", "DROP x", "END"])
  {
    hide Lex, TrimSpace, EndFrom, Segments, Pieces, Split;
    FrontLexes();
    var ts := Lex(Postgres, FRONT).value;
    FrontEnds(ts);
    SegmentsFrom(FRONT, ts, 0, 0);
    SegmentsFrom(FRONT, ts, 3, 13);
    SegmentsFrom(FRONT, ts, 6, 20);
    assert |FRONT| == 23 && FRONT[0..12] == "CREATE BEGIN" && FRONT[13..19] == "DROP x" && FRONT[20..23] == "END";
    Trims("CREATE BEGIN");
    Trims("DROP x");
    Trims("END");
    assert Piece(FRONT, 0, 12) == ["CREATE BEGIN"] && Piece(FRONT, 13, 19) == ["DROP x"] && Piece(FRONT, 20, 23) == ["END"];
    SplitLexed(Postgres, FRONT);
    assert ["CREATE BEGIN"] + (["DROP x"] + ["END"]) == ["CREATE BEGIN", "DROP x", "END"];
  }

  /** The splitter's first piece of this script is cut into three when it is split on its own:
      what follows a statement can decide where that statement ends. */
  lemma PieceCanSplitAgain()
    ensures Split(Postgres, SCRIPT) == Ok([FRONT, "EVENT"])
    ensures Split(Postgres, FRONT) == Ok(["CREATE BEGIN", "DROP x", "END"])
  {
    hide *;
    ScriptSplits();
    FrontSplits();
  }

  // ------------------------------------------------------------------
  // What the guardrail says of the script and of its first piece.

  lemma ReadFromTokens(number: Numbers, s: string)
    requires TrimSpace(s) == s && Lex(Postgres, s).Ok? && Lex(Postgres, s).value != []
    ensures var ts := Lex(Postgres, s).value;
            && Classify(number, Postgres, s).kind == ClassifyTokens(number, Postgres, s, ts).kind
            && Classify(number, Postgres, s).isDrop == ClassifyTokens(number, Postgres, s, ts).isDrop
            && Classify(number, Postgres, s).isTruncate == ClassifyTokens(number, Postgres, s, ts).isTruncate
  {
    hide Lex, TrimSpace, ClassifyTokens;
  }

  lemma CreateIsAdmin()
    ensures !ReadVerb("create") && !BlockVerb("create") && !SessionVerb("create") && AdminVerb("create")
  {
  }

  lemma DropIsNoRead()
    ensures !ReadVerb("drop") && !BlockVerb("drop")
  {
  }

  lemma AdminVerbsAreOther(w: string)
    requires AdminVerb(w)
    ensures |w| < 2 || w[1] != 'v'
  {
  }

  lemma EventIsNoVerb()
    ensures !ReadVerb("event") && !BlockVerb("event") && !SessionVerb("event") && !AdminVerb("event")
  {
    hide AdminVerb;
    if AdminVerb("event") {
      AdminVerbsAreOther("event");
    }
  }

  lemma FirstWordKind(ts: seq<Token>)
    requires ts != [] && (ts[0].lower == "create" || ts[0].lower == "drop" || ts[0].lower == "event")
    ensures FirstKinds(ts) == if ts[0].lower == "event" then (Other, Other) else (DDL, DDL)
    ensures !HoldsBlock(ts)
  {
    hide BlockKind, WithKinds, ExplainRuns, ReadVerb, BlockVerb, SessionVerb, AdminVerb;
    CreateIsAdmin();
    DropIsNoRead();
    EventIsNoVerb();
  }

  lemma FirstWordTells(number: Numbers, s: string, ts: seq<Token>)
    requires ts != [] && (ts[0].lower == "create" || ts[0].lower == "event" || ts[0].lower == "drop")
    ensures var info := ClassifyTokens(number, Postgres, s, ts);
            && info.kind == (if ts[0].lower == "event" then Other else DDL)
            && info.isDrop == (ts[0].lower == "drop") && !info.isTruncate
  {
    hide HasEffectiveWhere, ExtractTables, TouchesSession, ControlsTransaction, TargetWord, TopInto, FirstKinds, HoldsBlock, Names;
    FirstWordKind(ts);
  }

  lemma PartsRead(number: Numbers)
    ensures var front := Classify(number, Postgres, FRONT); front.kind == DDL && !front.isDrop && !front.isTruncate
    ensures var event := Classify(number, Postgres, "EVENT"); event.kind == Other && !event.isDrop && !event.isTruncate
    ensures Classify(number, Postgres, "DROP x").isDrop
  {
    hide Lex, TrimSpace, ClassifyTokens, Classify;
    Trims(FRONT);
    Trims("EVENT");
    Trims("DROP x");
    FrontLexes();
    EventLexes();
    DropLexes();
    ReadFromTokens(number, FRONT);
    ReadFromTokens(number, "EVENT");
    ReadFromTokens(number, "DROP x");
    FirstWordTells(number, FRONT, Lex(Postgres, FRONT).value);
    FirstWordTells(number, "EVENT", Lex(Postgres, "EVENT").value);
    FirstWordTells(number, "DROP x", Lex(Postgres, "DROP x").value);
  }

  const DEFAULTS := Settings(false, false, {}, {})

  lemma ScriptIsAllowed(number: Numbers, merged: Info)
    requires ParsedAs(number, Postgres, SCRIPT, merged)
    ensures Evaluate(DEFAULTS, merged) == Allow
  {
    hide Split, Classify, Merges, Denied, Parts, TopKind, SomeLacksWhere, SomeTables, SomeRaises, Rank;
    ScriptSplits();
    PartsRead(number);
    ScriptTextDeniedExactly(number, Postgres, SCRIPT, merged, DEFAULTS);
    var parts := Parts(number, Postgres, [FRONT, "EVENT"]);
    ReadingsAreSingle(number, Postgres, FRONT);
    ReadingsAreSingle(number, Postgres, "EVENT");
    PartDeniedBecause(DEFAULTS, parts[0]);
    PartDeniedBecause(DEFAULTS, parts[1]);
    TopKindIsHighest(parts);
    assert Rank(Select) < Rank(Other) by { SelectRanksBelow(); }
    assert !Denied(DEFAULTS, merged);
    DeniedMeans(DEFAULTS, merged);
  }

  lemma SelectRanksBelow()
    ensures Rank(Select) < Rank(Other)
  {
  }

  lemma DeniedMeans(s: Settings, info: Info)
    ensures Denied(s, info) <==> Evaluate(s, info) != Allow
  {
  }

  /** Under the default settings the script passes though its first statement, sent alone, is refused as a DROP. */
  lemma ScriptCanBeMoreLenient(number: Numbers, merged: Info, alone: Info)
    requires ParsedAs(number, Postgres, SCRIPT, merged) && ParsedAs(number, Postgres, FRONT, alone)
    ensures Split(Postgres, SCRIPT) == Ok([FRONT, "EVENT"]) && !StaysWhole(Postgres, FRONT)
    ensures Evaluate(DEFAULTS, merged) == Allow && Evaluate(DEFAULTS, alone) != Allow && !Covers(merged, alone)
  {
    hide Split, Lex, Classify, Merges, Evaluate, Denied, Parts, TopKind, EndFrom, LooksLikeFront, Covers;
    ScriptSplits();
    FrontSplits();
    PartsRead(number);
    FrontLexes();
    FrontEnds(Lex(Postgres, FRONT).value);
    ScriptIsAllowed(number, merged);
    ScriptTextDeniedExactly(number, Postgres, FRONT, alone, DEFAULTS);
    var halves := Parts(number, Postgres, ["CREATE BEGIN", "DROP x", "END"]);
    ReadingsAreSingle(number, Postgres, "DROP x");
    PartDeniedBecause(DEFAULTS, halves[1]);
    assert Denied(DEFAULTS, halves[1]);
    DeniedMeans(DEFAULTS, alone);
    DeniedMeans(DEFAULTS, merged);
    RefusedWheneverExactly(merged, alone);
  }
}
