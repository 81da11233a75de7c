/** The CQL reader's verdict on every batch of a Cassandra restore. */
module CassandraAccepted {
  import opened Prelude
  import opened Bytes
  import opened Lexer
  import opened Splitter
  import opened Folder
  import opened Classifier
  import opened Policy
  import R = Render
  import opened RowBackup
  import opened RestoreText
  import opened ReadBack
  import opened RestoreData
  import opened RestoreVerdict
  import opened RestoreAccepted
  import opened Sentences
  import opened Cql
  import opened CassandraRestore

  // ------------------------------------------------------------------
  // A batch as lexemes.

  const BATCH_HEAD: seq<R.Lexeme> := [R.Word("BEGIN"), R.Gap(" "), R.Word("BATCH"), R.Gap("\n")]
  const BATCH_TAIL: seq<R.Lexeme> := [R.Word("APPLY"), R.Gap(" "), R.Word("BATCH")]

  function BatchLexemes(lists: seq<seq<R.Lexeme>>): seq<R.Lexeme> {
    BATCH_HEAD + (Body(lists) + BATCH_TAIL)
  }

  /** Sentences that hold no APPLY BATCH. */
  ghost predicate Child(xs: seq<R.Lexeme>) {
    Sentence(Generic, xs) && AllQuiet(xs) && Apart(xs, false)
  }

  ghost predicate AllChildren(lists: seq<seq<R.Lexeme>>) {
    forall i :: 0 <= i < |lists| ==> Child(lists[i])
  }

  lemma ChildrenAreSentences(lists: seq<seq<R.Lexeme>>)
    requires AllChildren(lists)
    ensures AllSentences(Generic, lists)
  {
    hide Sentence, AllQuiet, Apart;
  }

  lemma SpellEnds()
    ensures R.SpellAll(BATCH_HEAD) == "BEGIN BATCH\n" && R.SpellAll(BATCH_TAIL) == "APPLY BATCH"
  {
    hide R.SpellAll;
    assert BATCH_HEAD == [R.Word("BEGIN"), R.Gap(" ")] + [R.Word("BATCH"), R.Gap("\n")];
    R.SpellConcat([R.Word("BEGIN"), R.Gap(" ")], [R.Word("BATCH"), R.Gap("\n")]);
    SpellTwo(R.Word("BEGIN"), R.Gap(" "));
    SpellTwo(R.Word("BATCH"), R.Gap("\n"));
    SpellThree(R.Word("APPLY"), R.Gap(" "), R.Word("BATCH"));
  }

  lemma SpellBatch(lists: seq<seq<R.Lexeme>>)
    ensures R.SpellAll(BatchLexemes(lists)) == "BEGIN BATCH\n" + (R.SpellAll(Body(lists)) + "APPLY BATCH")
    ensures R.SpellAll(BatchLexemes(lists)) == BatchText(Texts(lists))
  {
    hide R.SpellAll, Body, Lines;
    SpellEnds();
    R.SpellConcat(Body(lists), BATCH_TAIL);
    R.SpellConcat(BATCH_HEAD, Body(lists) + BATCH_TAIL);
    LinesSpell(lists);
    var t := R.SpellAll(Body(lists));
    assert "BEGIN BATCH\n" + (t + "APPLY BATCH") == "BEGIN BATCH\n" + t + "APPLY BATCH";
  }

  lemma BatchWords()
    ensures R.Formed(Generic, R.Word("BEGIN")) && R.Formed(Generic, R.Word("BATCH")) && R.Formed(Generic, R.Word("APPLY"))
    ensures ToLower("BEGIN") == "begin" && ToLower("BATCH") == "batch" && ToLower("APPLY") == "apply"
  {
    assert ToLower("BEGIN") == ['b', 'e', 'g', 'i', 'n'];
    assert ToLower("BATCH") == ['b', 'a', 't', 'c', 'h'];
    assert ToLower("APPLY") == ['a', 'p', 'p', 'l', 'y'];
  }

  lemma EndsRead()
    ensures Open(Generic, BATCH_HEAD) && Solid(Generic, BATCH_TAIL)
  {
    hide Open, Solid, R.SpellAll, R.Formed;
    BatchWords();
    KeywordOpen(Generic, "BATCH");
    Spaced(Generic, R.Word("BATCH"), "\n");
    var more := [R.Gap(" ")] + [R.Word("BATCH"), R.Gap("\n")];
    SpellFirst(R.Gap(" "), [R.Word("BATCH"), R.Gap("\n")]);
    assert R.SpellAll(more)[..1] == " ";
    assert R.Fits(R.Word("BEGIN"), " ") && R.Fits(R.Word("APPLY"), " ") by { NotIdent(); }
    ConsOpen(Generic, R.Word("BEGIN"), more);
    assert [R.Word("BEGIN")] + more == BATCH_HEAD;
    WordSolid(Generic, "BATCH");
    SpaceFormed(Generic);
    OneSolid(Generic, R.Gap(" "));
    Lead(Generic, [R.Gap(" ")], [R.Word("BATCH")]);
    SpellFirst(R.Gap(" "), [R.Word("BATCH")]);
    ConsSolid(Generic, R.Word("APPLY"), [R.Gap(" ")] + [R.Word("BATCH")]);
    assert [R.Word("APPLY")] + ([R.Gap(" ")] + [R.Word("BATCH")]) == BATCH_TAIL;
  }

  lemma EndTokensOf(at: nat)
    ensures R.Balanced(BATCH_HEAD, 0) && R.Balanced(BATCH_TAIL, 0)
    ensures R.TokensOf(BATCH_HEAD, at, 0) == [R.TokenOf(R.Word("BEGIN"), at, 0), R.TokenOf(R.Word("BATCH"), at + 6, 0)]
    ensures R.TokensOf(BATCH_TAIL, at, 0) == [R.TokenOf(R.Word("APPLY"), at, 0), R.TokenOf(R.Word("BATCH"), at + 6, 0)]
  {
    hide R.TokensOf, R.Balanced, R.TokenOf;
    TokensEnd(R.Gap("\n"), at + 11);
    TokensTake(R.Word("BATCH"), [R.Gap("\n")], at + 6);
    assert [R.Word("BATCH")] + [R.Gap("\n")] == [R.Word("BATCH"), R.Gap("\n")];
    TokensSkip(R.Gap(" "), [R.Word("BATCH"), R.Gap("\n")], at + 5);
    TokensTake(R.Word("BEGIN"), [R.Gap(" ")] + [R.Word("BATCH"), R.Gap("\n")], at);
    assert [R.Word("BEGIN")] + ([R.Gap(" ")] + [R.Word("BATCH"), R.Gap("\n")]) == BATCH_HEAD;
    TokensEnd(R.Word("BATCH"), at + 6);
    TokensSkip(R.Gap(" "), [R.Word("BATCH")], at + 5);
    TokensTake(R.Word("APPLY"), [R.Gap(" ")] + [R.Word("BATCH")], at);
    assert [R.Word("APPLY")] + ([R.Gap(" ")] + [R.Word("BATCH")]) == BATCH_TAIL;
  }

  // ------------------------------------------------------------------
  // The body.

  lemma LineChild(xs: seq<R.Lexeme>)
    requires AllQuiet(xs) && Apart(xs, false)
    ensures AllQuiet(Line(xs)) && Apart(Line(xs), false) && !EndsInName(Line(xs), false)
  {
    var e := EndsInName(xs, false);
    assert CLOSING[1..] == [R.Gap("\n")] && [R.Gap("\n")][1..] == [];
    assert Apart([R.Gap("\n")], false) && !EndsInName([R.Gap("\n")], false);
    assert Apart(CLOSING, e) && !EndsInName(CLOSING, e);
    ApartConcat(xs, CLOSING, false);
    assert Line(xs)[0] == R.Gap("  ") && Line(xs)[1..] == xs + CLOSING;
    LineQuiet(xs);
  }

  lemma LineQuiet(xs: seq<R.Lexeme>)
    requires AllQuiet(xs)
    ensures AllQuiet(Line(xs))
  {
    hide ToLower, QuietWord;
  }

  lemma {:induction false} BodyChild(lists: seq<seq<R.Lexeme>>)
    requires AllChildren(lists)
    ensures AllQuiet(Body(lists)) && Apart(Body(lists), false)
    decreases |lists|
  {
    hide Sentence, Line, Apart, EndsInName, Quiet;
    if lists == [] {
      NothingApart();
    } else {
      BodyChild(lists[1..]);
      LineChild(lists[0]);
      ApartConcat(Line(lists[0]), Body(lists[1..]), false);
    }
  }

  /** The body lexes, alone and inside the batch. */
  lemma BodyUnapplied(lists: seq<seq<R.Lexeme>>, at: nat)
    requires AllChildren(lists)
    ensures R.Balanced(Body(lists), 0) && Unapplied(R.TokensOf(Body(lists), at, 0), false)
  {
    hide R.TokensOf, R.Balanced, R.Readable, R.ReadableBefore, Apart, AllQuiet, Body, AllFormed, Unapplied, Child;
    ChildrenAreSentences(lists);
    BodyOpen(Generic, lists);
    OpenReads(Generic, Body(lists));
    R.ReadableBeforeNothing(Generic, Body(lists));
    ReadableIsFormed(Generic, Body(lists));
    BodyChild(lists);
    ApartTokens(Generic, Body(lists), at, 0, false);
  }

  lemma {:induction false} NoApplyBefore(ts: seq<Token>, i: nat, a: nat)
    requires i <= a < |ts| && Applies(ts, a) && forall k :: i <= k < a ==> !Applies(ts, k)
    ensures ApplyAt(ts, i) == a
    decreases a - i
  {
    hide Applies;
    if i < a {
      NoApplyBefore(ts, i + 1, a);
    }
  }

  lemma ApplyFound(ts: seq<Token>, body: seq<Token>, begin: Token, batch: Token, apply: Token, last: Token)
    requires ts == [begin, batch] + (body + [apply, last])
    requires Unapplied(body, false) && apply.lower == "apply" && last.lower == "batch"
    ensures ApplyAt(ts, 2) == 2 + |body| && ts[2 + |body|] == apply && ts[1] == batch && ts[0] == begin
  {
    var a := 2 + |body|;
    assert ts[a] == apply && ts[a + 1] == last;
    forall k | 2 <= k < a ensures !Applies(ts, k) {
      assert ts[k] == body[k - 2] && QuietToken(body[k - 2]);
      if k + 1 < a {
        assert ts[k + 1] == body[k - 1] && QuietToken(body[k - 1]);
      }
    }
    NoApplyBefore(ts, 2, a);
  }

  // ------------------------------------------------------------------
  // The batch.

  lemma BatchLexes(lists: seq<seq<R.Lexeme>>)
    requires AllChildren(lists)
    ensures var text, n := BatchText(Texts(lists)), |R.SpellAll(Body(lists))|;
            && TrimSpace(text) == text && R.Balanced(Body(lists), 0)
            && Lex(Generic, text) == Ok([R.TokenOf(R.Word("BEGIN"), 0, 0), R.TokenOf(R.Word("BATCH"), 6, 0)]
                                        + (R.TokensOf(Body(lists), 12, 0)
                                           + [R.TokenOf(R.Word("APPLY"), 12 + n, 0), R.TokenOf(R.Word("BATCH"), 12 + n + 6, 0)]))
  {
    hide *;
    var xs := BatchLexemes(lists);
    ChildrenAreSentences(lists);
    BodyOpen(Generic, lists);
    OpenBalanced(Generic, Body(lists));
    EndsRead();
    Lead(Generic, Body(lists), BATCH_TAIL);
    Lead(Generic, BATCH_HEAD, Body(lists) + BATCH_TAIL);
    BatchIs(lists);
    SolidReads(Generic, xs);
    R.ReadableBeforeNothing(Generic, xs);
    ReadableIsFormed(Generic, xs);
    R.LexReads(Generic, xs);
    SpellBatch(lists);
    BatchTrims(xs, lists);
    BatchTokens(lists);
  }

  lemma SolidReads(d: Dialect, xs: seq<R.Lexeme>)
    requires Solid(d, xs)
    ensures R.ReadableBefore(d, xs, "") && R.Balanced(xs, 0)
  {
    SolidAt(d, xs, "");
  }

  lemma BatchIs(lists: seq<seq<R.Lexeme>>)
    ensures BatchLexemes(lists) == BATCH_HEAD + (Body(lists) + BATCH_TAIL)
  {
  }

  lemma BatchTrims(xs: seq<R.Lexeme>, lists: seq<seq<R.Lexeme>>)
    requires xs == BatchLexemes(lists) && AllFormed(Generic, xs)
    ensures TrimSpace(R.SpellAll(xs)) == R.SpellAll(xs)
  {
    hide TrimSpace, R.SpellAll, AllFormed, Body;
    assert xs[0] == R.Word("BEGIN") && xs[|xs| - 1] == R.Word("BATCH");
    TextTrimsToItself(Generic, xs);
  }

  lemma BatchTokens(lists: seq<seq<R.Lexeme>>)
    requires R.Balanced(Body(lists), 0) && R.Balanced(BatchLexemes(lists), 0)
    ensures var n := |R.SpellAll(Body(lists))|;
            R.TokensOf(BatchLexemes(lists), 0, 0)
            == [R.TokenOf(R.Word("BEGIN"), 0, 0), R.TokenOf(R.Word("BATCH"), 6, 0)]
               + (R.TokensOf(Body(lists), 12, 0)
                  + [R.TokenOf(R.Word("APPLY"), 12 + n, 0), R.TokenOf(R.Word("BATCH"), 12 + n + 6, 0)])
  {
    hide R.TokensOf, R.Balanced, R.TokenOf, R.SpellAll, Body;
    SpellEnds();
    EndTokensOf(0);
    EndTokensOf(12 + |R.SpellAll(Body(lists))|);
    R.TokensConcat(Body(lists), BATCH_TAIL, 12, 0);
    R.TokensConcat(BATCH_HEAD, Body(lists) + BATCH_TAIL, 0, 0);
  }

  /** The reader finds the batch's body, and the splitter its statements. */
  lemma BatchShape(lists: seq<seq<R.Lexeme>>)
    requires AllChildren(lists)
    ensures var text := BatchText(Texts(lists));
            && TrimSpace(text) == text && Lex(Generic, text).Ok? && Lex(Generic, text).value != []
            && ShapeOf(text, Lex(Generic, text).value) == Batch("\n" + R.SpellAll(Body(lists)))
            && Split(Generic, "\n" + R.SpellAll(Body(lists))) == Ok(Texts(lists))
  {
    hide R.TokensOf, R.Balanced, R.SpellAll, Body, Lex, TrimSpace, Split, Child, Texts, BatchText, ApplyAt, Text, Unapplied, ToLower;
    var text, n := BatchText(Texts(lists)), |R.SpellAll(Body(lists))|;
    BatchLexes(lists);
    BodyUnapplied(lists, 12);
    BatchWords();
    var ts := Lex(Generic, text).value;
    ApplyFound(ts, R.TokensOf(Body(lists), 12, 0), ts[0], ts[1], R.TokenOf(R.Word("APPLY"), 12 + n, 0), R.TokenOf(R.Word("BATCH"), 12 + n + 6, 0));
    SpellBatch(lists);
    BodyText(text, R.SpellAll(Body(lists)));
    ChildrenAreSentences(lists);
    SplitUndoesLines(Generic, lists);
  }

  lemma BodyText(text: string, body: string)
    requires text == "BEGIN BATCH\n" + (body + "APPLY BATCH")
    ensures Text(text, 11, 12 + |body|) == "\n" + body
  {
    assert text[11..12 + |body|] == "\n" + body;
  }

  // ------------------------------------------------------------------
  // Undo statements as children.

  lemma StatementHasNoMark(e: Engine, item: Item, s: Statement)
    requires EncodedStatement(s)
    ensures NoMark(StatementLexemes(e, item, s))
  {
    hide EncodedStatement, StatementLexemes, NoMark, EncodedCell, EncodedCondition;
    EncodedParts(s);
    match s
    case InsertRows(names, overriding, rows) => InsertHasNoMark(e, item, names, overriding, rows);
    case UpdateRow(a, c) => UpdateHasNoMark(e, item, a, c);
  }

  lemma UpdateHasNoMark(e: Engine, item: Item, a: seq<Assignment>, c: seq<Condition>)
    requires forall i :: 0 <= i < |a| ==> EncodedCell(a[i].cell)
    requires forall i :: 0 <= i < |c| ==> EncodedCondition(c[i])
    ensures NoMark(StatementLexemes(e, item, UpdateRow(a, c)))
  {
    hide EncodedCell, EncodedCondition, JoinLexemes, AssignmentParts, ConditionParts, AssignmentLexemes, ConditionLexemes, TableLexemes, AllCalm, AllTame;
    forall i | 0 <= i < |a| ensures NoMark(AssignmentParts(e, a)[i]) {
      AssignmentIsCalm(e, a[i]);
      CalmHasNoMark(AssignmentLexemes(e, a[i]));
    }
    JoinHasNoMark(AssignmentParts(e, a), COMMA);
    forall i | 0 <= i < |c| ensures NoMark(ConditionParts(e, c)[i]) {
      ConditionIsTame(e, c[i]);
      TameIsCalm(ConditionLexemes(e, c[i]));
      CalmHasNoMark(ConditionLexemes(e, c[i]));
    }
    JoinHasNoMark(ConditionParts(e, c), Keyword("AND"));
    TableHasNoMark(e, item.schema, item.table);
  }

  lemma FirstWord(e: Engine, item: Item, s: Statement)
    ensures StatementLexemes(e, item, s) != [] && R.LowerOf(StatementLexemes(e, item, s)[0]) != "create"
  {
    hide ToLower, TableLexemes, Parens, JoinLexemes, Keyword, Scope;
    StatementWords();
  }

  lemma StatementIsChild(item: Item, s: Statement)
    requires Planned(s)
    ensures Child(StatementLexemes(Cassandra, item, s))
  {
    hide Solid, NoMark, Apart, AllQuiet, StatementLexemes, EncodedStatement, R.LowerOf;
    StatementSolid(Generic, Cassandra, item, s);
    StatementHasNoMark(Cassandra, item, s);
    StatementEnds(Generic, Cassandra, item, s);
    StatementIsQuiet(Cassandra, item, s);
    StatementApart(Cassandra, item, s);
    FirstWord(Cassandra, item, s);
  }

  function LexemesOf(item: Item, ss: seq<Statement>): (r: seq<seq<R.Lexeme>>)
    ensures |r| == |ss| && forall i :: 0 <= i < |ss| ==> r[i] == StatementLexemes(Cassandra, item, ss[i])
  {
    if ss == [] then [] else [StatementLexemes(Cassandra, item, ss[0])] + LexemesOf(item, ss[1..])
  }

  function TextsOf(item: Item, ss: seq<Statement>): (r: seq<string>)
    ensures |r| == |ss| && forall i :: 0 <= i < |ss| ==> r[i] == StatementText(Cassandra, item, ss[i])
  {
    if ss == [] then [] else [StatementText(Cassandra, item, ss[0])] + TextsOf(item, ss[1..])
  }

  ghost predicate AllPlanned(ss: seq<Statement>) {
    forall i :: 0 <= i < |ss| ==> Planned(ss[i])
  }

  lemma StatementsAreChildren(item: Item, ss: seq<Statement>)
    requires AllPlanned(ss)
    ensures AllChildren(LexemesOf(item, ss)) && Texts(LexemesOf(item, ss)) == TextsOf(item, ss)
  {
    hide Planned, Child, StatementLexemes, StatementText, R.SpellAll, Texts, TextsOf, LexemesOf;
    forall i | 0 <= i < |ss| ensures Child(LexemesOf(item, ss)[i]) && Texts(LexemesOf(item, ss))[i] == TextsOf(item, ss)[i] {
      StatementIsChild(item, ss[i]);
      PlannedIsEncoded(ss[i]);
      LexemesSpellStatement(Cassandra, item, ss[i]);
    }
  }

  lemma PlannedIsEncoded(s: Statement)
    requires Planned(s)
    ensures EncodedStatement(s)
  {
  }

  // ------------------------------------------------------------------
  // The verdict.

  /** What an accepted batch reads as. */
  predicate Accepted(info: Info) {
    && (info.kind == Insert || info.kind == Update) && info.hasWhere
    && !info.isScript && info.unscoped == [] && !info.isDrop && !info.isTruncate
  }

  predicate ChildAccepted(info: Info) {
    info.kind == Insert || (info.kind == Update && info.hasWhere)
  }

  lemma {:induction false} FoldAccepts(result: Info, infos: seq<Info>)
    requires Accepted(result) && forall i :: 0 <= i < |infos| ==> ChildAccepted(infos[i])
    ensures var r := FoldChildren(result, infos);
            && r.Ok? && Accepted(r.value)
            && (r.value.kind == Update <==> result.kind == Update || exists i :: 0 <= i < |infos| && infos[i].kind == Update)
    decreases |infos|
  {
    if infos != [] {
      assert ChildAccepted(infos[0]);
      var next := FoldChild(result, infos[0]);
      FoldAccepts(next, infos[1..]);
      var rest := infos[1..];
      if exists i :: 0 <= i < |infos| && infos[i].kind == Update {
        var i :| 0 <= i < |infos| && infos[i].kind == Update;
        if i > 0 {
          assert rest[i - 1].kind == Update;
        }
      }
      if exists i :: 0 <= i < |rest| && rest[i].kind == Update {
        var i :| 0 <= i < |rest| && rest[i].kind == Update;
        assert infos[i + 1].kind == Update;
      }
    }
  }

  lemma ChildReads(number: Numbers, item: Item, s: Statement, info: Info)
    requires ReadsNumbers(number) && Planned(s) && ParsedAs(number, Generic, StatementText(Cassandra, item, s), info)
    ensures ChildAccepted(info) && info.kind == MeantKind(s)
  {
    hide Split, Classify, ReadsNumbers, Planned, StatementText, Denied;
    UndoStatementIsAccepted(number, Generic, Cassandra, item, s, Settings(false, false, {}, {}));
  }

  lemma AcceptedIsAllowed(s: Settings, info: Info)
    requires Accepted(info)
    ensures Denied(s, info) <==> s.readOnly && !s.cleared
  {
  }

  lemma SameUpdates(ss: seq<Statement>, infos: seq<Info>)
    requires |infos| == |ss| && forall i :: 0 <= i < |ss| ==> infos[i].kind == MeantKind(ss[i])
    ensures (exists i :: 0 <= i < |infos| && infos[i].kind == Update) <==> exists i :: 0 <= i < |ss| && ss[i].UpdateRow?
  {
    if exists i :: 0 <= i < |ss| && ss[i].UpdateRow? {
      var i :| 0 <= i < |ss| && ss[i].UpdateRow?;
      assert infos[i].kind == Update;
    }
  }

  /** Main result: whatever the names and values, the CQL reader accepts a batch of undo statements as an UPDATE, or
      an INSERT if it holds no UPDATE, with an effective WHERE, and the guardrail refuses it only to a read-only role. */
  lemma BatchIsAccepted(number: Numbers, item: Item, ss: seq<Statement>, r: CqlResult, settings: Settings)
    requires ReadsNumbers(number) && AllPlanned(ss) && ss != []
    requires ReadsCql(number, BatchText(TextsOf(item, ss)), r)
    ensures r.Ok? && r.value.hasWhere
    ensures r.value.kind == if exists i :: 0 <= i < |ss| && ss[i].UpdateRow? then Update else Insert
    ensures Denied(settings, r.value) <==> settings.readOnly && !settings.cleared
  {
    hide Split, Lex, TrimSpace, ShapeOf, ReadsNumbers, Planned, BatchText, Body, R.SpellAll, LexemesOf, TextsOf, Texts, Child, Denied, ParsedAs, FoldChildren, StatementText;
    var texts := TextsOf(item, ss);
    var raw := BatchText(texts);
    StatementsAreChildren(item, ss);
    BatchShape(LexemesOf(item, ss));
    var infos: seq<Info> :| ParsedAll(number, texts, infos) && r == FoldChildren(EmptyBatch(raw), infos);
    forall i | 0 <= i < |infos| ensures ChildAccepted(infos[i]) && infos[i].kind == MeantKind(ss[i]) {
      ChildReads(number, item, ss[i], infos[i]);
    }
    FoldAccepts(EmptyBatch(raw), infos);
    AcceptedIsAllowed(settings, r.value);
    SameUpdates(ss, infos);
  }

  // ------------------------------------------------------------------
  // All batches.

  /** The statements the CQL reader finds in a text that is a batch. */
  function ChildrenIn(cql: string): seq<string> {
    var raw := TrimSpace(cql);
    match Lex(Generic, raw)
    case Err(_) => []
    case Ok(ts) => if ts == [] || !ShapeOf(raw, ts).Batch? then [] else SplitOrNothing(ShapeOf(raw, ts).body)
  }

  function SplitOrNothing(body: string): seq<string> {
    match Split(Generic, body)
    case Err(_) => []
    case Ok(pieces) => pieces
  }

  function AllChildrenIn(batches: seq<string>): seq<string> {
    if batches == [] then [] else ChildrenIn(batches[0]) + AllChildrenIn(batches[1..])
  }

  lemma ChildrenOfBatch(item: Item, ss: seq<Statement>)
    requires AllPlanned(ss)
    ensures ChildrenIn(BatchText(TextsOf(item, ss))) == TextsOf(item, ss)
  {
    hide Split, Lex, TrimSpace, ShapeOf, Planned, BatchText, Body, R.SpellAll, LexemesOf, TextsOf, Texts, Child;
    StatementsAreChildren(item, ss);
    BatchShape(LexemesOf(item, ss));
  }

  lemma {:induction false} TextsSlice(item: Item, ss: seq<Statement>, a: nat, b: nat)
    requires a <= b <= |ss|
    ensures TextsOf(item, ss)[a..b] == TextsOf(item, ss[a..b])
  {
    hide StatementText, TextsOf;
  }

  /** Main result: what the reader finds in all the batches, put together, is the statement list, in order. */
  lemma {:induction false} BatchesAreUndone(item: Item, ss: seq<Statement>, start: nat)
    requires AllPlanned(ss) && start <= |ss|
    ensures AllChildrenIn(BatchesFrom(TextsOf(item, ss), start)) == TextsOf(item, ss)[start..]
    decreases |ss| - start
  {
    hide ChildrenIn, Planned, BatchText, TextsOf;
    var texts := TextsOf(item, ss);
    if start < |ss| {
      var end := GroupEnd(|ss|, start);
      var group := ss[start..end];
      TextsSlice(item, ss, start, end);
      GroupPlanned(ss, start, end);
      ChildrenOfBatch(item, group);
      BatchesFirst(texts, start);
      var rest := BatchesFrom(texts, start + BATCH_SIZE);
      assert BatchesFrom(texts, start)[1..] == rest;
      if start + BATCH_SIZE <= |ss| {
        BatchesAreUndone(item, ss, start + BATCH_SIZE);
        assert texts[start..] == texts[start..end] + texts[start + BATCH_SIZE..];
      } else {
        assert rest == [];
        assert texts[start..] == texts[start..end] + [];
      }
    }
  }

  lemma GroupPlanned(ss: seq<Statement>, start: nat, end: nat)
    requires AllPlanned(ss) && start <= end <= |ss|
    ensures AllPlanned(ss[start..end])
  {
    hide Planned;
  }

  lemma BatchesFirst(texts: seq<string>, start: nat)
    requires start < |texts|
    ensures BatchesFrom(texts, start) == [BatchText(texts[start..GroupEnd(|texts|, start)])] + BatchesFrom(texts, start + BATCH_SIZE)
    ensures |texts[start..GroupEnd(|texts|, start)]| <= BATCH_SIZE
  {
    hide BatchText;
  }

  // ------------------------------------------------------------------
  // The plan's statements qualify.

  ghost predicate EncodedCqlRows(p: CqlPayload) {
    forall i :: 0 <= i < |p.rows| ==> EncodedRow(p.rows[i])
  }

  lemma {:induction false} CqlPartsEncoded(p: CqlPayload, row: seq<BackupValue>, n: nat)
    requires EncodedRow(row) && n <= |p.columns|
    ensures forall j :: 0 <= j < |CqlAssignments(p, row, n)| ==> EncodedCell(CqlAssignments(p, row, n)[j].cell)
    ensures forall j :: 0 <= j < |CqlConditions(p, row, n)| ==> EncodedCondition(CqlConditions(p, row, n)[j])
    ensures forall j :: 0 <= j < |CqlCells(row, n)| ==> EncodedCell(CqlCells(row, n)[j])
    decreases n
  {
    hide Named, Encoded, ColumnIndex;
    if n > 0 {
      CqlPartsEncoded(p, row, n - 1);
    }
  }

  lemma RowStatementPlanned(kind: WriteKind, p: CqlPayload, row: seq<BackupValue>)
    requires EncodedRow(row)
    ensures forall s :: s in RowStatement(kind, p, row) ==> Planned(s)
  {
    hide EncodedRow, EncodedCell, EncodedCondition, CqlAssignments, CqlConditions, CqlCells;
    CqlPartsEncoded(p, row, |p.columns|);
  }

  lemma {:induction false} CqlStatementsPlanned(kind: WriteKind, p: CqlPayload, rows: seq<seq<BackupValue>>)
    requires forall i :: 0 <= i < |rows| ==> EncodedRow(rows[i])
    ensures AllPlanned(CqlStatements(kind, p, rows))
    decreases |rows|
  {
    hide EncodedRow, RowStatement, Planned;
    if rows != [] {
      CqlStatementsPlanned(kind, p, rows[..|rows| - 1]);
      RowStatementPlanned(kind, p, rows[|rows| - 1]);
    }
  }

  /** Every batch of a Cassandra restore is taken apart into its statements and accepted. */
  lemma RestoreIsReadBack(number: Numbers, kind: WriteKind, p: CqlPayload, start: nat, r: CqlResult, settings: Settings)
    requires ReadsNumbers(number) && EncodedCqlRows(p) && p.keyspace != ""
    requires start < |CqlStatements(kind, p, p.rows)|
    requires var texts := TextsOf(Item(kind, p.keyspace, p.table), CqlStatements(kind, p, p.rows));
             ReadsCql(number, BatchText(texts[start..GroupEnd(|texts|, start)]), r)
    ensures var texts := TextsOf(Item(kind, p.keyspace, p.table), CqlStatements(kind, p, p.rows));
            AllChildrenIn(BatchesFrom(texts, 0)) == texts
    ensures r.Ok? && r.value.hasWhere && (r.value.kind == Insert || r.value.kind == Update)
    ensures Denied(settings, r.value) <==> settings.readOnly && !settings.cleared
  {
    hide ReadsNumbers, Planned, BatchText, TextsOf, CqlStatements, Denied, ReadsCql, AllChildrenIn, EncodedRow, BatchesFrom;
    var item, ss := Item(kind, p.keyspace, p.table), CqlStatements(kind, p, p.rows);
    CqlStatementsPlanned(kind, p, p.rows);
    BatchesAreUndone(item, ss, 0);
    var texts := TextsOf(item, ss);
    assert texts[0..] == texts;
    var end := GroupEnd(|ss|, start);
    TextsSlice(item, ss, start, end);
    GroupPlanned(ss, start, end);
    BatchIsAccepted(number, item, ss[start..end], r, settings);
  }
}
