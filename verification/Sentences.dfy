/** Statements written one to a line and closed by ';' are cut apart again by the splitter. */
module Sentences {
  import opened Prelude
  import opened Bytes
  import opened Lexer
  import opened Splitter
  import R = Render
  import opened RestoreText
  import opened ReadBack
  import opened RestoreData
  import opened RestoreVerdict
  import opened RestoreAccepted

  /** A statement as lexemes: it reads alone, holds no ';', and defines no routine. */
  ghost predicate Sentence(d: Dialect, xs: seq<R.Lexeme>) {
    && Solid(d, xs) && NoMark(xs)
    && xs != [] && !xs[0].Gap? && !EndsInGap(xs)
    && R.LowerOf(xs[0]) != "create"
  }

  ghost predicate AllSentences(d: Dialect, lists: seq<seq<R.Lexeme>>) {
    forall i :: 0 <= i < |lists| ==> Sentence(d, lists[i])
  }

  const CLOSING: seq<R.Lexeme> := [R.Mark(';'), R.Gap("\n")]

  function Line(xs: seq<R.Lexeme>): seq<R.Lexeme> {
    [R.Gap("  ")] + (xs + CLOSING)
  }

  function Body(lists: seq<seq<R.Lexeme>>): seq<R.Lexeme> {
    if lists == [] then [] else Line(lists[0]) + Body(lists[1..])
  }

  function Texts(lists: seq<seq<R.Lexeme>>): (r: seq<string>)
    ensures |r| == |lists|
    ensures forall i :: 0 <= i < |lists| ==> r[i] == R.SpellAll(lists[i])
  {
    if lists == [] then [] else [R.SpellAll(lists[0])] + Texts(lists[1..])
  }

  // ------------------------------------------------------------------
  // Trimming.

  predicate White(w: string) {
    forall i :: 0 <= i < |w| ==> AsciiSpace(w[i])
  }

  lemma {:induction false} TrimRuns(s: string, i: nat, e: nat)
    requires i <= e <= |s| && (forall k :: i <= k < e ==> AsciiSpace(s[k])) && SpaceRuneAt(s, e) == 0
    ensures TrimFrom(s, i) == e
    decreases e - i
  {
    if i < e {
      TrimRuns(s, i + 1, e);
    }
  }

  lemma TrimLeading(w: string, t: string)
    requires White(w) && t != "" && PlainEnd(t[0]) && PlainEnd(t[|t| - 1])
    ensures TrimSpace(w + t) == t
  {
    var s := w + t;
    assert s[|w|] == t[0] && s[|s| - 1] == t[|t| - 1];
    TrimRuns(s, 0, |w|);
    assert TrimHigh(s) == |s|;
    assert s[|w|..|s|] == t;
  }

  lemma TrimAll(w: string)
    requires White(w)
    ensures TrimSpace(w) == ""
  {
    TrimRuns(w, 0, |w|);
  }

  // ------------------------------------------------------------------
  // One line.

  lemma SpellLine(xs: seq<R.Lexeme>)
    ensures R.SpellAll(Line(xs)) == "  " + R.SpellAll(xs) + ";\n"
  {
    hide R.SpellAll;
    R.SpellConcat([R.Gap("  ")], xs + CLOSING);
    R.SpellConcat(xs, CLOSING);
    SpellOne(R.Gap("  "));
    SpellTwo(R.Mark(';'), R.Gap("\n"));
    var t := R.SpellAll(xs);
    assert "  " + (t + ";\n") == "  " + t + ";\n";
  }

  lemma LineTokens(xs: seq<R.Lexeme>, at: nat)
    requires R.Balanced(xs, 0)
    ensures R.Balanced(Line(xs), 0)
    ensures R.TokensOf(Line(xs), at, 0) == R.TokensOf(xs, at + 2, 0) + [R.TokenOf(R.Mark(';'), at + 2 + |R.SpellAll(xs)|, 0)]
  {
    hide R.TokensOf, R.Balanced, R.SpellAll;
    var semi := at + 2 + |R.SpellAll(xs)|;
    EndTokens(semi);
    R.TokensConcat(xs, CLOSING, at + 2, 0);
    GapFirst(xs + CLOSING, at);
  }

  lemma GapFirst(xs: seq<R.Lexeme>, at: nat)
    requires R.Balanced(xs, 0)
    ensures R.Balanced([R.Gap("  ")] + xs, 0) && R.TokensOf([R.Gap("  ")] + xs, at, 0) == R.TokensOf(xs, at + 2, 0)
  {
    var all := [R.Gap("  ")] + xs;
    assert all[1..] == xs;
    var rest := R.TokensOf(xs, at + 2, 0);
    assert [] + rest == rest;
  }

  lemma EndTokens(at: nat)
    ensures R.Balanced(CLOSING, 0) && R.TokensOf(CLOSING, at, 0) == [R.TokenOf(R.Mark(';'), at, 0)]
  {
    hide R.TokensOf, R.Balanced, R.TokenOf;
    TokensEnd(R.Gap("\n"), at + 1);
    TokensTake(R.Mark(';'), [R.Gap("\n")], at);
    assert [R.Mark(';')] + [R.Gap("\n")] == CLOSING;
  }

  lemma LineOpen(d: Dialect, xs: seq<R.Lexeme>)
    requires Sentence(d, xs)
    ensures Open(d, Line(xs))
  {
    hide R.SpellAll, R.TokensOf, R.Balanced, Solid;
    SolidAt(d, xs, ";\n");
    LineTokens(xs, 0);
    forall rest ensures R.ReadableBefore(d, Line(xs), rest) {
      LineReads(d, xs, rest);
    }
  }

  lemma LineReads(d: Dialect, xs: seq<R.Lexeme>, rest: string)
    requires Sentence(d, xs)
    ensures R.ReadableBefore(d, Line(xs), rest)
  {
    hide R.SpellAll, R.Balanced, Solid, StopsAt;
    SpellTwo(R.Mark(';'), R.Gap("\n"));
    assert R.SpellAll(CLOSING) == ";\n";
    EndReads(d, rest);
    assert StopsAt(";\n" + rest) by { SemicolonStops(rest); }
    SolidAt(d, xs, ";\n" + rest);
    R.ReadableConcat(d, xs, CLOSING, rest);
    assert Line(xs)[0] == R.Gap("  ") && Line(xs)[1..] == xs + CLOSING;
    SpaceFormed(d);
  }

  lemma SemicolonStops(rest: string)
    ensures StopsAt(";\n" + rest)
  {
  }

  lemma EndReads(d: Dialect, rest: string)
    ensures R.ReadableBefore(d, CLOSING, rest)
  {
    assert CLOSING[1..] == [R.Gap("\n")] && [R.Gap("\n")][1..] == [];
  }

  // ------------------------------------------------------------------
  // All lines.

  lemma {:induction false} BodyOpen(d: Dialect, lists: seq<seq<R.Lexeme>>)
    requires AllSentences(d, lists)
    ensures Open(d, Body(lists))
    decreases |lists|
  {
    hide Sentence, Line, R.ReadableBefore, R.SpellAll, R.Balanced;
    if lists == [] {
      assert Open(d, []) by { NothingIsOpen(d); }
    } else {
      BodyOpen(d, lists[1..]);
      LineOpen(d, lists[0]);
      OpenTwo(d, Line(lists[0]), Body(lists[1..]));
    }
  }

  lemma NothingIsOpen(d: Dialect)
    ensures Open(d, [])
  {
  }

  lemma OpenTwo(d: Dialect, a: seq<R.Lexeme>, b: seq<R.Lexeme>)
    requires Open(d, a) && Open(d, b)
    ensures Open(d, a + b)
  {
    hide R.ReadableBefore, R.Balanced;
    BalancedNest(a, 0, b, 0);
    forall rest ensures R.ReadableBefore(d, a + b, rest) {
      R.ReadableConcat(d, a, b, rest);
    }
  }

  lemma {:induction false} FirstSemicolon(ts: seq<Token>, i: nat, q: nat)
    requires i <= q < |ts| && Semicolon(ts[q]) && forall k :: i <= k < q ==> !Semicolon(ts[k])
    ensures StatementEnd(ts, i, false, 0) == q
    decreases q - i
  {
    hide Semicolon;
    if i < q {
      FirstSemicolon(ts, i + 1, q);
    }
  }

  lemma SentenceEnd(ts: seq<Token>, p: nat, q: nat)
    requires p < q < |ts| && Semicolon(ts[q]) && (forall k :: p <= k < q ==> !Semicolon(ts[k])) && ts[p].lower != "create"
    ensures EndFrom(ts, p) == q
  {
    hide Semicolon;
    FirstSemicolon(ts, p, q);
    assert ts[p..][0] == ts[p];
  }

  /** The tokens of one sentence: some, no ';', and no CREATE first. */
  lemma SentenceTokens(d: Dialect, xs: seq<R.Lexeme>, at: nat)
    requires Sentence(d, xs)
    ensures R.Balanced(xs, 0)
    ensures var ts := R.TokensOf(xs, at, 0); ts != [] && ts[0].lower != "create" && forall k :: 0 <= k < |ts| ==> ts[k].text != ";"
  {
    hide Solid, R.LowerOf, R.Spell, R.Readable;
    SolidAt(d, xs, "");
    R.ReadableBeforeNothing(d, xs);
    ReadableIsFormed(d, xs);
    TokensSemicolonFree(d, xs, at, 0);
  }

  lemma SentenceTrims(d: Dialect, xs: seq<R.Lexeme>, white: string)
    requires Sentence(d, xs) && White(white)
    ensures TrimSpace(white + R.SpellAll(xs)) == R.SpellAll(xs) != ""
  {
    hide Solid, R.LowerOf, R.Spell, R.Readable, R.SpellAll, PlainEnd, TrimSpace, AllFormed;
    SolidAt(d, xs, "");
    R.ReadableBeforeNothing(d, xs);
    ReadableIsFormed(d, xs);
    TextEndsPlain(d, xs);
    TrimLeading(white, R.SpellAll(xs));
  }

  lemma TextEndsPlain(d: Dialect, xs: seq<R.Lexeme>)
    requires AllFormed(d, xs) && xs != [] && !xs[0].Gap? && !EndsInGap(xs)
    ensures var s := R.SpellAll(xs); s != "" && PlainEnd(s[0]) && PlainEnd(s[|s| - 1])
  {
    hide R.Spell, R.Formed, PlainEnd;
    var last := |xs| - 1;
    PlainLexeme(d, xs[0]);
    PlainLexeme(d, xs[last]);
    assert xs[..last] + [xs[last]] == xs;
    R.SpellConcat(xs[..last], [xs[last]]);
    SpellOne(xs[last]);
  }

  /** The tokens of the first line, its ';', and the rest. */
  lemma LineAmongTokens(d: Dialect, ts: seq<Token>, p: nat, at: nat, lists: seq<seq<R.Lexeme>>) returns (q: nat)
    requires lists != [] && AllSentences(d, lists) && R.Balanced(Body(lists), 0)
    requires p <= |ts| && ts[p..] == R.TokensOf(Body(lists), at, 0)
    ensures p <= q < |ts| && EndFrom(ts, p) == q
    ensures ts[q].start == at + 2 + |R.SpellAll(lists[0])| && ts[q].end == ts[q].start + 1
    ensures R.Balanced(Body(lists[1..]), 0)
    ensures ts[q + 1..] == R.TokensOf(Body(lists[1..]), ts[q].end + 1, 0)
  {
    hide R.TokensOf, R.Balanced, R.SpellAll, Sentence, Line, Body, EndFrom, R.TokenOf;
    var first, rest := lists[0], Body(lists[1..]);
    var n := |R.SpellAll(first)|;
    BodyStep(lists);
    SentenceTokens(d, first, at + 2);
    LineTokens(first, at);
    SpellLine(first);
    BodyOpen(d, lists[1..]);
    OpenBalanced(d, rest);
    R.TokensConcat(Line(first), rest, at, 0);
    var mine := R.TokensOf(first, at + 2, 0);
    q := p + |mine|;
    SemiToken(at + 2 + n);
    TokensFrom(ts, p, mine, R.TokenOf(R.Mark(';'), at + 2 + n, 0), R.TokensOf(rest, at + |R.SpellAll(Line(first))|, 0));
    assert ts[p + 0] == mine[0];
    SentenceEnd(ts, p, q);
  }

  /** Where the first line ends, in the text and among the tokens. */
  lemma FirstLine(d: Dialect, s: string, ts: seq<Token>, p: nat, start: nat, white: string, lists: seq<seq<R.Lexeme>>) returns (q: nat)
    requires lists != [] && AllSentences(d, lists) && White(white) && R.Balanced(Body(lists), 0)
    requires start <= |s| && s[start..] == white + R.SpellAll(Body(lists))
    requires p <= |ts| && ts[p..] == R.TokensOf(Body(lists), start + |white|, 0)
    ensures p <= q < |ts| && EndFrom(ts, p) == q && start <= ts[q].start < ts[q].end <= |s|
    ensures Piece(s, start, ts[q].start) == [R.SpellAll(lists[0])]
    ensures R.Balanced(Body(lists[1..]), 0)
    ensures s[ts[q].end..] == "\n" + R.SpellAll(Body(lists[1..]))
    ensures ts[q + 1..] == R.TokensOf(Body(lists[1..]), ts[q].end + 1, 0)
  {
    hide *;
    var text := R.SpellAll(lists[0]);
    q := LineAmongTokens(d, ts, p, start + |white|, lists);
    BodyStep(lists);
    SpellLine(lists[0]);
    R.SpellConcat(Line(lists[0]), Body(lists[1..]));
    LineText(s, start, white, text, R.SpellAll(Body(lists[1..])));
    SentenceTrimsIndented(d, lists, white);
    PieceOf(s, start, ts[q].start, text);
  }

  lemma SentenceTrimsIndented(d: Dialect, lists: seq<seq<R.Lexeme>>, white: string)
    requires lists != [] && AllSentences(d, lists) && White(white)
    ensures TrimSpace(white + "  " + R.SpellAll(lists[0])) == R.SpellAll(lists[0]) != ""
  {
    hide R.SpellAll, Sentence, TrimSpace;
    SentenceTrims(d, lists[0], white + "  ");
  }

  lemma PieceOf(s: string, start: nat, end: nat, text: string)
    requires start <= end <= |s| && TrimSpace(s[start..end]) == text != ""
    ensures Piece(s, start, end) == [text]
  {
    hide TrimSpace;
  }

  lemma OpenBalanced(d: Dialect, xs: seq<R.Lexeme>)
    requires Open(d, xs)
    ensures R.Balanced(xs, 0)
  {
  }

  lemma BodyStep(lists: seq<seq<R.Lexeme>>)
    requires lists != []
    ensures Body(lists) == Line(lists[0]) + Body(lists[1..])
  {
    hide Line;
  }

  lemma SemiToken(at: nat)
    ensures var t := R.TokenOf(R.Mark(';'), at, 0); t.text == ";" && t.start == at && t.end == at + 1 && t.depth == 0
  {
  }

  lemma TokensFrom(ts: seq<Token>, p: nat, mine: seq<Token>, semi: Token, rest: seq<Token>)
    requires p <= |ts| && ts[p..] == mine + [semi] + rest
    ensures p + |mine| < |ts| && ts[p + |mine|] == semi && ts[p + |mine| + 1..] == rest
    ensures forall k :: 0 <= k < |mine| ==> ts[p + k] == mine[k]
    ensures (forall k :: 0 <= k < |mine| ==> mine[k].text != ";") ==> forall k :: p <= k < p + |mine| ==> !Semicolon(ts[k])
  {
    var tail := ts[p..];
    assert |tail| == |ts| - p;
    forall k | 0 <= k < |tail| ensures ts[p + k] == tail[k] {
    }
    assert tail[|mine|] == semi && tail[|mine| + 1..] == rest;
    assert ts[p + |mine| + 1..] == tail[|mine| + 1..];
    forall k | p <= k < p + |mine| ensures ts[k] == mine[k - p] {
      assert tail[k - p] == mine[k - p];
    }
  }

  lemma LineText(s: string, start: nat, white: string, text: string, rest: string)
    requires start <= |s| && s[start..] == white + ("  " + text + ";\n" + rest)
    ensures var semi := start + |white| + 2 + |text|;
            semi < |s| && s[start..semi] == white + "  " + text && s[semi + 1..] == "\n" + rest
  {
    var t, n := s[start..], |white| + 2 + |text|;
    assert t == (white + "  " + text) + (";" + ("\n" + rest));
    assert t[..n] == white + "  " + text && t[n + 1..] == "\n" + rest;
    assert s[start..start + n] == t[..n] && s[start + n + 1..] == t[n + 1..];
  }

  /** Main result: the pieces are the statements, in order. */
  lemma {:induction false} BodyPieces(d: Dialect, s: string, ts: seq<Token>, p: nat, start: nat, white: string, lists: seq<seq<R.Lexeme>>)
    requires AllSentences(d, lists) && White(white) && R.Balanced(Body(lists), 0)
    requires start <= |s| && s[start..] == white + R.SpellAll(Body(lists))
    requires p <= |ts| && ts[p..] == R.TokensOf(Body(lists), start + |white|, 0)
    ensures Pieces(s, Segments(s, ts, p, start)) == Texts(lists)
    decreases |lists|
  {
    hide R.TokensOf, R.Balanced, R.SpellAll, Sentence, Line, Body, Piece, EndFrom, Semicolon, TrimSpace;
    if lists == [] {
      NothingLeft(s, ts, p, start, white);
    } else {
      var q := FirstLine(d, s, ts, p, start, white, lists);
      BodyPieces(d, s, ts, q + 1, ts[q].end, "\n", lists[1..]);
      assert Segments(s, ts, p, start)[1..] == Segments(s, ts, q + 1, ts[q].end);
    }
  }

  lemma NothingLeft(s: string, ts: seq<Token>, p: nat, start: nat, white: string)
    requires start <= |s| && White(white) && s[start..] == white + R.SpellAll(Body([]))
    requires p <= |ts| && ts[p..] == R.TokensOf(Body([]), start + |white|, 0)
    ensures Pieces(s, Segments(s, ts, p, start)) == []
  {
    hide TrimSpace, EndFrom;
    assert s[start..] == white && p == |ts|;
    TrimAll(white);
    assert EndFrom(ts, p) == |ts|;
    assert s[start..|s|] == white;
    var gs := [Segment(p, |ts|, start, |s|)];
    assert gs[1..] == [];
    assert Pieces(s, gs) == Piece(s, start, |s|) + Pieces(s, gs[1..]);
  }

  /** The splitter on the lines alone. */
  lemma SplitUndoesLines(d: Dialect, lists: seq<seq<R.Lexeme>>)
    requires AllSentences(d, lists)
    ensures Split(d, "\n" + R.SpellAll(Body(lists))) == Ok(Texts(lists))
  {
    hide R.TokensOf, R.Balanced, R.SpellAll, Sentence, Line, Body, Lex, Pieces, Segments, R.ReadableBefore, R.Readable;
    var xs := [R.Gap("\n")] + Body(lists);
    BodyOpen(d, lists);
    BreakOpen(d);
    OpenTwo(d, [R.Gap("\n")], Body(lists));
    OpenReads(d, xs);
    R.ReadableBeforeNothing(d, xs);
    R.LexReads(d, xs);
    SpellFirst(R.Gap("\n"), Body(lists));
    assert R.SpellAll(xs) == "\n" + R.SpellAll(Body(lists));
    OpenBalanced(d, Body(lists));
    var s := R.SpellAll(xs);
    BreakFirst(Body(lists));
    var ts := R.TokensOf(xs, 0, 0);
    assert ts[0..] == ts && s[0..] == s;
    assert White("\n") by { BreakIsWhite(); }
    BodyPieces(d, s, ts, 0, 0, "\n", lists);
  }

  lemma BreakIsWhite()
    ensures White("\n")
  {
  }

  lemma OpenReads(d: Dialect, xs: seq<R.Lexeme>)
    requires Open(d, xs)
    ensures R.ReadableBefore(d, xs, "") && R.Balanced(xs, 0)
  {
  }

  lemma BreakOpen(d: Dialect)
    ensures Open(d, [R.Gap("\n")])
  {
    OneSolid(d, R.Gap("\n"));
  }

  lemma BreakFirst(xs: seq<R.Lexeme>)
    requires R.Balanced(xs, 0)
    ensures R.Balanced([R.Gap("\n")] + xs, 0) && R.TokensOf([R.Gap("\n")] + xs, 0, 0) == R.TokensOf(xs, 1, 0)
  {
    var all := [R.Gap("\n")] + xs;
    assert all[1..] == xs;
    var rest := R.TokensOf(xs, 1, 0);
    assert [] + rest == rest;
  }
}
