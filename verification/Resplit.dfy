/** A piece is taken for one statement by everything after the splitter. It
    is one exactly when the splitter leaves it whole, and this module says when. */
module Resplit {
  import opened Prelude
  import opened Bytes
  import opened Lexer
  import opened Window
  import opened Splitter
  import opened SplitAgreement

  // ------------------------------------------------------------------
  // A trimmed text trims to itself.

  lemma NoRuneAtStart(s: string, t: string, lo: nat)
    requires lo + |t| <= |s| && t == s[lo..lo + |t|] && SpaceRuneAt(s, lo) == 0
    ensures SpaceRuneAt(t, 0) == 0
  {
    hide TwoByteSpace, ThreeByteSpace, AsciiSpace;
  }

  lemma NoRuneAtEnd(s: string, t: string, lo: nat)
    requires lo + |t| <= |s| && t == s[lo..lo + |t|]
    requires SpaceRuneBefore(s, lo + |t|) == 0 || |t| < SpaceRuneBefore(s, lo + |t|)
    ensures SpaceRuneBefore(t, |t|) == 0
  {
    hide TwoByteSpace, ThreeByteSpace, AsciiSpace;
  }

  lemma TrimTwice(s: string)
    ensures TrimSpace(TrimSpace(s)) == TrimSpace(s)
  {
    hide SpaceRuneAt, SpaceRuneBefore, AsciiSpace;
    var lo, hi, t := TrimLow(s), TrimHigh(s), TrimSpace(s);
    NoRuneAtStart(s, t, lo);
    NoRuneAtEnd(s, t, lo);
    assert TrimLow(t) == 0 && TrimHigh(t) == |t|;
  }

  // ------------------------------------------------------------------
  // The splitter reads only words and depths.

  ghost predicate SameWords(a: seq<Token>, b: seq<Token>) {
    && |a| == |b|
    && forall k :: 0 <= k < |a| ==> a[k].text == b[k].text && a[k].lower == b[k].lower && a[k].depth == b[k].depth
  }

  lemma {:induction false} RoutineWordsGrow(a: seq<Token>, b: seq<Token>, i: nat, limit: nat, more: nat)
    requires |a| <= |b| && SameWords(a, b[..|a|]) && limit <= |a| && limit <= more <= |b|
    ensures RoutineWords(a, i, limit) ==> RoutineWords(b, i, more)
    decreases limit - i
  {
    hide RoutineWord, NotRoutineWord;
    if i < limit {
      assert a[i].lower == b[..|a|][i].lower && a[i].depth == b[..|a|][i].depth;
      RoutineWordsGrow(a, b, i + 1, limit, more);
    }
  }

  /** Seeing more of the script can only turn a statement into a routine, never back. */
  lemma RoutineGrows(a: seq<Token>, b: seq<Token>)
    requires |a| <= |b| && SameWords(a, b[..|a|])
    ensures RoutineDefinition(a) ==> RoutineDefinition(b)
  {
    hide RoutineWords;
    if |a| > 0 {
      assert a[0].lower == b[..|a|][0].lower;
      RoutineWordsGrow(a, b, 1, if |a| < 16 then |a| else 16, if |b| < 16 then |b| else 16);
    }
  }

  /** The block count of a token depends on the next word only through two tests a ';' passes like the end of text. */
  lemma SameBlocks(a: seq<Token>, i: nat, b: seq<Token>, j: nat, routine: bool, blocks: nat)
    requires i < |a| && j < |b| && a[i].lower == b[j].lower && a[i].depth == b[j].depth
    requires NextLower(a, i) == NextLower(b, j) || (NextLower(a, i) == "" && NextLower(b, j) == ";")
    ensures Blocks(a, i, routine, blocks) == Blocks(b, j, routine, blocks)
  {
  }

  /** a is the share b[p..q] of a script whose statement ends at token q. */
  ghost predicate Share(a: seq<Token>, b: seq<Token>, p: nat, q: nat) {
    && p <= q <= |b| && SameWords(a, b[p..q])
    && (q < |b| ==> b[q].lower == ";")
  }

  lemma ShareAt(a: seq<Token>, b: seq<Token>, p: nat, q: nat, i: nat)
    requires Share(a, b, p, q) && i < |a|
    ensures p + i < q && a[i].text == b[p + i].text && a[i].lower == b[p + i].lower && a[i].depth == b[p + i].depth
    ensures NextLower(a, i) == NextLower(b, p + i) || (NextLower(a, i) == "" && NextLower(b, p + i) == ";")
  {
    assert b[p..q][i] == b[p + i];
    if i + 1 < |a| {
      assert b[p..q][i + 1] == b[p + i + 1];
    }
  }

  lemma {:induction false} StatementEndsAlike(a: seq<Token>, b: seq<Token>, p: nat, q: nat, i: nat, routine: bool, blocks: nat)
    requires Share(a, b, p, q) && i <= |a| && StatementEnd(b, p + i, routine, blocks) == q
    ensures StatementEnd(a, i, routine, blocks) == |a|
    decreases |a| - i
  {
    hide Blocks, NextLower;
    if i < |a| {
      ShareAt(a, b, p, q, i);
      SameBlocks(a, i, b, p + i, routine, blocks);
      StatementEndsAlike(a, b, p, q, i + 1, routine, Blocks(a, i, routine, blocks));
    }
  }

  ghost predicate NoSemicolon(ts: seq<Token>) {
    forall k :: 0 <= k < |ts| ==> !Semicolon(ts[k])
  }

  lemma {:induction false} PlainStatementEnd(ts: seq<Token>, i: nat)
    requires i <= |ts|
    ensures StatementEnd(ts, i, false, 0) == |ts| <==> forall k :: i <= k < |ts| ==> !Semicolon(ts[k])
    decreases |ts| - i
  {
    hide Semicolon;
    if i < |ts| {
      PlainStatementEnd(ts, i + 1);
    }
  }

  /** Whether a share reads as one statement on its own. */
  lemma ShareStaysWhole(a: seq<Token>, b: seq<Token>, p: nat, q: nat)
    requires Share(a, b, p, q) && EndFrom(b, p) == q
    ensures EndFrom(a, 0) == |a| <==> RoutineDefinition(a) || NoSemicolon(a)
  {
    hide StatementEnd, RoutineDefinition;
    assert a[0..] == a;
    PlainStatementEnd(a, 0);
    var mine, whole := RoutineDefinition(a), RoutineDefinition(b[p..]);
    assert b[p..][..|a|] == b[p..q];
    RoutineGrows(a, b[p..]);
    if mine {
      StatementEndsAlike(a, b, p, q, 0, true, 0);
    }
  }

  // ------------------------------------------------------------------
  // From tokens to texts.

  lemma {:induction false} SemicolonsAreBytes(d: Dialect, s: string, i: nat, depth: nat, executable: nat)
    requires i <= |s| && LexFrom(d, s, i, depth, executable).Ok?
    ensures var ts := LexFrom(d, s, i, depth, executable).value;
            forall k :: 0 <= k < |ts| && ts[k].text == ";" ==> ts[k].lower == ";"
    decreases |s| - i
  {
    hide Scan;
    if i < |s| {
      match Scan(d, s, i, executable) {
        case Skip(next, executable') => SemicolonsAreBytes(d, s, next, depth, executable');
        case Emit(next, lower, _, _) =>
          SemicolonsAreBytes(d, s, next, DepthAfter(s[i], depth), executable);
          if s[i..next] == ";" {
            SemicolonByte(d, s, i, executable);
          }
      }
    }
  }

  lemma SemicolonByte(d: Dialect, s: string, i: nat, executable: nat)
    requires i < |s| && Scan(d, s, i, executable).Emit? && s[i..Scan(d, s, i, executable).next] == ";"
    ensures Scan(d, s, i, executable).lower == ";"
  {
    hide CommentStep, LineEnd;
    assert s[i] == ";"[0];
    assert s[i..i + 1] == ";";
  }

  lemma {:induction false} SegmentsStart(s: string, ts: seq<Token>, p: nat, start: nat)
    requires p <= |ts| && InOrder(s, 0, ts) && (forall k :: p <= k < |ts| ==> start <= ts[k].start)
    ensures forall g :: g in Segments(s, ts, p, start) ==> start <= g.start
    decreases |ts| - p
  {
    hide EndFrom;
    var q := EndFrom(ts, p);
    if q < |ts| {
      SegmentsStart(s, ts, q + 1, ts[q].end);
    }
  }

  lemma {:induction false} ShortPieces(s: string, gs: seq<Segment>, n: nat)
    requires forall g :: g in gs ==> g.start <= g.end <= |s| ==> g.end - g.start < n
    requires n > 0
    ensures forall piece :: piece in Pieces(s, gs) ==> |piece| < n
  {
    if gs != [] {
      ShortPieces(s, gs[1..], n);
      assert gs[0] in gs;
    }
  }

  /** A text that is not cut comes back whole; a text that is cut comes back in shorter pieces only. */
  lemma SplitWhole(d: Dialect, s: string, ts: seq<Token>)
    requires Lex(d, s) == Ok(ts) && TrimSpace(s) == s != ""
    ensures Split(d, s) == Ok([s]) <==> EndFrom(ts, 0) == |ts|
  {
    hide EndFrom, Lex, TrimSpace, Segments;
    WholeInOrder(d, s);
    SegmentsUnfold(s, ts, 0, 0);
    var q := EndFrom(ts, 0);
    assert s[0..|s|] == s;
    assert Text(s, 0, |s|) == s;
    if q == |ts| {
      var gs := [Segment(0, q, 0, |s|)];
      assert gs[1..] == [];
      assert Pieces(s, gs) == Piece(s, 0, |s|) + Pieces(s, gs[1..]) == [s];
      assert Segments(s, ts, 0, 0) == gs;
      assert Split(d, s) == Ok([s]);
    } else {
      var gs := Segments(s, ts, 0, 0);
      SegmentsStart(s, ts, q + 1, ts[q].end);
      ShortPieces(s, gs, |s|);
      assert s !in Pieces(s, gs);
      assert s in [s];
    }
  }

  /** Main result. Splitting a statement text again leaves it alone exactly when the text is a
      routine definition by its own words or holds no ';' outside parentheses. */
  lemma PieceIsOneStatement(d: Dialect, s: string, ts: seq<Token>, g: Segment)
    requires PlainComments(d) && Lex(d, s) == Ok(ts) && g in Segments(s, ts, 0, 0)
    requires Agrees(d, s, ts, g) && TrimSpace(Text(s, g.start, g.end)) != ""
    ensures var piece := TrimSpace(Text(s, g.start, g.end));
            var us := Lex(d, piece).value;
            Split(d, piece) == Ok([piece]) <==> RoutineDefinition(us) || NoSemicolon(us)
  {
    hide *;
    var text := Text(s, g.start, g.end);
    var piece := TrimSpace(text);
    TrimTwice(text);
    var us := PieceShare(d, s, ts, g);
    SegmentsEnd(s, ts, 0, 0, g);
    ShareStaysWhole(us, ts, g.p, g.q);
    SplitWhole(d, piece, us);
  }

  lemma PieceShare(d: Dialect, s: string, ts: seq<Token>, g: Segment) returns (us: seq<Token>)
    requires PlainComments(d) && Lex(d, s) == Ok(ts) && g in Segments(s, ts, 0, 0) && Agrees(d, s, ts, g)
    ensures Lex(d, TrimSpace(Text(s, g.start, g.end))) == Ok(us) && Share(us, ts, g.p, g.q)
  {
    hide LexFrom, TrimSpace, TrimLow, Segments;
    us := Lex(d, TrimSpace(Text(s, g.start, g.end))).value;
    SemicolonsAreBytes(d, s, 0, 0, 0);
    SegmentsEnd(s, ts, 0, 0, g);
    var k := g.start + TrimLow(Text(s, g.start, g.end));
    forall i | 0 <= i < |us| ensures us[i].text == ts[g.p..g.q][i].text && us[i].lower == ts[g.p..g.q][i].lower && us[i].depth == ts[g.p..g.q][i].depth {
      assert ts[g.p..g.q][i] == Move(us[i], k);
    }
  }

  lemma {:induction false} SegmentsEnd(s: string, ts: seq<Token>, p: nat, start: nat, g: Segment)
    requires p <= |ts| && g in Segments(s, ts, p, start)
    ensures g.p <= |ts| && g.q == EndFrom(ts, g.p) && (g.q < |ts| ==> Semicolon(ts[g.q]))
    decreases |ts| - p
  {
    hide StatementEnd, RoutineDefinition;
    var q := EndFrom(ts, p);
    if q < |ts| && g in Segments(s, ts, q + 1, ts[q].end) {
      SegmentsEnd(s, ts, q + 1, ts[q].end, g);
    }
  }
}
