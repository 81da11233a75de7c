/** Splitting agrees with lexing. Each statement text the splitter hands on is
    lexed again on its own; this module says exactly when that second reading
    gives the tokens the statement had inside the whole script. */
module SplitAgreement {
  import opened Prelude
  import opened Bytes
  import opened Lexer
  import opened Window
  import opened Splitter

  // ------------------------------------------------------------------
  // Trimming one text.

  /** No token reaches into the bytes before lo or from hi on. */
  ghost predicate Inside(ts: seq<Token>, lo: nat, hi: nat) {
    forall k :: 0 <= k < |ts| ==> lo <= ts[k].start && ts[k].end <= hi
  }

  lemma FirstFits(s: string, from: nat, ts: seq<Token>, hi: nat)
    requires InOrder(s, from, ts) && Inside(ts, 0, hi) && ts != []
    ensures from < hi
  {
    assert from <= ts[0].start < ts[0].end <= hi;
  }

  predicate MarginByte(c: char) {
    AsciiSpace(c) || c >= '\U{80}' || c == ';'
  }

  lemma {:induction false} LeftMargin(d: Dialect, s: string, i: nat)
    requires PlainComments(d) && i <= |s| && LexFrom(d, s, i, 0, 0).Ok?
    requires Inside(LexFrom(d, s, i, 0, 0).value, TrimFrom(s, i), |s|)
    ensures LexFrom(d, s, TrimFrom(s, i), 0, 0) == LexFrom(d, s, i, 0, 0)
    decreases |s| - i
  {
    hide Scan;
    var n := SpaceRuneAt(s, i);
    if n > 0 {
      if AsciiSpace(s[i]) {
        assert Scan(d, s, i, 0) == Skip(i + 1, 0) by { SpaceIsSkipped(d, s, i); }
        LeftMargin(d, s, i + 1);
      } else {
        WordStartsHere(d, s, i);
        assert false;
      }
    }
  }

  lemma SpaceIsSkipped(d: Dialect, s: string, i: nat)
    requires i < |s| && AsciiSpace(s[i])
    ensures Scan(d, s, i, 0) == Skip(i + 1, 0)
  {
  }

  lemma WordStartsHere(d: Dialect, s: string, i: nat)
    requires i < |s| && s[i] in [C2, E1, E2, E3] && LexFrom(d, s, i, 0, 0).Ok?
    ensures var ts := LexFrom(d, s, i, 0, 0).value; |ts| > 0 && ts[0].start == i
  {
    assert Scan(d, s, i, 0).Emit?;
  }

  lemma {:induction false} NoTokensNoDepth(d: Dialect, s: string, i: nat, depth: nat)
    requires PlainComments(d) && i <= |s| && LexFrom(d, s, i, depth, 0) == Ok([])
    ensures depth == 0
    decreases |s| - i
  {
    hide Scan;
    if i < |s| {
      ScanStaysPlain(d, s, i);
      assert Scan(d, s, i, 0).Skip?;
      NoTokensNoDepth(d, s, Scan(d, s, i, 0).next, depth);
    }
  }

  /** A step over the margin can only be a line comment that runs on. */
  lemma OverTheEdge(d: Dialect, s: string, i: nat, b: nat)
    requires PlainComments(d) && i < b <= |s|
    requires forall k :: b <= k < |s| ==> MarginByte(s[k])
    requires Scan(d, s, i, 0).Skip? && Scan(d, s, i, 0).next > b
    ensures Two(s, i, '-', '-') && i + 1 < b && !ByteSpace(s[i])
    ensures Scan(d, s, i, 0) == Skip(LineEnd(s, i + 2), 0)
  {
    if Two(s, i, '/', '*') {
      assert false;
    }
  }

  /** A token that fits leaves room for what follows it. */
  lemma EmitFits(d: Dialect, s: string, i: nat, depth: nat, b: nat)
    requires i < |s| && LexFrom(d, s, i, depth, 0).Ok? && Scan(d, s, i, 0).Emit? && Inside(LexFrom(d, s, i, depth, 0).value, 0, b)
    ensures s[i] == ')' ==> depth > 0
    ensures var rest := LexFrom(d, s, Scan(d, s, i, 0).next, DepthAfter(s[i], depth), 0);
            var ts := LexFrom(d, s, i, depth, 0).value;
            rest.Ok? && Scan(d, s, i, 0).next <= b && Inside(rest.value, 0, b) && |ts| == |rest.value| + 1
  {
    hide Scan;
    var ts, rest := LexFrom(d, s, i, depth, 0).value, LexFrom(d, s, Scan(d, s, i, 0).next, DepthAfter(s[i], depth), 0).value;
    assert ts == [ts[0]] + rest;
    forall k | 0 <= k < |rest| ensures rest[k].end <= b {
      assert rest[k] == ts[k + 1];
    }
  }

  lemma MarginEnds(d: Dialect, s: string, b: nat, depth: nat, a: nat)
    requires PlainComments(d) && a <= b <= |s| && LexFrom(d, s, b, depth, 0).Ok? && Inside(LexFrom(d, s, b, depth, 0).value, 0, b)
    ensures LexFrom(d, s[a..b], b - a, depth, 0) == LexFrom(d, s, b, depth, 0) == Ok([])
  {
    hide Scan, TokenStep;
    var ts := LexFrom(d, s, b, depth, 0).value;
    TokensInOrder(d, s, b, depth, 0);
    if ts != [] {
      FirstFits(s, b, ts, b);
    }
    NoTokensNoDepth(d, s, b, depth);
  }

  lemma {:induction false} RightMargin(d: Dialect, s: string, i: nat, depth: nat, a: nat, b: nat)
    requires PlainComments(d) && a <= i <= b <= |s| && LexFrom(d, s, i, depth, 0).Ok?
    requires forall k :: b <= k < |s| ==> MarginByte(s[k])
    requires Inside(LexFrom(d, s, i, depth, 0).value, 0, b)
    ensures LexFrom(d, s[a..b], i - a, depth, 0).Ok?
    ensures MoveAll(LexFrom(d, s[a..b], i - a, depth, 0).value, a) == LexFrom(d, s, i, depth, 0).value
    decreases b - i
  {
    hide Scan, TokenStep, Inside, MakeToken;
    if i == b {
      MarginEnds(d, s, b, depth, a);
    } else {
      ScanStaysPlain(d, s, i);
      match Scan(d, s, i, 0) {
        case Skip(next, _) =>
          if next <= b {
            ScanWindow(d, s, i, a, b);
            RightMargin(d, s, next, depth, a, b);
          } else {
            RunOnComment(d, s, i, depth, a, b);
          }
        case Emit(next, _, _, _) =>
          hide LexFrom;
          var ts, after := LexFrom(d, s, i, depth, 0).value, DepthAfter(s[i], depth);
          EmitFits(d, s, i, depth, b);
          ScanWindow(d, s, i, a, b);
          RightMargin(d, s, next, after, a, b);
          var rest := LexFrom(d, s, next, after, 0).value;
          assert rest[..|ts| - 1] == rest && ts[..|ts|] == ts;
          EmitJoins(d, s, i, depth, a, b, |ts|, ts, rest, LexFrom(d, s[a..b], next - a, after, 0).value);
      }
    }
  }

  /** A line comment cut short still hides everything up to the cut. */
  lemma RunOnComment(d: Dialect, s: string, i: nat, depth: nat, a: nat, b: nat)
    requires PlainComments(d) && a <= i < b <= |s| && LexFrom(d, s, i, depth, 0).Ok?
    requires forall k :: b <= k < |s| ==> MarginByte(s[k])
    requires Inside(LexFrom(d, s, i, depth, 0).value, 0, b)
    requires Scan(d, s, i, 0).Skip? && Scan(d, s, i, 0).next > b
    ensures LexFrom(d, s, i, depth, 0) == Ok([]) && LexFrom(d, s[a..b], i - a, depth, 0) == Ok([])
  {
    hide TokenStep, CommentStep;
    OverTheEdge(d, s, i, b);
    var next := Scan(d, s, i, 0).next;
    TokensInOrder(d, s, next, depth, 0);
    var ts := LexFrom(d, s, next, depth, 0).value;
    if ts != [] {
      FirstFits(s, next, ts, b);
    }
    NoTokensNoDepth(d, s, next, depth);
    LineEndWindow(s, i + 2, a, b);
    assert s[a..b][i - a] == s[i] && s[a..b][i - a + 1] == s[i + 1];
  }

  /** Re-lexing a trimmed text gives its tokens exactly when trimming cuts no token. */
  lemma TrimAgrees(d: Dialect, s: string)
    requires PlainComments(d) && Lex(d, s).Ok?
    ensures Inside(Lex(d, s).value, TrimLow(s), TrimHigh(s))
       <==> Lex(d, TrimSpace(s)).Ok? && MoveAll(Lex(d, TrimSpace(s)).value, TrimLow(s)) == Lex(d, s).value
  {
    var lo, hi := TrimLow(s), TrimHigh(s);
    var ts := Lex(d, s).value;
    if Inside(ts, lo, hi) {
      LeftMargin(d, s, 0);
      RightMargin(d, s, lo, 0, lo, hi);
    }
    var trimmed := TrimSpace(s);
    if Lex(d, trimmed).Ok? && MoveAll(Lex(d, trimmed).value, lo) == ts {
      var us := Lex(d, trimmed).value;
      WholeInOrder(d, trimmed);
      forall k | 0 <= k < |ts| ensures lo <= ts[k].start && ts[k].end <= hi {
        assert ts[k] == Move(us[k], lo);
      }
    }
  }

  // ------------------------------------------------------------------
  // The segments of a script.

  /** After a token at depth 0 that is no parenthesis the scan goes on at depth 0. */
  lemma {:induction false} AfterPlain(d: Dialect, s: string, i: nat, depth: nat, q: nat)
    requires PlainComments(d) && i <= |s| && LexFrom(d, s, i, depth, 0).Ok?
    requires var ts := LexFrom(d, s, i, depth, 0).value; q < |ts| && PlainToken(ts[q]) && ts[q].depth == 0 && ts[q].end <= |s|
    ensures var ts := LexFrom(d, s, i, depth, 0).value; LexFrom(d, s, ts[q].end, 0, 0) == Ok(ts[q + 1..])
    decreases |s| - i
  {
    hide Scan;
    ScanStaysPlain(d, s, i);
    var ts := LexFrom(d, s, i, depth, 0).value;
    match Scan(d, s, i, 0) {
      case Skip(next, _) => AfterPlain(d, s, next, depth, q);
      case Emit(next, _, _, _) =>
        var after := DepthAfter(s[i], depth);
        var rest := LexFrom(d, s, next, after, 0).value;
        assert ts == [ts[0]] + rest;
        if q == 0 {
          assert ts[0].text == s[i..next];
          assert s[i] == ts[0].text[0];
          assert ts[1..] == rest;
        } else {
          assert ts[q] == rest[q - 1];
          AfterPlain(d, s, next, after, q - 1);
          assert ts[q + 1..] == rest[q..];
        }
    }
  }

  /** Tokens p..q of ts, read off the bytes of the segment alone. */
  ghost predicate Owns(d: Dialect, s: string, ts: seq<Token>, g: Segment) {
    && g.p <= g.q <= |ts| && g.start <= g.end <= |s|
    && (g.q < |ts| ==> Semicolon(ts[g.q]) && ts[g.q].start == g.end)
    && Lex(d, Text(s, g.start, g.end)).Ok?
    && MoveAll(Lex(d, Text(s, g.start, g.end)).value, g.start) == ts[g.p..g.q]
  }

  lemma FirstSegmentOwns(d: Dialect, s: string, ts: seq<Token>, p: nat, start: nat)
    requires PlainComments(d) && Lex(d, s) == Ok(ts)
    requires p <= |ts| && start <= |s| && LexFrom(d, s, start, 0, 0) == Ok(ts[p..])
    ensures var q := EndFrom(ts, p); Owns(d, s, ts, Segment(p, q, start, if q == |ts| then |s| else ts[q].start))
    ensures var q := EndFrom(ts, p); q < |ts| ==> ts[q].end <= |s| && LexFrom(d, s, ts[q].end, 0, 0) == Ok(ts[q + 1..])
  {
    hide RoutineDefinition, StatementEnd, Scan;
    var q := EndFrom(ts, p);
    WholeInOrder(d, s);
    TokensInOrder(d, s, start, 0, 0);
    var end := if q == |ts| then |s| else ts[q].start;
    if q < |ts| {
      assert ts[p..][q - p] == ts[q];
    }
    LexWindow(d, s, start, 0, start, end, q - p);
    assert ts[p..][..q - p] == ts[p..q];
    if q < |ts| {
      AfterPlain(d, s, start, 0, q - p);
      assert ts[p..][q - p + 1..] == ts[q + 1..];
    }
  }

  lemma {:induction false} SegmentsOwn(d: Dialect, s: string, ts: seq<Token>, p: nat, start: nat)
    requires PlainComments(d) && Lex(d, s) == Ok(ts)
    requires p <= |ts| && start <= |s| && LexFrom(d, s, start, 0, 0) == Ok(ts[p..])
    ensures forall g :: g in Segments(s, ts, p, start) ==> Owns(d, s, ts, g)
    decreases |ts| - p
  {
    hide EndFrom, Owns, Lex, LexFrom;
    FirstSegmentOwns(d, s, ts, p, start);
    var q := EndFrom(ts, p);
    if q < |ts| {
      SegmentsOwn(d, s, ts, q + 1, ts[q].end);
    }
  }

  /** The text handed on for a segment lexes to the tokens the segment has in the script. */
  ghost predicate Agrees(d: Dialect, s: string, ts: seq<Token>, g: Segment) {
    var text := Text(s, g.start, g.end);
    && g.p <= g.q <= |ts|
    && Lex(d, TrimSpace(text)).Ok?
    && MoveAll(Lex(d, TrimSpace(text)).value, g.start + TrimLow(text)) == ts[g.p..g.q]
  }

  /** The white space TrimSpace takes off a segment holds no byte of a token. */
  ghost predicate Untouched(s: string, ts: seq<Token>, g: Segment) {
    var text := Text(s, g.start, g.end);
    && g.p <= g.q <= |ts|
    && Inside(ts[g.p..g.q], g.start + TrimLow(text), g.start + TrimHigh(text))
  }

  lemma MoveTwice(ts: seq<Token>, j: nat, k: nat)
    ensures MoveAll(MoveAll(ts, j), k) == MoveAll(ts, k + j)
  {
  }

  lemma MoveInjective(a: seq<Token>, b: seq<Token>, k: nat)
    requires MoveAll(a, k) == MoveAll(b, k)
    ensures a == b
  {
    assert |a| == |MoveAll(a, k)| == |b|;
    forall i | 0 <= i < |a| ensures a[i] == b[i] {
      assert Move(a[i], k) == Move(b[i], k);
    }
  }

  lemma SegmentAgrees(d: Dialect, s: string, ts: seq<Token>, g: Segment)
    requires PlainComments(d) && Owns(d, s, ts, g)
    ensures Agrees(d, s, ts, g) <==> Untouched(s, ts, g)
  {
    hide Lex, TrimSpace, TrimLow, TrimHigh;
    var text := Text(s, g.start, g.end);
    var us, lo, hi := Lex(d, text).value, TrimLow(text), TrimHigh(text);
    TrimAgrees(d, text);
    var mine := ts[g.p..g.q];
    assert Inside(us, lo, hi) <==> Inside(mine, g.start + lo, g.start + hi) by {
      if Inside(mine, g.start + lo, g.start + hi) {
        forall k | 0 <= k < |us| ensures lo <= us[k].start && us[k].end <= hi {
          assert mine[k] == Move(us[k], g.start);
        }
      }
    }
    if Lex(d, TrimSpace(text)).Ok? {
      var vs := Lex(d, TrimSpace(text)).value;
      MoveTwice(vs, lo, g.start);
      if MoveAll(vs, g.start + lo) == mine {
        MoveInjective(MoveAll(vs, lo), us, g.start);
      }
    }
  }

  /** The tokens of one piece, moved to where the piece stands in the script. */
  ghost function Own(d: Dialect, s: string, g: Segment): seq<Token> {
    var text := Text(s, g.start, g.end);
    match Lex(d, TrimSpace(text)) case Ok(us) => MoveAll(us, g.start + TrimLow(text)) case Err(_) => []
  }

  /** Every piece's tokens, put back at their places, with the separators between them. */
  ghost function Rejoined(d: Dialect, s: string, ts: seq<Token>, gs: seq<Segment>): seq<Token> {
    if gs == [] then []
    else Own(d, s, gs[0]) + (if gs[0].q < |ts| then [ts[gs[0].q]] else []) + Rejoined(d, s, ts, gs[1..])
  }

  lemma OwnTokens(d: Dialect, s: string, ts: seq<Token>, g: Segment)
    requires Agrees(d, s, ts, g)
    ensures g.p <= g.q <= |ts| && Own(d, s, g) == ts[g.p..g.q]
  {
    hide Lex, TrimSpace, TrimLow, MoveAll;
  }

  lemma RejoinStep(d: Dialect, s: string, ts: seq<Token>, g: Segment, rest: seq<Segment>)
    requires Agrees(d, s, ts, g)
    ensures g.p <= g.q <= |ts|
    ensures Rejoined(d, s, ts, [g] + rest) == ts[g.p..g.q] + (if g.q < |ts| then [ts[g.q]] else []) + Rejoined(d, s, ts, rest)
  {
    hide Own, Agrees;
    OwnTokens(d, s, ts, g);
    assert ([g] + rest)[1..] == rest;
  }

  lemma {:induction false} RejoinFrom(d: Dialect, s: string, ts: seq<Token>, p: nat, start: nat)
    requires p <= |ts|
    requires forall g :: g in Segments(s, ts, p, start) ==> Agrees(d, s, ts, g)
    ensures Rejoined(d, s, ts, Segments(s, ts, p, start)) == ts[p..]
    decreases |ts| - p
  {
    hide EndFrom, Agrees, Rejoined, Segments;
    var q := EndFrom(ts, p);
    SegmentsUnfold(s, ts, p, start);
    if q == |ts| {
      var last := Segment(p, q, start, |s|);
      assert Segments(s, ts, p, start) == [last] + [];
      RejoinStep(d, s, ts, last, []);
      RejoinNothing(d, s, ts);
    } else {
      var first, rest := Segment(p, q, start, ts[q].start), Segments(s, ts, q + 1, ts[q].end);
      RejoinStep(d, s, ts, first, rest);
      assert forall g :: g in rest ==> g in Segments(s, ts, p, start);
      RejoinFrom(d, s, ts, q + 1, ts[q].end);
      assert ts[p..] == ts[p..q] + [ts[q]] + ts[q + 1..];
    }
  }

  lemma SegmentsUnfold(s: string, ts: seq<Token>, p: nat, start: nat)
    requires p <= |ts|
    ensures EndFrom(ts, p) == |ts| ==> Segments(s, ts, p, start) == [Segment(p, |ts|, start, |s|)]
    ensures var q := EndFrom(ts, p);
            q < |ts| ==> Segments(s, ts, p, start) == [Segment(p, q, start, ts[q].start)] + Segments(s, ts, q + 1, ts[q].end)
  {
    hide EndFrom;
  }

  lemma RejoinNothing(d: Dialect, s: string, ts: seq<Token>)
    ensures Rejoined(d, s, ts, []) == []
  {
  }

  /** Main result. A statement's text lexes to the tokens it has in the script if and only if
      trimming cut no token of it; when none was cut, the pieces and the separators are the script. */
  lemma SplittingAgreesWithLexing(d: Dialect, s: string, ts: seq<Token>)
    requires PlainComments(d) && Lex(d, s) == Ok(ts)
    ensures Split(d, s) == Ok(Pieces(s, Segments(s, ts, 0, 0)))
    ensures forall g :: g in Segments(s, ts, 0, 0) ==> (Agrees(d, s, ts, g) <==> Untouched(s, ts, g))
    ensures (forall g :: g in Segments(s, ts, 0, 0) ==> Untouched(s, ts, g))
        ==> Rejoined(d, s, ts, Segments(s, ts, 0, 0)) == ts
  {
    hide RoutineDefinition, StatementEnd, Segments, TrimSpace, TrimLow, TrimHigh;
    assert ts[0..] == ts;
    SegmentsOwn(d, s, ts, 0, 0);
    forall g | g in Segments(s, ts, 0, 0) ensures Agrees(d, s, ts, g) <==> Untouched(s, ts, g) {
      SegmentAgrees(d, s, ts, g);
    }
    if forall g :: g in Segments(s, ts, 0, 0) ==> Untouched(s, ts, g) {
      RejoinFrom(d, s, ts, 0, 0);
    }
  }

  // ------------------------------------------------------------------
  // When trimming can and cannot cut a token.

  ghost predicate SolidEdges(s: string, ts: seq<Token>) {
    forall k :: 0 <= k < |ts| ==> ts[k].start < ts[k].end <= |s| && !AsciiSpace(s[ts[k].start]) && !AsciiSpace(s[ts[k].end - 1])
  }

  lemma {:induction false} TokenEdges(d: Dialect, s: string, i: nat, depth: nat, executable: nat)
    requires i <= |s| && LexFrom(d, s, i, depth, executable).Ok?
    ensures SolidEdges(s, LexFrom(d, s, i, depth, executable).value)
    decreases |s| - i
  {
    hide Scan;
    if i < |s| {
      match Scan(d, s, i, executable) {
        case Skip(next, executable') => TokenEdges(d, s, next, depth, executable');
        case Emit(next, _, _, _) =>
          EmitEdges(d, s, i, executable);
          TokenEdges(d, s, next, DepthAfter(s[i], depth), executable);
      }
    }
  }

  lemma DollarEdges(s: string, i: nat, open: nat)
    requires i < open <= |s| && s[open - 1] == '$' && DollarStep(s, i, open).Emit?
    ensures s[DollarStep(s, i, open).next - 1] == '$'
  {
    var c := Find(s, open, s[i..open]).value;
    assert s[c..c + (open - i)][open - i - 1] == s[i..open][open - i - 1];
  }

  lemma EmitEdges(d: Dialect, s: string, i: nat, executable: nat)
    requires i < |s| && Scan(d, s, i, executable).Emit?
    ensures var next := Scan(d, s, i, executable).next; !AsciiSpace(s[i]) && !AsciiSpace(s[next - 1])
  {
    hide ToLower, BareName, DollarStep, Find, CommentStep, LineEnd;
    if s[i] == '$' && DollarEnd(s, i, i + 1).Some? {
      DollarEdges(s, i, DollarEnd(s, i, i + 1).value);
    }
  }

  /** A script of ASCII bytes only: every piece keeps its tokens. */
  lemma AsciiScriptsAgree(d: Dialect, s: string, ts: seq<Token>)
    requires PlainComments(d) && Lex(d, s) == Ok(ts)
    requires forall k :: 0 <= k < |s| ==> s[k] < '\U{80}'
    ensures forall g :: g in Segments(s, ts, 0, 0) ==> Agrees(d, s, ts, g)
    ensures Rejoined(d, s, ts, Segments(s, ts, 0, 0)) == ts
  {
    hide *;
    SegmentsOwnWhole(d, s, ts);
    WholeEdges(d, s);
    forall g | g in Segments(s, ts, 0, 0) ensures Untouched(s, ts, g) {
      AsciiUntouched(d, s, ts, g);
    }
    SplittingAgreesWithLexing(d, s, ts);
  }

  lemma WholeEdges(d: Dialect, s: string)
    requires Lex(d, s).Ok?
    ensures SolidEdges(s, Lex(d, s).value)
  {
    TokenEdges(d, s, 0, 0, 0);
  }

  lemma SegmentsOwnWhole(d: Dialect, s: string, ts: seq<Token>)
    requires PlainComments(d) && Lex(d, s) == Ok(ts)
    ensures forall g :: g in Segments(s, ts, 0, 0) ==> Owns(d, s, ts, g)
  {
    assert ts[0..] == ts;
    SegmentsOwn(d, s, ts, 0, 0);
  }

  lemma AsciiUntouched(d: Dialect, s: string, ts: seq<Token>, g: Segment)
    requires Owns(d, s, ts, g)
    requires forall k :: 0 <= k < |s| ==> s[k] < '\U{80}'
    requires SolidEdges(s, ts)
    ensures Untouched(s, ts, g)
  {
    hide Lex;
    var text := Text(s, g.start, g.end);
    var us, mine := Lex(d, text).value, ts[g.p..g.q];
    WholeInOrder(d, text);
    forall k | 0 <= k < |mine|
      ensures g.start + TrimLow(text) <= mine[k].start && mine[k].end <= g.start + TrimHigh(text)
    {
      assert mine[k] == Move(us[k], g.start) && mine[k] == ts[g.p + k];
      assert text[us[k].start] == s[mine[k].start] && text[us[k].end - 1] == s[mine[k].end - 1];
    }
  }

  /** A no-break space before a ';' is a word to the lexer and white space to TrimSpace: the piece is lost. */
  lemma NoBreakSpaceIsLost(d: Dialect)
    requires PlainComments(d)
    ensures var s := [C2, '\U{A0}', ';'];
            && Lex(d, s).Ok?
            && |Lex(d, s).value| == 2
            && Segment(0, 1, 0, 2) in Segments(s, Lex(d, s).value, 0, 0)
            && !Agrees(d, s, Lex(d, s).value, Segment(0, 1, 0, 2))
            && Split(d, s) == Ok([])
  {
    var s := [C2, '\U{A0}', ';'];
    assert IdentEnd(s, 1) == 2;
    assert Scan(d, s, 0, 0).Emit? && Scan(d, s, 0, 0).next == 2;
    assert Scan(d, s, 2, 0).Emit? && Scan(d, s, 2, 0).next == 3;
    assert LexFrom(d, s, 3, 0, 0) == Ok([]);
    assert LexFrom(d, s, 2, 0, 0).Ok? && |LexFrom(d, s, 2, 0, 0).value| == 1;
    var ts := LexFrom(d, s, 0, 0, 0).value;
    assert ts[0].text == s[0..2] && ts[1].text == s[2..3];
    assert ts[0].text[0] == C2;
    assert Semicolon(ts[1]) && !Semicolon(ts[0]);
    var routine := RoutineDefinition(ts[0..]);
    assert ts[0].lower[0] == C2;
    assert !routine;
    assert StatementEnd(ts, 1, false, 0) == 1;
    assert EndFrom(ts, 0) == 1;
    assert EndFrom(ts, 2) == 2;
    assert Segments(s, ts, 2, 3) == [Segment(2, 2, 3, 3)];
    assert Segments(s, ts, 0, 0) == [Segment(0, 1, 0, 2), Segment(2, 2, 3, 3)];
    var text := Text(s, 0, 2);
    assert text == [C2, '\U{A0}'];
    assert TrimFrom(text, 0) == 2;
    assert TrimSpace(text) == "";
    assert Text(s, 3, 3) == "";
    assert TrimSpace("") == "";
    assert Pieces(s, [Segment(2, 2, 3, 3)]) == [];
    assert Lex(d, "") == Ok([]);
  }
}
