/** Lexing part of a text: cutting a text where the scan has a token boundary
    changes nothing about the tokens before the cut. */
module Window {
  import opened Prelude
  import opened Bytes
  import opened Lexer

  /** Dialects whose block comments are never executed, so that the scan carries no state but the depth. */
  predicate PlainComments(d: Dialect) {
    d == Postgres || d == MSSQL
  }

  function Move(t: Token, k: nat): Token {
    t.(start := t.start + k, end := t.end + k)
  }

  function MoveAll(ts: seq<Token>, k: nat): (r: seq<Token>)
    ensures |r| == |ts|
    ensures forall i :: 0 <= i < |ts| ==> r[i] == Move(ts[i], k)
  {
    seq(|ts|, i requires 0 <= i < |ts| => Move(ts[i], k))
  }

  lemma Subwindow(s: string, a: nat, b: nat, x: nat, y: nat)
    requires a <= x <= y <= b <= |s|
    ensures s[a..b][x - a..y - a] == s[x..y]
  {
    var t := s[a..b];
    assert |t[x - a..y - a]| == y - x;
    forall k | 0 <= k < y - x ensures t[x - a..y - a][k] == s[x..y][k] {
      assert t[x - a..y - a][k] == t[x - a + k];
    }
  }

  // ------------------------------------------------------------------
  // Each element ends at the same place in the window s[a..b].

  lemma {:induction false} LineEndWindow(s: string, i: nat, a: nat, b: nat)
    requires a <= i <= b <= |s|
    ensures LineEnd(s[a..b], i - a) == (if LineEnd(s, i) <= b then LineEnd(s, i) else b) - a
    decreases b - i
  {
    if i < b && s[i] != '\n' {
      LineEndWindow(s, i + 1, a, b);
    }
  }

  lemma TwoWindow(s: string, i: nat, x: char, y: char, a: nat, b: nat)
    requires a <= i < b <= |s|
    ensures Two(s[a..b], i - a, x, y) <==> i + 1 < b && Two(s, i, x, y)
    ensures Two(s, i, x, y) ==> i + 1 < |s|
  {
  }

  /** Where the next step of a comment goes: by how many bytes, and to what level. */
  function BlockMove(d: Dialect, s: string, i: nat, level: nat): (int, int) {
    if Two(s, i, '/', '*') && NestsComments(d) then (2, level + 1)
    else if Two(s, i, '*', '/') then (2, level - 1)
    else (1, level)
  }

  lemma BlockStep(d: Dialect, s: string, i: nat, level: nat)
    requires i < |s| && level > 0
    ensures var (n, next) := BlockMove(d, s, i, level);
            0 < n <= 2 && i + n <= |s| && next >= 0 && BlockEnd(d, s, i, level) == BlockEnd(d, s, i + n, next)
  {
  }

  lemma {:induction false} BlockEndWindow(d: Dialect, s: string, i: nat, level: nat, a: nat, b: nat)
    requires a <= i <= b <= |s|
    requires BlockEnd(d, s, i, level).Some? && BlockEnd(d, s, i, level).value <= b
    ensures BlockEnd(d, s[a..b], i - a, level) == Some(BlockEnd(d, s, i, level).value - a)
    decreases b - i
  {
    hide *;
    if level == 0 {
      BlockIsOver(d, s, i);
      BlockIsOver(d, s[a..b], i - a);
    } else {
      BlockStep(d, s, i, level);
      BlockStep(d, s[a..b], i - a, level);
      SameMove(d, s, i, level, a, b);
      var (n, next) := BlockMove(d, s, i, level);
      BlockEndWindow(d, s, i + n, next, a, b);
    }
  }

  lemma BlockIsOver(d: Dialect, s: string, i: nat)
    requires i <= |s|
    ensures BlockEnd(d, s, i, 0) == Some(i)
  {
  }

  lemma SameMove(d: Dialect, s: string, i: nat, level: nat, a: nat, b: nat)
    requires a <= i && i + 2 <= b <= |s| && level > 0
    ensures BlockMove(d, s[a..b], i - a, level) == BlockMove(d, s, i, level)
    ensures BlockMove(d, s, i, level).1 >= 0
  {
    hide Two;
    TwoWindow(s, i, '/', '*', a, b);
    TwoWindow(s, i, '*', '/', a, b);
  }

  lemma {:induction false} StringEndWindow(d: Dialect, s: string, i: nat, a: nat, b: nat)
    requires a <= i <= b <= |s|
    requires StringEnd(d, s, i) <= b
    ensures StringEnd(d, s[a..b], i - a) == StringEnd(d, s, i) - a
    decreases b - i
  {
    hide EscapedPair;
    if i < b {
      EscapedPairWindow(d, s, i, a, b);
      if EscapedPair(d, s, i) {
        StringEndWindow(d, s, i + 2, a, b);
      } else if s[i] != '\'' {
        StringEndWindow(d, s, i + 1, a, b);
      }
    }
  }

  lemma EscapedPairWindow(d: Dialect, s: string, i: nat, a: nat, b: nat)
    requires a <= i < b <= |s|
    ensures EscapedPair(d, s[a..b], i - a) <==> i + 1 < b && EscapedPair(d, s, i)
    ensures EscapedPair(d, s, i) ==> i + 1 < |s|
  {
  }

  lemma {:induction false} QuoteEndWindow(s: string, i: nat, close: char, a: nat, b: nat)
    requires a <= i <= b <= |s|
    requires QuoteEnd(s, i, close) < b
    ensures QuoteEnd(s[a..b], i - a, close) == QuoteEnd(s, i, close) - a
    decreases b - i
  {
    var t := s[a..b];
    assert t[i - a] == s[i];
    if s[i] == close {
      if i + 1 < |s| && s[i + 1] == close {
        QuoteEndWindow(s, i + 2, close, a, b);
      }
    } else {
      QuoteEndWindow(s, i + 1, close, a, b);
    }
  }

  lemma {:induction false} IdentEndWindow(s: string, i: nat, a: nat, b: nat)
    requires a <= i <= b <= |s|
    requires IdentEnd(s, i) <= b
    ensures IdentEnd(s[a..b], i - a) == IdentEnd(s, i) - a
    decreases b - i
  {
    if i < b && IdentByte(s[i]) {
      IdentEndWindow(s, i + 1, a, b);
    }
  }

  lemma {:induction false} DollarEndWindow(s: string, start: nat, i: nat, a: nat, b: nat)
    requires a <= start < i <= b <= |s|
    requires DollarEnd(s, start, i).Some? ==> DollarEnd(s, start, i).value <= b
    ensures DollarEnd(s, start, i).None? ==> DollarEnd(s[a..b], start - a, i - a).None?
    ensures DollarEnd(s, start, i).Some? ==> DollarEnd(s[a..b], start - a, i - a) == Some(DollarEnd(s, start, i).value - a)
    decreases b - i
  {
    if i < b && s[i] != '$' && (s[i] == '_' || Letter(s[i]) || (i > start + 1 && Digit(s[i]))) {
      DollarEndWindow(s, start, i + 1, a, b);
    }
  }

  lemma {:induction false} FindWindow(s: string, i: nat, pat: string, a: nat, b: nat)
    requires a <= i <= b <= |s|
    requires Find(s, i, pat).Some? && Find(s, i, pat).value + |pat| <= b
    ensures Find(s[a..b], i - a, pat) == Some(Find(s, i, pat).value - a)
    decreases b - i
  {
    hide At;
    AtWindow(s, i, pat, a, b);
    if !At(s, i, pat) {
      if i < b {
        FindWindow(s, i + 1, pat, a, b);
      }
    }
  }

  lemma AtWindow(s: string, i: nat, pat: string, a: nat, b: nat)
    requires a <= i <= b <= |s|
    ensures i + |pat| <= b ==> (At(s[a..b], i - a, pat) <==> At(s, i, pat))
    ensures i + |pat| > b ==> !At(s[a..b], i - a, pat)
  {
    if i + |pat| <= b {
      Subwindow(s, a, b, i, i + |pat|);
    }
  }

  // ------------------------------------------------------------------
  // One step, then the whole scan.

  function MoveStep(r: Step, a: nat): Step
    requires !r.Fail? ==> a <= r.next
  {
    match r
    case Skip(next, executable) => Skip(next - a, executable)
    case Emit(next, lower, identifier, quoted) => Emit(next - a, lower, identifier, quoted)
    case Fail(e) => Fail(e)
  }

  lemma DollarStepWindow(s: string, i: nat, open: nat, a: nat, b: nat)
    requires a <= i < open <= |s| && b <= |s|
    requires DollarStep(s, i, open).Emit? && DollarStep(s, i, open).next <= b
    ensures DollarStep(s[a..b], i - a, open - a) == MoveStep(DollarStep(s, i, open), a)
  {
    Subwindow(s, a, b, i, open);
    FindWindow(s, open, s[i..open], a, b);
  }

  lemma QuotedStepWindow(s: string, i: nat, a: nat, b: nat)
    requires a <= i < b <= |s|
    requires QuotedStep(s, i).Emit? && QuotedStep(s, i).next <= b
    ensures QuotedStep(s[a..b], i - a) == MoveStep(QuotedStep(s, i), a)
  {
    hide BareName;
    QuoteEndWindow(s, i + 1, CloserOf(s[i]), a, b);
    Subwindow(s, a, b, i, QuotedStep(s, i).next);
  }

  lemma WordStepWindow(s: string, i: nat, a: nat, b: nat)
    requires a <= i < b <= |s|
    requires WordStep(s, i).next <= b
    ensures WordStep(s[a..b], i - a) == MoveStep(WordStep(s, i), a)
  {
    IdentEndWindow(s, i + 1, a, b);
    Subwindow(s, a, b, i, WordStep(s, i).next);
  }

  lemma ByteStepWindow(s: string, i: nat, a: nat, b: nat)
    requires a <= i < b <= |s|
    ensures ByteStep(s[a..b], i - a) == MoveStep(ByteStep(s, i), a)
  {
    Subwindow(s, a, b, i, i + 1);
  }

  lemma TokenStepWindow(d: Dialect, s: string, i: nat, a: nat, b: nat)
    requires a <= i < b <= |s|
    requires TokenStep(d, s, i).Emit? && TokenStep(d, s, i).next <= b
    ensures TokenStep(d, s[a..b], i - a) == MoveStep(TokenStep(d, s, i), a)
  {
    hide DollarStep, QuotedStep, WordStep, ByteStep, StringEnd, DollarEnd;
    var t := s[a..b];
    assert t[i - a] == s[i];
    if s[i] == '$' {
      DollarEndWindow(s, i, i + 1, a, b);
    }
    if s[i] == '$' && DollarEnd(s, i, i + 1).Some? {
      DollarStepWindow(s, i, DollarEnd(s, i, i + 1).value, a, b);
    } else if s[i] == '\'' {
      StringEndWindow(d, s, i + 1, a, b);
    } else if s[i] == '"' || s[i] == '`' || s[i] == '[' {
      QuotedStepWindow(s, i, a, b);
    } else if IdentByte(s[i]) {
      WordStepWindow(s, i, a, b);
    } else {
      ByteStepWindow(s, i, a, b);
    }
  }

  lemma ScanWindow(d: Dialect, s: string, i: nat, a: nat, b: nat)
    requires PlainComments(d)
    requires a <= i < b <= |s|
    requires !Scan(d, s, i, 0).Fail? && Scan(d, s, i, 0).next <= b
    ensures Scan(d, s[a..b], i - a, 0) == MoveStep(Scan(d, s, i, 0), a)
  {
    var t := s[a..b];
    assert t[i - a] == s[i];
    if ByteSpace(s[i]) {
    } else if Two(s, i, '-', '-') {
      LineEndWindow(s, i + 2, a, b);
    } else if Two(s, i, '/', '*') {
      BlockEndWindow(d, s, i + 2, 1, a, b);
    } else {
      TokenStepWindow(d, s, i, a, b);
    }
  }

  /** Tokens lie in order inside the scanned text, and each spells its own span. */
  ghost predicate InOrder(s: string, from: nat, ts: seq<Token>) {
    && (forall k :: 0 <= k < |ts| ==> from <= ts[k].start < ts[k].end <= |s| && ts[k].text == s[ts[k].start..ts[k].end])
    && (forall j, k :: 0 <= j < k < |ts| ==> ts[j].end <= ts[k].start)
  }

  lemma {:induction false} TokensInOrder(d: Dialect, s: string, i: nat, depth: nat, executable: nat)
    requires i <= |s| && LexFrom(d, s, i, depth, executable).Ok?
    ensures InOrder(s, i, LexFrom(d, s, i, depth, executable).value)
    decreases |s| - i
  {
    hide Scan;
    if i < |s| {
      var step := Scan(d, s, i, executable);
      match step {
        case Skip(next, executable') => TokensInOrder(d, s, next, depth, executable');
        case Emit(next, _, _, _) =>
          var after := DepthAfter(s[i], depth);
          TokensInOrder(d, s, next, after, executable);
          var ts, rest := LexFrom(d, s, i, depth, executable).value, LexFrom(d, s, next, after, executable).value;
          assert ts == [ts[0]] + rest;
          forall j, k | 0 <= j < k < |ts| ensures ts[j].end <= ts[k].start {
            assert ts[k] == rest[k - 1];
            if j > 0 {
              assert ts[j] == rest[j - 1];
            }
          }
      }
    }
  }

  /** A token that is no parenthesis. */
  predicate PlainToken(t: Token) {
    t.text != "" && t.text[0] != '(' && t.text[0] != ')'
  }

  /** b is the end of the text, or the place where token q, no parenthesis and at depth 0, starts. */
  predicate Boundary(s: string, ts: seq<Token>, q: nat, b: nat) {
    || (q == |ts| && b == |s|)
    || (q < |ts| && ts[q].start == b && ts[q].depth == 0 && PlainToken(ts[q]))
  }

  /** The depth a scan is at when it next emits a token that is no parenthesis is that token's depth. */
  lemma DepthAtToken(d: Dialect, s: string, i: nat, depth: nat)
    requires i < |s| && LexFrom(d, s, i, depth, 0).Ok?
    requires var ts := LexFrom(d, s, i, depth, 0).value; |ts| > 0 && ts[0].start == i && PlainToken(ts[0])
    ensures LexFrom(d, s, i, depth, 0).value[0].depth == depth
  {
    TokensInOrder(d, s, i, depth, 0);
    var step := Scan(d, s, i, 0);
    if step.Skip? {
      TokensInOrder(d, s, step.next, depth, step.executable);
    } else {
      var ts := LexFrom(d, s, i, depth, 0).value;
      assert ts[0].text == s[i..step.next];
      assert ts[0].text[0] == s[i];
    }
  }

  lemma ScanStaysPlain(d: Dialect, s: string, i: nat)
    requires PlainComments(d) && i < |s|
    ensures Scan(d, s, i, 0).Skip? ==> Scan(d, s, i, 0).executable == 0
  {
  }

  lemma WindowEnds(d: Dialect, s: string, b: nat, depth: nat, a: nat, q: nat)
    requires a <= b <= |s| && LexFrom(d, s, b, depth, 0).Ok? && Boundary(s, LexFrom(d, s, b, depth, 0).value, q, b)
    ensures LexFrom(d, s[a..b], b - a, depth, 0) == Ok([]) && LexFrom(d, s, b, depth, 0).value[..q] == []
  {
    hide Scan;
    TokensInOrder(d, s, b, depth, 0);
    if q < |LexFrom(d, s, b, depth, 0).value| {
      DepthAtToken(d, s, b, depth);
    }
  }

  lemma {:induction false} LexWindow(d: Dialect, s: string, i: nat, depth: nat, a: nat, b: nat, q: nat)
    requires PlainComments(d)
    requires a <= i <= b <= |s| && LexFrom(d, s, i, depth, 0).Ok?
    requires Boundary(s, LexFrom(d, s, i, depth, 0).value, q, b)
    ensures LexFrom(d, s[a..b], i - a, depth, 0).Ok?
    ensures MoveAll(LexFrom(d, s[a..b], i - a, depth, 0).value, a) == LexFrom(d, s, i, depth, 0).value[..q]
    decreases b - i
  {
    hide Scan, MakeToken;
    if i == b {
      WindowEnds(d, s, b, depth, a, q);
    } else {
      ScanStaysPlain(d, s, i);
      match Scan(d, s, i, 0) {
        case Skip(next, _) =>
          TokensInOrder(d, s, next, depth, 0);
          ScanWindow(d, s, i, a, b);
          LexWindow(d, s, next, depth, a, b, q);
        case Emit(next, _, _, _) =>
          EmitLength(d, s, i, depth);
          hide LexFrom, Boundary;
          var ts, after := LexFrom(d, s, i, depth, 0).value, DepthAfter(s[i], depth);
          EmitSplits(d, s, i, depth, b, q);
          ScanWindow(d, s, i, a, b);
          LexWindow(d, s, next, after, a, b, q - 1);
          EmitJoins(d, s, i, depth, a, b, q, ts, LexFrom(d, s, next, after, 0).value, LexFrom(d, s[a..b], next - a, after, 0).value);
      }
    }
  }

  lemma EmitLength(d: Dialect, s: string, i: nat, depth: nat)
    requires i < |s| && LexFrom(d, s, i, depth, 0).Ok? && Scan(d, s, i, 0).Emit?
    ensures s[i] == ')' ==> depth > 0
    ensures var rest := LexFrom(d, s, Scan(d, s, i, 0).next, DepthAfter(s[i], depth), 0);
            rest.Ok? && |LexFrom(d, s, i, depth, 0).value| == |rest.value| + 1
  {
    hide Scan, MakeToken;
  }

  /** A boundary after a token is a boundary of what follows the token. */
  lemma EmitSplits(d: Dialect, s: string, i: nat, depth: nat, b: nat, q: nat)
    requires i < b <= |s| && LexFrom(d, s, i, depth, 0).Ok? && Scan(d, s, i, 0).Emit?
    requires Boundary(s, LexFrom(d, s, i, depth, 0).value, q, b)
    ensures s[i] == ')' ==> depth > 0
    ensures var rest := LexFrom(d, s, Scan(d, s, i, 0).next, DepthAfter(s[i], depth), 0);
            rest.Ok? && q > 0 && Scan(d, s, i, 0).next <= b && Boundary(s, rest.value, q - 1, b)
  {
    hide Scan;
    var ts := LexFrom(d, s, i, depth, 0).value;
    var next := Scan(d, s, i, 0).next;
    var rest := LexFrom(d, s, next, DepthAfter(s[i], depth), 0).value;
    assert ts == [ts[0]] + rest;
    TokensInOrder(d, s, next, DepthAfter(s[i], depth), 0);
    if q < |ts| && q > 0 {
      assert ts[q] == rest[q - 1];
    }
  }

  /** A token in front: `ts` from it on and `rest` after it, in the whole; `us` after it, in the window. */
  lemma EmitJoins(d: Dialect, s: string, i: nat, depth: nat, a: nat, b: nat, q: nat, ts: seq<Token>, rest: seq<Token>, us: seq<Token>)
    requires a <= i < b <= |s| && (s[i] == ')' ==> depth > 0)
    requires var step := Scan(d, s, i, 0); step.Emit? && step.next <= b && Scan(d, s[a..b], i - a, 0) == MoveStep(step, a)
    requires LexFrom(d, s, Scan(d, s, i, 0).next, DepthAfter(s[i], depth), 0) == Ok(rest)
    requires LexFrom(d, s[a..b], Scan(d, s, i, 0).next - a, DepthAfter(s[i], depth), 0) == Ok(us)
    requires LexFrom(d, s, i, depth, 0) == Ok(ts) && 0 < q <= |rest| + 1 && MoveAll(us, a) == rest[..q - 1]
    ensures LexFrom(d, s[a..b], i - a, depth, 0).Ok?
    ensures MoveAll(LexFrom(d, s[a..b], i - a, depth, 0).value, a) == ts[..q]
  {
    hide *;
    var t, step := s[a..b], Scan(d, s, i, 0);
    assert t[i - a] == s[i];
    LexEmit(d, s, i, depth);
    EmittedToken(d, s, i, depth, a, b);
    var first, moved := MakeToken(s, i, step, TokenDepth(s[i], depth)), MakeToken(t, i - a, Scan(d, t, i - a, 0), TokenDepth(s[i], depth));
    LexEmit(d, t, i - a, depth);
    assert ts == [first] + rest;
    TakeFirst(first, rest, q);
    MoveFirst(moved, us, a);
  }

  lemma TakeFirst(t: Token, ts: seq<Token>, q: nat)
    requires 0 < q <= |ts| + 1
    ensures ([t] + ts)[..q] == [t] + ts[..q - 1]
  {
  }

  lemma MoveFirst(t: Token, ts: seq<Token>, k: nat)
    ensures MoveAll([t] + ts, k) == [Move(t, k)] + MoveAll(ts, k)
  {
  }

  lemma LexEmit(d: Dialect, s: string, i: nat, depth: nat)
    requires i < |s| && Scan(d, s, i, 0).Emit?
    requires s[i] == ')' ==> depth > 0
    requires LexFrom(d, s, Scan(d, s, i, 0).next, DepthAfter(s[i], depth), 0).Ok?
    ensures LexFrom(d, s, i, depth, 0)
         == Ok([MakeToken(s, i, Scan(d, s, i, 0), TokenDepth(s[i], depth))]
               + LexFrom(d, s, Scan(d, s, i, 0).next, DepthAfter(s[i], depth), 0).value)
  {
    hide Scan, MakeToken;
  }

  lemma EmittedToken(d: Dialect, s: string, i: nat, depth: nat, a: nat, b: nat)
    requires a <= i < b <= |s| && (s[i] == ')' ==> depth > 0)
    requires var step := Scan(d, s, i, 0); step.Emit? && step.next <= b && Scan(d, s[a..b], i - a, 0) == MoveStep(step, a)
    ensures Scan(d, s[a..b], i - a, 0).Emit? && Scan(d, s[a..b], i - a, 0).next == Scan(d, s, i, 0).next - a
    ensures Move(MakeToken(s[a..b], i - a, Scan(d, s[a..b], i - a, 0), TokenDepth(s[i], depth)), a)
         == MakeToken(s, i, Scan(d, s, i, 0), TokenDepth(s[i], depth))
  {
    hide Scan;
    Subwindow(s, a, b, i, Scan(d, s, i, 0).next);
  }
}
