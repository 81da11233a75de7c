/** Lexing the rest of a text: from any place on, the scan depends on nothing before it but what is open there. */
module Suffix {
  import opened Prelude
  import opened Bytes
  import opened Lexer
  import opened Window

  function MoveResult(r: LexResult, k: nat): LexResult {
    match r
    case Ok(ts) => Ok(MoveAll(ts, k))
    case Err(e) => Err(e)
  }

  // ------------------------------------------------------------------
  // Each element ends at the same place in the rest s[a..|s|].

  lemma {:induction false} DigitsEndSuffix(s: string, i: nat, a: nat)
    requires a <= i <= |s|
    ensures DigitsEnd(s[a..|s|], i - a) == DigitsEnd(s, i) - a
    decreases |s| - i
  {
    if i < |s| && Digit(s[i]) {
      DigitsEndSuffix(s, i + 1, a);
    }
  }

  function MoveBack(r: Option<nat>, a: nat): Option<nat>
    requires r.Some? ==> a <= r.value
  {
    match r
    case None => None
    case Some(n) => Some(n - a)
  }

  lemma {:induction false} BlockEndSuffix(d: Dialect, s: string, i: nat, level: nat, a: nat)
    requires a <= i <= |s|
    ensures BlockEnd(d, s[a..|s|], i - a, level) == MoveBack(BlockEnd(d, s, i, level), a)
    decreases |s| - i
  {
    hide Two, BlockMove;
    if level > 0 && i < |s| {
      BlockStep(d, s, i, level);
      BlockStep(d, s[a..|s|], i - a, level);
      BlockMoveSuffix(d, s, i, level, a);
      var (n, next) := BlockMove(d, s, i, level);
      BlockEndSuffix(d, s, i + n, next, a);
    }
  }

  lemma BlockMoveSuffix(d: Dialect, s: string, i: nat, level: nat, a: nat)
    requires a <= i < |s|
    ensures BlockMove(d, s[a..|s|], i - a, level) == BlockMove(d, s, i, level)
  {
    hide Two;
    TwoWindow(s, i, '/', '*', a, |s|);
    TwoWindow(s, i, '*', '/', a, |s|);
  }

  lemma {:induction false} QuoteEndSuffix(s: string, i: nat, close: char, a: nat)
    requires a <= i <= |s|
    ensures QuoteEnd(s[a..|s|], i - a, close) == QuoteEnd(s, i, close) - a
    decreases |s| - i
  {
    var t := s[a..|s|];
    if i < |s| {
      assert t[i - a] == s[i];
      if s[i] == close {
        if i + 1 < |s| && s[i + 1] == close {
          QuoteEndSuffix(s, i + 2, close, a);
        }
      } else {
        QuoteEndSuffix(s, i + 1, close, a);
      }
    }
  }

  lemma {:induction false} FindSuffix(s: string, i: nat, pat: string, a: nat)
    requires a <= i <= |s|
    ensures Find(s[a..|s|], i - a, pat) == MoveBack(Find(s, i, pat), a)
    decreases |s| - i
  {
    hide At;
    AtWindow(s, i, pat, a, |s|);
    LongerThanRest(s, i, pat);
    if !At(s, i, pat) && i < |s| {
      FindSuffix(s, i + 1, pat, a);
    }
  }

  lemma LongerThanRest(s: string, i: nat, pat: string)
    ensures i + |pat| > |s| ==> !At(s, i, pat)
  {
  }

  // ------------------------------------------------------------------
  // One step, then the whole scan.

  lemma MarkerSuffix(d: Dialect, s: string, i: nat, a: nat)
    requires a <= i <= |s|
    ensures MarkerLength(d, s[a..|s|], i - a) == MarkerLength(d, s, i)
  {
    hide At, DigitsEnd;
    AtWindow(s, i, "/*!", a, |s|);
    LongerThanRest(s, i, "/*!");
    if i + 3 <= |s| {
      DigitsEndSuffix(s, i + 3, a);
    }
  }

  lemma CommentStepSuffix(d: Dialect, s: string, i: nat, executable: nat, a: nat)
    requires a <= i && i + 2 <= |s|
    ensures CommentStep(d, s[a..|s|], i - a, executable) == MoveStep(CommentStep(d, s, i, executable), a)
  {
    hide MarkerLength, BlockEnd;
    MarkerSuffix(d, s, i, a);
    BlockEndSuffix(d, s, i + 2, 1, a);
  }

  lemma DollarStepSuffix(s: string, i: nat, open: nat, a: nat)
    requires a <= i < open <= |s|
    ensures DollarStep(s[a..|s|], i - a, open - a) == MoveStep(DollarStep(s, i, open), a)
  {
    hide Find;
    Subwindow(s, a, |s|, i, open);
    FindSuffix(s, open, s[i..open], a);
  }

  lemma QuotedStepSuffix(s: string, i: nat, a: nat)
    requires a <= i < |s|
    ensures QuotedStep(s[a..|s|], i - a) == MoveStep(QuotedStep(s, i), a)
  {
    hide BareName, QuoteEnd;
    QuoteEndSuffix(s, i + 1, CloserOf(s[i]), a);
    if QuotedStep(s, i).Emit? {
      Subwindow(s, a, |s|, i, QuotedStep(s, i).next);
    }
  }

  lemma StringStepSuffix(d: Dialect, s: string, i: nat, a: nat)
    requires a <= i < |s|
    ensures StringStep(d, s[a..|s|], i - a) == MoveStep(StringStep(d, s, i), a)
  {
    hide StringEnd;
    StringEndWindow(d, s, i + 1, a, |s|);
    assert s[a..|s|][StringEnd(d, s, i + 1) - 1 - a] == s[StringEnd(d, s, i + 1) - 1];
  }

  lemma TokenStepSuffix(d: Dialect, s: string, i: nat, a: nat)
    requires a <= i < |s|
    ensures TokenStep(d, s[a..|s|], i - a) == MoveStep(TokenStep(d, s, i), a)
  {
    hide DollarStep, QuotedStep, WordStep, ByteStep, StringStep, DollarEnd;
    var t := s[a..|s|];
    assert t[i - a] == s[i];
    if s[i] == '$' && DollarEnd(s, i, i + 1).Some? {
      DollarEndWindow(s, i, i + 1, a, |s|);
      DollarStepSuffix(s, i, DollarEnd(s, i, i + 1).value, a);
    } else if s[i] == '\'' {
      StringStepSuffix(d, s, i, a);
    } else if s[i] == '"' || s[i] == '`' || s[i] == '[' {
      QuotedStepSuffix(s, i, a);
    } else if IdentByte(s[i]) {
      DollarEndWindow(s, i, i + 1, a, |s|);
      WordStepWindow(s, i, a, |s|);
    } else {
      ByteStepWindow(s, i, a, |s|);
    }
  }

  lemma ScanSuffix(d: Dialect, s: string, i: nat, executable: nat, a: nat)
    requires a <= i < |s|
    ensures Scan(d, s[a..|s|], i - a, executable) == MoveStep(Scan(d, s, i, executable), a)
  {
    hide TokenStep, CommentStep, LineEnd;
    var t := s[a..|s|];
    assert t[i - a] == s[i];
    TwoWindow(s, i, '-', '-', a, |s|);
    TwoWindow(s, i, '/', '*', a, |s|);
    TwoWindow(s, i, '*', '/', a, |s|);
    if Two(s, i, '-', '-') {
      LineEndWindow(s, i + 2, a, |s|);
    }
    LineEndWindow(s, i + 1, a, |s|);
    if Two(s, i, '/', '*') {
      CommentStepSuffix(d, s, i, executable, a);
    }
    TokenStepSuffix(d, s, i, a);
  }

  lemma MovePrepended(t: Token, r: LexResult, k: nat)
    ensures MoveResult(Prepend([t], r), k) == Prepend([Move(t, k)], MoveResult(r, k))
  {
    if r.Ok? {
      MoveFirst(t, r.value, k);
    }
  }

  lemma MadeTokenSuffix(s: string, i: nat, step: Step, depth: nat, a: nat)
    requires a <= i <= |s| && step.Emit? && i <= step.next <= |s|
    ensures Move(MakeToken(s[a..|s|], i - a, MoveStep(step, a), depth), a) == MakeToken(s, i, step, depth)
  {
    Subwindow(s, a, |s|, i, step.next);
  }

  lemma {:induction false} RestLexes(d: Dialect, s: string, i: nat, depth: nat, executable: nat, a: nat)
    requires a <= i <= |s|
    ensures LexFrom(d, s, i, depth, executable) == MoveResult(LexFrom(d, s[a..|s|], i - a, depth, executable), a)
    decreases |s| - i
  {
    hide Scan, MakeToken;
    if i < |s| {
      ScanSuffix(d, s, i, executable, a);
      assert s[a..|s|][i - a] == s[i];
      var step := Scan(d, s, i, executable);
      if step.Skip? {
        RestLexes(d, s, step.next, depth, step.executable, a);
      } else if step.Emit? && !(s[i] == ')' && depth == 0) {
        var after := DepthAfter(s[i], depth);
        RestLexes(d, s, step.next, after, executable, a);
        MadeTokenSuffix(s, i, step, TokenDepth(s[i], depth), a);
        MovePrepended(MakeToken(s[a..|s|], i - a, MoveStep(step, a), TokenDepth(s[i], depth)), LexFrom(d, s[a..|s|], step.next - a, after, executable), a);
      }
    }
  }

  /** Main result: what follows any place of a text lexes as it would alone, moved, errors included. */
  lemma LexSuffix(d: Dialect, s: string, i: nat, depth: nat, executable: nat)
    requires i <= |s|
    ensures LexFrom(d, s, i, depth, executable) == MoveResult(LexFrom(d, s[i..], 0, depth, executable), i)
  {
    hide LexFrom;
    RestLexes(d, s, i, depth, executable, i);
    assert s[i..|s|] == s[i..];
  }
}
