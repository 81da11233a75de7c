/** Text that is built to be lexed: a list of lexemes, how it is spelled, and
    the proof that the lexer reads the spelling back as one token per lexeme. */
module Render {
  import opened Prelude
  import opened Bytes
  import opened Lexer

  datatype Lexeme =
    | Gap(white: string)
    | Word(word: string)
    | Quoted(open: char, name: string)
    | Literal(value: string, doubled: bool)
    | Mark(c: char)

  /** Every `c` of s written twice. */
  function Double(s: string, c: char): (r: string)
    ensures |r| >= |s|
  {
    if s == "" then "" else (if s[0] == c then [c, c] else [s[0]]) + Double(s[1..], c)
  }

  function Spell(x: Lexeme): string {
    match x
    case Gap(white) => white
    case Word(word) => word
    case Quoted(open, name) => [open] + Double(name, CloserOf(open)) + [CloserOf(open)]
    case Literal(value, doubled) => "'" + LiteralBody(value, doubled) + "'"
    case Mark(c) => [c]
  }

  /** Body of a string literal: quotes doubled, and backslashes too where the engine escapes with them. */
  function LiteralBody(value: string, doubled: bool): string {
    if value == "" then ""
    else (if value[0] == '\'' || (value[0] == '\\' && doubled) then [value[0], value[0]] else [value[0]]) + LiteralBody(value[1..], doubled)
  }

  function SpellAll(xs: seq<Lexeme>): string {
    if xs == [] then "" else Spell(xs[0]) + SpellAll(xs[1..])
  }

  predicate WordByte(c: char) {
    Letter(c) || Digit(c) || c == '_'
  }

  /** A byte the lexer makes a token of its own. */
  predicate MarkByte(c: char) {
    !ByteSpace(c) && !IdentByte(c) && c != '#' && c != '\'' && c != '"' && c != '`' && c != '['
  }

  predicate Formed(d: Dialect, x: Lexeme) {
    match x
    case Gap(white) => forall k :: 0 <= k < |white| ==> AsciiSpace(white[k])
    case Word(word) => word != "" && WordByte(word[0]) && forall k :: 0 <= k < |word| ==> WordByte(word[k]) || word[k] == '$'
    case Quoted(open, _) => open == '"' || open == '`' || open == '['
    case Literal(_, doubled) => BackslashEscapes(d) ==> doubled
    case Mark(c) => MarkByte(c)
  }

  /** The byte after the lexeme does not continue it. */
  predicate Fits(x: Lexeme, rest: string) {
    rest == "" ||
    match x
    case Gap(_) => true
    case Word(_) => !IdentByte(rest[0])
    case Quoted(open, _) => rest[0] != CloserOf(open)
    case Literal(_, _) => rest[0] != '\''
    case Mark(c) => !(c == '-' && rest[0] == '-') && !(c == '/' && rest[0] == '*')
  }

  predicate Readable(d: Dialect, xs: seq<Lexeme>) {
    xs == [] || (Formed(d, xs[0]) && Fits(xs[0], SpellAll(xs[1..])) && Readable(d, xs[1..]))
  }

  // ------------------------------------------------------------------
  // The tokens a lexeme list stands for.

  function LowerOf(x: Lexeme): string {
    match x
    case Gap(_) => ""
    case Word(word) => ToLower(word)
    case Quoted(_, _) => BareName(Spell(x))
    case Literal(_, _) => "?"
    case Mark(c) => [c]
  }

  function TokenOf(x: Lexeme, at: nat, depth: nat): Token {
    Token(Spell(x), LowerOf(x), at, at + |Spell(x)|, depth, x.Word? || x.Quoted?, x.Quoted?)
  }

  predicate Opens(x: Lexeme) {
    x == Mark('(')
  }

  predicate Closes(x: Lexeme) {
    x == Mark(')')
  }

  function Advance(x: Lexeme, depth: nat): nat
    requires Closes(x) ==> depth > 0
  {
    if Opens(x) then depth + 1 else if Closes(x) then depth - 1 else depth
  }

  /** Depth a token carries when the scan stands at `depth`. */
  function Outside(x: Lexeme, depth: nat): nat
    requires Closes(x) ==> depth > 0
  {
    if Closes(x) then depth - 1 else depth
  }

  /** The list closes what it opens, and `depth` parentheses more. */
  predicate Balanced(xs: seq<Lexeme>, depth: nat) {
    if xs == [] then depth == 0 else (Closes(xs[0]) ==> depth > 0) && Balanced(xs[1..], Advance(xs[0], depth))
  }

  function TokensOf(xs: seq<Lexeme>, at: nat, depth: nat): seq<Token>
    requires Balanced(xs, depth)
  {
    if xs == [] then []
    else
      (if xs[0].Gap? then [] else [TokenOf(xs[0], at, Outside(xs[0], depth))])
      + TokensOf(xs[1..], at + |Spell(xs[0])|, Advance(xs[0], depth))
  }

  // ------------------------------------------------------------------
  // One lexeme.

  lemma {:induction false} IdentRuns(s: string, i: nat, e: nat)
    requires i <= e <= |s|
    requires forall k :: i <= k < e ==> IdentByte(s[k])
    requires e == |s| || !IdentByte(s[e])
    ensures IdentEnd(s, i) == e
    decreases e - i
  {
    if i < e {
      IdentRuns(s, i + 1, e);
    }
  }

  lemma Drop(s: string, i: nat, n: nat)
    requires i + n <= |s|
    ensures s[i..][n..] == s[i + n..]
  {
  }

  /** Reading doubled text up to its closer. */
  lemma {:induction false} QuoteRuns(s: string, i: nat, name: string, close: char, rest: string)
    requires i <= |s| && s[i..] == Double(name, close) + [close] + rest
    requires rest == "" || rest[0] != close
    ensures QuoteEnd(s, i, close) == i + |Double(name, close)| < |s|
    decreases |name|
  {
    var t := s[i..];
    if name == "" {
      assert t == [close] + rest;
      assert t[0] == close && s[i] == t[0];
      assert rest != "" ==> s[i + 1] == t[1] == rest[0];
    } else if name[0] == close {
      assert t == [close, close] + (Double(name[1..], close) + [close] + rest);
      assert t[0] == close && t[1] == close && s[i] == t[0] && s[i + 1] == t[1];
      Drop(s, i, 2);
      assert t[2..] == Double(name[1..], close) + [close] + rest;
      QuoteRuns(s, i + 2, name[1..], close, rest);
    } else {
      assert t == [name[0]] + (Double(name[1..], close) + [close] + rest);
      assert t[0] == name[0] && s[i] == t[0];
      Drop(s, i, 1);
      assert t[1..] == Double(name[1..], close) + [close] + rest;
      QuoteRuns(s, i + 1, name[1..], close, rest);
    }
  }

  /** A string body the scan does not leave: pairs it steps over, and bytes that are neither quote nor escape. */
  predicate ClosedBody(d: Dialect, body: string) {
    if body == "" then true
    else if EscapedPair(d, body, 0) then ClosedBody(d, body[2..])
    else body[0] != '\'' && !(body[0] == '\\' && BackslashEscapes(d)) && ClosedBody(d, body[1..])
  }

  lemma {:induction false} LiteralIsClosed(d: Dialect, value: string, doubled: bool)
    requires BackslashEscapes(d) ==> doubled
    ensures ClosedBody(d, LiteralBody(value, doubled))
    decreases |value|
  {
    if value != "" {
      LiteralIsClosed(d, value[1..], doubled);
      var body, more := LiteralBody(value, doubled), LiteralBody(value[1..], doubled);
      if value[0] == '\'' || (value[0] == '\\' && doubled) {
        assert body[0] == body[1] == value[0] && body[2..] == more;
        if !EscapedPair(d, body, 0) {
          PlainBackslashes(d, body, more);
        }
      } else {
        assert body[0] == value[0] && body[1..] == more;
      }
    }
  }

  /** Where a backslash does not escape, two of them are two plain bytes. */
  lemma PlainBackslashes(d: Dialect, body: string, more: string)
    requires !BackslashEscapes(d) && |body| >= 2 && body[0] == '\\' && body[1] == '\\' && body[2..] == more && ClosedBody(d, more)
    ensures ClosedBody(d, body)
  {
    assert body[1..][1..] == more;
    assert ClosedBody(d, body[1..]);
  }

  /** Reading a closed body up to its closing quote. */
  lemma {:induction false} StringRuns(d: Dialect, s: string, i: nat, body: string, rest: string)
    requires i <= |s| && s[i..] == body + "'" + rest && ClosedBody(d, body)
    requires rest == "" || rest[0] != '\''
    ensures StringEnd(d, s, i) == i + |body| + 1
    decreases |body|
  {
    hide EscapedPair;
    var t := s[i..];
    assert |t| == |s| - i && s[i] == t[0] && (|t| > 1 ==> s[i + 1] == t[1]);
    if body == "" {
      assert t == "'" + rest;
      assert !EscapedPair(d, s, i) by { ClosingQuote(d, s, i, rest); }
    } else {
      PairAhead(d, s, i, body, rest);
      var n := if EscapedPair(d, body, 0) then 2 else 1;
      assert n <= |body| by { PairFits(d, body); }
      Drop(s, i, n);
      assert t[n..] == body[n..] + "'" + rest;
      StringRuns(d, s, i + n, body[n..], rest);
    }
  }

  lemma PairFits(d: Dialect, body: string)
    ensures EscapedPair(d, body, 0) ==> |body| >= 2
  {
  }

  lemma ClosingQuote(d: Dialect, s: string, i: nat, rest: string)
    requires i < |s| && s[i..] == "'" + rest && (rest == "" || rest[0] != '\'')
    ensures !EscapedPair(d, s, i)
  {
    assert s[i] == s[i..][0];
    if rest != "" {
      assert s[i + 1] == s[i..][1] == rest[0];
    }
  }

  lemma PairAhead(d: Dialect, s: string, i: nat, body: string, rest: string)
    requires i < |s| && body != "" && s[i..] == body + "'" + rest && ClosedBody(d, body)
    ensures EscapedPair(d, s, i) <==> EscapedPair(d, body, 0)
    ensures s[i] == body[0]
  {
    var t := s[i..];
    assert s[i] == t[0] == body[0];
    if |body| > 1 {
      assert s[i + 1] == t[1] == body[1];
    }
  }

  lemma Prefix(s: string, i: nat, a: string, rest: string)
    requires i <= |s| && s[i..] == a + rest
    ensures i + |a| <= |s| && s[i..i + |a|] == a && s[i + |a|..] == rest
    ensures forall k :: 0 <= k < |a| ==> s[i + k] == a[k]
    ensures rest != "" ==> s[i + |a|] == rest[0]
  {
    var t := s[i..];
    assert |t| == |s| - i;
    assert t[..|a|] == a && t[|a|..] == rest;
    assert forall k :: 0 <= k < |a| ==> t[k] == s[i + k];
  }

  lemma ScanWord(d: Dialect, s: string, i: nat, word: string, rest: string)
    requires i <= |s| && s[i..] == word + rest && Formed(d, Word(word)) && Fits(Word(word), rest)
    ensures i < |s| && Scan(d, s, i, 0) == Emit(i + |word|, ToLower(word), true, false)
  {
    hide Scan;
    Prefix(s, i, word, rest);
    assert s[i] == word[0];
    forall k | i <= k < i + |word| ensures IdentByte(s[k]) {
      assert s[k] == word[k - i];
    }
    IdentRuns(s, i + 1, i + |word|);
    ScanAtWord(d, s, i);
  }

  lemma ScanAtWord(d: Dialect, s: string, i: nat)
    requires i < |s| && WordByte(s[i])
    ensures Scan(d, s, i, 0) == WordStep(s, i)
  {
    hide CommentStep, LineEnd, StringStep, QuotedStep, DollarStep, WordStep, ByteStep;
  }

  lemma ScanQuotedName(d: Dialect, s: string, i: nat, open: char, name: string, rest: string)
    requires var x := Quoted(open, name); i <= |s| && s[i..] == Spell(x) + rest && Formed(d, x) && Fits(x, rest)
    ensures i < |s| && Scan(d, s, i, 0) == Emit(i + |Spell(Quoted(open, name))|, BareName(Spell(Quoted(open, name))), true, true)
  {
    hide BareName, Double, Scan, QuoteEnd;
    var x, close := Quoted(open, name), CloserOf(open);
    Prefix(s, i, Spell(x), rest);
    assert s[i] == Spell(x)[0] == open;
    assert Spell(x) + rest == [open] + (Double(name, close) + [close] + rest);
    Prefix(s, i, [open], Double(name, close) + [close] + rest);
    QuoteRuns(s, i + 1, name, close, rest);
    ScanAtQuote(d, s, i);
  }

  lemma ScanAtQuote(d: Dialect, s: string, i: nat)
    requires i < |s|
    ensures s[i] == '\'' ==> Scan(d, s, i, 0) == StringStep(d, s, i)
    ensures s[i] == '"' || s[i] == '`' || s[i] == '[' ==> Scan(d, s, i, 0) == QuotedStep(s, i)
  {
    hide CommentStep, LineEnd, StringStep, QuotedStep, DollarStep, WordStep, ByteStep;
  }

  lemma ScanLiteral(d: Dialect, s: string, i: nat, value: string, doubled: bool, rest: string)
    requires var x := Literal(value, doubled); i <= |s| && s[i..] == Spell(x) + rest && Formed(d, x) && Fits(x, rest)
    ensures i < |s| && Scan(d, s, i, 0) == Emit(i + |Spell(Literal(value, doubled))|, "?", false, false)
  {
    LiteralIsClosed(d, value, doubled);
    ScanClosed(d, s, i, LiteralBody(value, doubled), rest);
  }

  lemma ScanClosed(d: Dialect, s: string, i: nat, body: string, rest: string)
    requires i <= |s| && s[i..] == "'" + body + "'" + rest && ClosedBody(d, body) && (rest == "" || rest[0] != '\'')
    ensures i < |s| && Scan(d, s, i, 0) == Emit(i + |body| + 2, "?", false, false)
  {
    hide StringEnd, Scan, ClosedBody;
    Prefix(s, i, "'" + body + "'", rest);
    assert s[i] == s[i + |body| + 1] == '\'';
    EndOfClosed(d, s, i, body, rest);
    ScanAtQuote(d, s, i);
  }

  lemma EndOfClosed(d: Dialect, s: string, i: nat, body: string, rest: string)
    requires i < |s| && s[i..] == "'" + body + "'" + rest && ClosedBody(d, body) && (rest == "" || rest[0] != '\'')
    ensures StringEnd(d, s, i + 1) == i + |body| + 2
  {
    hide *;
    assert "'" + body + "'" + rest == "'" + (body + "'" + rest);
    Prefix(s, i, "'", body + "'" + rest);
    StringRuns(d, s, i + 1, body, rest);
  }

  lemma ScanMark(d: Dialect, s: string, i: nat, c: char, rest: string)
    requires i <= |s| && s[i..] == [c] + rest && Formed(d, Mark(c)) && Fits(Mark(c), rest)
    ensures i < |s| && Scan(d, s, i, 0) == Emit(i + 1, [c], false, false)
  {
    hide CommentStep, LineEnd;
    Prefix(s, i, [c], rest);
    assert s[i..i + 1] == [c] && ToLower([c]) == [c];
  }

  lemma SpaceSkipped(d: Dialect, s: string, i: nat, depth: nat)
    requires i < |s| && ByteSpace(s[i])
    ensures LexFrom(d, s, i, depth, 0) == LexFrom(d, s, i + 1, depth, 0)
  {
    hide TokenStep, CommentStep, LineEnd;
    assert Scan(d, s, i, 0) == Skip(i + 1, 0);
  }

  lemma {:induction false} SkipGap(d: Dialect, s: string, i: nat, white: string, rest: string, depth: nat)
    requires i <= |s| && s[i..] == white + rest && Formed(d, Gap(white))
    ensures i + |white| <= |s| && LexFrom(d, s, i, depth, 0) == LexFrom(d, s, i + |white|, depth, 0)
    decreases |white|
  {
    hide LexFrom;
    Prefix(s, i, white, rest);
    if white != "" {
      assert s[i] == white[0];
      Drop(s, i, 1);
      assert s[i + 1..] == white[1..] + rest;
      SpaceSkipped(d, s, i, depth);
      SkipGap(d, s, i + 1, white[1..], rest, depth);
    }
  }

  // ------------------------------------------------------------------
  // The whole list.

  lemma ScanLexeme(d: Dialect, s: string, i: nat, x: Lexeme, rest: string)
    requires i <= |s| && s[i..] == Spell(x) + rest && Formed(d, x) && Fits(x, rest) && !x.Gap?
    ensures i < |s| && i + |Spell(x)| <= |s| && s[i..i + |Spell(x)|] == Spell(x) && s[i + |Spell(x)|..] == rest
    ensures Scan(d, s, i, 0) == Emit(i + |Spell(x)|, LowerOf(x), x.Word? || x.Quoted?, x.Quoted?)
    ensures s[i] == '(' <==> Opens(x)
    ensures s[i] == ')' <==> Closes(x)
  {
    hide Scan, BareName, ToLower, Double;
    Prefix(s, i, Spell(x), rest);
    match x
    case Word(word) => ScanWord(d, s, i, word, rest); assert s[i] == word[0];
    case Quoted(open, name) => ScanQuotedName(d, s, i, open, name, rest); assert s[i] == Spell(x)[0] == open;
    case Literal(value, doubled) => ScanLiteral(d, s, i, value, doubled, rest); assert s[i] == Spell(x)[0] == '\'';
    case Mark(c) => ScanMark(d, s, i, c, rest); assert s[i] == Spell(x)[0] == c;
  }

  /** Main result: a readable, balanced lexeme list lexes to exactly its tokens. */
  lemma {:induction false} LexReadsLexemes(d: Dialect, s: string, i: nat, xs: seq<Lexeme>, depth: nat)
    requires i <= |s| && s[i..] == SpellAll(xs) && Readable(d, xs) && Balanced(xs, depth)
    ensures LexFrom(d, s, i, depth, 0) == Ok(TokensOf(xs, i, depth))
    decreases |xs|
  {
    hide Scan, Spell, Formed, Fits, TokenOf, LexFrom, Advance, Outside, Closes;
    if xs == [] {
      LexEnd(d, s);
    } else {
      var x, rest := xs[0], SpellAll(xs[1..]);
      Prefix(s, i, Spell(x), rest);
      LexReadsLexemes(d, s, i + |Spell(x)|, xs[1..], Advance(x, depth));
      if x.Gap? {
        SpellGap(x);
        SkipGap(d, s, i, x.white, rest, depth);
        GapKeepsDepth(x, depth);
        assert [] + TokensOf(xs[1..], i + |Spell(x)|, depth) == TokensOf(xs[1..], i + |Spell(x)|, depth);
      } else {
        EmitLexeme(d, s, i, x, rest, depth);
      }
    }
  }

  lemma LexEnd(d: Dialect, s: string)
    ensures LexFrom(d, s, |s|, 0, 0) == Ok([])
  {
  }

  lemma GapKeepsDepth(x: Lexeme, depth: nat)
    requires x.Gap?
    ensures !Closes(x) && Advance(x, depth) == depth
  {
  }

  lemma SpellGap(x: Lexeme)
    requires x.Gap?
    ensures Spell(x) == x.white
  {
  }

  lemma EmitLexeme(d: Dialect, s: string, i: nat, x: Lexeme, rest: string, depth: nat)
    requires i <= |s| && s[i..] == Spell(x) + rest && Formed(d, x) && Fits(x, rest) && !x.Gap? && (Closes(x) ==> depth > 0)
    ensures i + |Spell(x)| <= |s|
    ensures LexFrom(d, s, i, depth, 0)
         == Prepend([TokenOf(x, i, Outside(x, depth))], LexFrom(d, s, i + |Spell(x)|, Advance(x, depth), 0))
  {
    hide Scan, Spell, LowerOf, Formed, Fits;
    ScanLexeme(d, s, i, x, rest);
  }

  lemma LexReads(d: Dialect, xs: seq<Lexeme>)
    requires Readable(d, xs) && Balanced(xs, 0)
    ensures Lex(d, SpellAll(xs)) == Ok(TokensOf(xs, 0, 0))
  {
    LexReadsLexemes(d, SpellAll(xs), 0, xs, 0);
  }

  // ------------------------------------------------------------------
  // Putting lists together.

  /** Readable when `rest` follows the list. */
  predicate ReadableBefore(d: Dialect, xs: seq<Lexeme>, rest: string) {
    xs == [] || (Formed(d, xs[0]) && Fits(xs[0], SpellAll(xs[1..]) + rest) && ReadableBefore(d, xs[1..], rest))
  }

  lemma {:induction false} ReadableBeforeNothing(d: Dialect, xs: seq<Lexeme>)
    requires ReadableBefore(d, xs, "")
    ensures Readable(d, xs)
    decreases |xs|
  {
    hide Formed, Fits;
    if xs != [] {
      assert SpellAll(xs[1..]) + "" == SpellAll(xs[1..]);
      ReadableBeforeNothing(d, xs[1..]);
    }
  }

  lemma {:induction false} SpellConcat(xs: seq<Lexeme>, ys: seq<Lexeme>)
    ensures SpellAll(xs + ys) == SpellAll(xs) + SpellAll(ys)
    decreases |xs|
  {
    hide Spell;
    if xs == [] {
      assert xs + ys == ys;
    } else {
      assert (xs + ys)[1..] == xs[1..] + ys && (xs + ys)[0] == xs[0];
      SpellConcat(xs[1..], ys);
    }
  }

  lemma {:induction false} ReadableConcat(d: Dialect, xs: seq<Lexeme>, ys: seq<Lexeme>, rest: string)
    requires ReadableBefore(d, xs, SpellAll(ys) + rest) && ReadableBefore(d, ys, rest)
    ensures ReadableBefore(d, xs + ys, rest)
    decreases |xs|
  {
    hide Formed, Fits, Spell;
    if xs == [] {
      assert xs + ys == ys;
    } else {
      assert (xs + ys)[1..] == xs[1..] + ys && (xs + ys)[0] == xs[0];
      SpellConcat(xs[1..], ys);
      assert SpellAll(xs[1..]) + (SpellAll(ys) + rest) == SpellAll(xs[1..] + ys) + rest;
      ReadableConcat(d, xs[1..], ys, rest);
    }
  }

  lemma Regroup(a: seq<Token>, b: seq<Token>, c: seq<Token>)
    ensures a + (b + c) == a + b + c
  {
  }

  lemma {:induction false} BalancedConcat(xs: seq<Lexeme>, ys: seq<Lexeme>, depth: nat)
    requires Balanced(xs, depth) && Balanced(ys, 0)
    ensures Balanced(xs + ys, depth)
    decreases |xs|
  {
    hide Advance, Closes;
    if xs == [] {
      assert xs + ys == ys;
    } else {
      assert (xs + ys)[1..] == xs[1..] + ys;
      BalancedConcat(xs[1..], ys, Advance(xs[0], depth));
    }
  }

  lemma {:induction false} TokensConcat(xs: seq<Lexeme>, ys: seq<Lexeme>, at: nat, depth: nat)
    requires Balanced(xs, depth) && Balanced(ys, 0)
    ensures Balanced(xs + ys, depth)
    ensures TokensOf(xs + ys, at, depth) == TokensOf(xs, at, depth) + TokensOf(ys, at + |SpellAll(xs)|, 0)
    decreases |xs|
  {
    hide Spell, TokenOf, Advance, Outside, Closes;
    BalancedConcat(xs, ys, depth);
    if xs == [] {
      assert xs + ys == ys;
    } else {
      var next, after := at + |Spell(xs[0])|, Advance(xs[0], depth);
      TokensConcat(xs[1..], ys, next, after);
      assert at + |SpellAll(xs)| == next + |SpellAll(xs[1..])|;
      hide Balanced, SpellAll;
      assert (xs + ys)[1..] == xs[1..] + ys && (xs + ys)[0] == xs[0];
      var head := if xs[0].Gap? then [] else [TokenOf(xs[0], at, Outside(xs[0], depth))];
      Regroup(head, TokensOf(xs[1..], next, after), TokensOf(ys, at + |SpellAll(xs)|, 0));
    }
  }
}
