/** The text of a formula, and the proof that the lexer reads it back: folding
    the tokens of the text evaluates the formula in three values. */
module FormulaText {
  import opened Lexer
  import opened Folder
  import opened Formula
  import R = Render

  const SPACE := R.Gap(" ")

  function Phrase(f: Formula): seq<R.Lexeme> {
    match f
    case Truth(v) => [R.Word(if v then "true" else "false")]
    case Compare(op, a, b) => a.parts + ([SPACE] + (OpMarks(op) + ([SPACE] + b.parts)))
    case Not(g) => [R.Word("not")] + ([SPACE] + Phrase(g))
    case And(g, h) => Phrase(g) + ([SPACE] + ([R.Word("and")] + ([SPACE] + Phrase(h))))
    case Or(g, h) => Phrase(g) + ([SPACE] + ([R.Word("or")] + ([SPACE] + Phrase(h))))
    case Paren(g) => [R.Mark('(')] + (Phrase(g) + [R.Mark(')')])
  }

  function Written(f: Formula): string {
    R.SpellAll(Phrase(f))
  }

  // ------------------------------------------------------------------
  // The phrase can be lexed.

  /** What may stand after a formula or an operand. */
  predicate Ends(rest: string) {
    rest == "" || rest[0] == ' ' || rest[0] == ')'
  }

  lemma FitsBeforeEnd(d: Dialect, x: R.Lexeme, more: string, rest: string)
    requires R.Formed(d, x) && R.Fits(x, more + " ") && Ends(rest)
    ensures R.Fits(x, more + rest)
  {
    assert (more + " ")[0] == if more == "" then ' ' else more[0];
    if more + rest != "" {
      assert (more + rest)[0] == if more == "" then rest[0] else more[0];
    }
  }

  lemma {:induction false} ReadsBeforeEnd(d: Dialect, xs: seq<R.Lexeme>, rest: string)
    requires R.ReadableBefore(d, xs, " ") && Ends(rest)
    ensures R.ReadableBefore(d, xs, rest)
    decreases |xs|
  {
    hide R.Formed, R.Fits, R.Spell;
    if xs != [] {
      FitsBeforeEnd(d, xs[0], R.SpellAll(xs[1..]), rest);
      ReadsBeforeEnd(d, xs[1..], rest);
    }
  }

  lemma ReadsAfter(d: Dialect, x: R.Lexeme, xs: seq<R.Lexeme>, rest: string)
    requires R.Formed(d, x) && R.Fits(x, R.SpellAll(xs) + rest) && R.ReadableBefore(d, xs, rest)
    ensures R.ReadableBefore(d, [x] + xs, rest)
  {
    hide R.Formed, R.Fits, R.Spell;
    assert ([x] + xs)[1..] == xs;
  }

  lemma SpaceFirst(d: Dialect, xs: seq<R.Lexeme>, rest: string)
    requires R.ReadableBefore(d, xs, rest)
    ensures R.ReadableBefore(d, [SPACE] + xs, rest)
    ensures R.SpellAll([SPACE] + xs) + rest == " " + (R.SpellAll(xs) + rest)
  {
    hide R.ReadableBefore;
    assert ([SPACE] + xs)[1..] == xs;
    ReadsAfter(d, SPACE, xs, rest);
  }

  /** A word, a space and what follows. */
  lemma WordFirst(d: Dialect, word: string, xs: seq<R.Lexeme>, rest: string)
    requires word in ["true", "false", "not", "and", "or"] && R.ReadableBefore(d, xs, rest)
    requires Ends(R.SpellAll(xs) + rest)
    ensures R.ReadableBefore(d, [R.Word(word)] + xs, rest)
  {
    hide R.ReadableBefore, R.SpellAll;
    assert forall k :: 0 <= k < |word| ==> R.WordByte(word[k]);
    ReadsAfter(d, R.Word(word), xs, rest);
  }

  lemma OpReads(d: Dialect, op: Comparison, xs: seq<R.Lexeme>, rest: string)
    requires R.ReadableBefore(d, [SPACE] + xs, rest) && R.SpellAll([SPACE] + xs) + rest == " " + (R.SpellAll(xs) + rest)
    ensures R.ReadableBefore(d, OpMarks(op) + ([SPACE] + xs), rest)
  {
    hide R.ReadableBefore, R.SpellAll;
    var ys := [SPACE] + xs;
    var last := OpMarks(op)[|OpMarks(op)| - 1];
    ReadsAfter(d, last, ys, rest);
    if |OpMarks(op)| == 2 {
      SpellFrom(last, ys, rest);
      ReadsAfter(d, OpMarks(op)[0], [last] + ys, rest);
      assert OpMarks(op) + ys == [OpMarks(op)[0]] + ([last] + ys);
    } else {
      assert OpMarks(op) == [last];
    }
  }

  lemma SpellFrom(x: R.Lexeme, xs: seq<R.Lexeme>, rest: string)
    ensures R.SpellAll([x] + xs) + rest == R.Spell(x) + (R.SpellAll(xs) + rest)
  {
    hide R.Spell;
    assert ([x] + xs)[1..] == xs;
  }

  lemma CompareReads(d: Dialect, op: Comparison, a: Operand, b: Operand, rest: string)
    requires PlainOperand(d, a) && PlainOperand(d, b) && Ends(rest)
    ensures R.ReadableBefore(d, Phrase(Compare(op, a, b)), rest)
  {
    hide R.ReadableBefore, R.SpellAll, OpMarks;
    ReadsBeforeEnd(d, b.parts, rest);
    SpaceFirst(d, b.parts, rest);
    OpReads(d, op, b.parts, rest);
    var ys := OpMarks(op) + ([SPACE] + b.parts);
    SpaceFirst(d, ys, rest);
    ReadsBeforeEnd(d, a.parts, R.SpellAll([SPACE] + ys) + rest);
    R.ReadableConcat(d, a.parts, [SPACE] + ys, rest);
  }

  lemma {:induction false} PhraseReads(d: Dialect, f: Formula, rest: string)
    requires WellFormed(d, f) && Ends(rest)
    ensures R.ReadableBefore(d, Phrase(f), rest)
    decreases f, 0
  {
    hide R.ReadableBefore, R.SpellAll, PlainOperand;
    match f
    case Truth(v) =>
      var word := if v then "true" else "false";
      EmptyReads(d, rest);
      WordFirst(d, word, [], rest);
      assert [R.Word(word)] + [] == [R.Word(word)];
    case Compare(op, a, b) => CompareReads(d, op, a, b, rest);
    case Not(g) =>
      PhraseReads(d, g, rest);
      SpaceFirst(d, Phrase(g), rest);
      WordFirst(d, "not", [SPACE] + Phrase(g), rest);
    case And(g, h) => PhraseReads(d, h, rest); JoinReads(d, g, "and", h, rest);
    case Or(g, h) => PhraseReads(d, h, rest); JoinReads(d, g, "or", h, rest);
    case Paren(g) =>
      var close := [R.Mark(')')];
      EmptyReads(d, rest);
      ReadsAfter(d, close[0], [], rest);
      SpellFrom(close[0], [], rest);
      assert [close[0]] + [] == close;
      PhraseReads(d, g, R.SpellAll(close) + rest);
      R.ReadableConcat(d, Phrase(g), close, rest);
      ReadsAfter(d, R.Mark('('), Phrase(g) + close, rest);
  }

  lemma EmptyReads(d: Dialect, rest: string)
    ensures R.ReadableBefore(d, [], rest) && R.SpellAll([]) + rest == rest
  {
  }

  lemma JoinReads(d: Dialect, g: Formula, word: string, h: Formula, rest: string)
    requires WellFormed(d, g) && (word == "and" || word == "or") && Ends(rest)
    requires R.ReadableBefore(d, Phrase(h), rest)
    ensures R.ReadableBefore(d, Phrase(g) + ([SPACE] + ([R.Word(word)] + ([SPACE] + Phrase(h)))), rest)
    decreases g, 1
  {
    hide R.ReadableBefore, R.SpellAll, Phrase, WellFormed;
    SpaceFirst(d, Phrase(h), rest);
    var ys := [R.Word(word)] + ([SPACE] + Phrase(h));
    WordFirst(d, word, [SPACE] + Phrase(h), rest);
    SpaceFirst(d, ys, rest);
    PhraseReads(d, g, R.SpellAll([SPACE] + ys) + rest);
    R.ReadableConcat(d, Phrase(g), [SPACE] + ys, rest);
  }

  // ------------------------------------------------------------------
  // Its tokens are the printed ones, up to positions.

  function Unplaced(t: Token): Token {
    t.(start := 0, end := 0)
  }

  function Unplace(ts: seq<Token>): (us: seq<Token>)
    ensures |us| == |ts|
    ensures forall i :: 0 <= i < |ts| ==> us[i] == Unplaced(ts[i])
  {
    seq(|ts|, i requires 0 <= i < |ts| => Unplaced(ts[i]))
  }

  function Shape(xs: seq<R.Lexeme>, depth: nat): seq<Token>
    requires R.Balanced(xs, depth)
  {
    if xs == [] then []
    else (if xs[0].Gap? then [] else [Sign(xs[0], R.Outside(xs[0], depth))]) + Shape(xs[1..], R.Advance(xs[0], depth))
  }

  lemma {:induction false} ShapeIsUnplaced(xs: seq<R.Lexeme>, at: nat, depth: nat)
    requires R.Balanced(xs, depth)
    ensures Unplace(R.TokensOf(xs, at, depth)) == Shape(xs, depth)
    decreases |xs|
  {
    hide R.Spell, R.TokenOf, Sign, Unplaced, R.Closes, R.Advance, R.Outside;
    if xs != [] {
      var here := if xs[0].Gap? then [] else [R.TokenOf(xs[0], at, R.Outside(xs[0], depth))];
      var rest := R.TokensOf(xs[1..], at + |R.Spell(xs[0])|, R.Advance(xs[0], depth));
      assert R.TokensOf(xs, at, depth) == here + rest;
      assert Unplace(here + rest) == Unplace(here) + Unplace(rest);
      if !xs[0].Gap? {
        TokenUnplaced(xs[0], at, R.Outside(xs[0], depth));
        assert Unplace(here) == [Sign(xs[0], R.Outside(xs[0], depth))];
      }
      ShapeIsUnplaced(xs[1..], at + |R.Spell(xs[0])|, R.Advance(xs[0], depth));
    }
  }

  lemma TokenUnplaced(x: R.Lexeme, at: nat, depth: nat)
    ensures Unplaced(R.TokenOf(x, at, depth)) == Sign(x, depth)
  {
  }

  lemma ShapeFrom(x: R.Lexeme, ys: seq<R.Lexeme>, depth: nat)
    requires (R.Closes(x) ==> depth > 0) && R.Balanced(ys, R.Advance(x, depth))
    ensures R.Balanced([x] + ys, depth)
    ensures Shape([x] + ys, depth) == (if x.Gap? then [] else [Sign(x, R.Outside(x, depth))]) + Shape(ys, R.Advance(x, depth))
  {
    hide Sign, R.Closes, R.Advance, R.Outside;
    assert ([x] + ys)[1..] == ys;
  }

  predicate Flat(x: R.Lexeme) {
    !x.Gap? && !R.Opens(x) && !R.Closes(x)
  }

  lemma {:induction false} ShapeFlat(xs: seq<R.Lexeme>, ys: seq<R.Lexeme>, depth: nat)
    requires R.Balanced(ys, depth) && forall i :: 0 <= i < |xs| ==> Flat(xs[i])
    ensures R.Balanced(xs + ys, depth) && Shape(xs + ys, depth) == Signs(xs, depth) + Shape(ys, depth)
    decreases |xs|
  {
    hide Sign, Shape, R.Balanced;
    if xs == [] {
      assert xs + ys == ys;
    } else {
      assert Flat(xs[0]);
      ShapeFlat(xs[1..], ys, depth);
      ShapeFrom(xs[0], xs[1..] + ys, depth);
      assert [xs[0]] + (xs[1..] + ys) == xs + ys;
      assert [Sign(xs[0], depth)] + Signs(xs[1..], depth) == Signs(xs, depth);
    }
  }

  lemma ShapeSpace(ys: seq<R.Lexeme>, depth: nat)
    requires R.Balanced(ys, depth)
    ensures R.Balanced([SPACE] + ys, depth) && Shape([SPACE] + ys, depth) == Shape(ys, depth)
  {
    ShapeFrom(SPACE, ys, depth);
  }

  lemma ShapeWord(word: string, ys: seq<R.Lexeme>, depth: nat)
    requires R.Balanced(ys, depth)
    ensures R.Balanced([R.Word(word)] + ys, depth) && Shape([R.Word(word)] + ys, depth) == [WordToken(word, depth)] + Shape(ys, depth)
  {
    ShapeFrom(R.Word(word), ys, depth);
  }

  lemma OperandIsFlat(d: Dialect, o: Operand)
    requires PlainOperand(d, o)
    ensures forall i :: 0 <= i < |o.parts| ==> Flat(o.parts[i])
  {
    hide R.ReadableBefore;
  }

  lemma ShapeCompare(d: Dialect, op: Comparison, a: Operand, b: Operand, ys: seq<R.Lexeme>, depth: nat)
    requires PlainOperand(d, a) && PlainOperand(d, b) && R.Balanced(ys, depth)
    ensures var f := Compare(op, a, b);
            R.Balanced(Phrase(f) + ys, depth) && Shape(Phrase(f) + ys, depth) == Print(d, f, depth) + Shape(ys, depth)
  {
    hide Shape, R.Balanced, PlainOperand, Sign;
    OperandIsFlat(d, a);
    OperandIsFlat(d, b);
    var one := b.parts + ys;
    ShapeFlat(b.parts, ys, depth);
    ShapeSpace(one, depth);
    var two := OpMarks(op) + ([SPACE] + one);
    ShapeFlat(OpMarks(op), [SPACE] + one, depth);
    ShapeSpace(two, depth);
    ShapeFlat(a.parts, [SPACE] + two, depth);
    assert a.parts + ([SPACE] + two) == Phrase(Compare(op, a, b)) + ys;
  }

  lemma {:induction false} ShapePhrase(d: Dialect, f: Formula, ys: seq<R.Lexeme>, depth: nat)
    requires WellFormed(d, f) && R.Balanced(ys, depth)
    ensures R.Balanced(Phrase(f) + ys, depth) && Shape(Phrase(f) + ys, depth) == Print(d, f, depth) + Shape(ys, depth)
    decreases f, 0
  {
    hide Shape, R.Balanced, PlainOperand, WordToken, Sign, Signs, OpMarks, Phrase, Print;
    WrittenCases(d, f, depth);
    match f
    case Truth(v) => ShapeWord(if v then "true" else "false", ys, depth);
    case Compare(op, a, b) => ShapeCompare(d, op, a, b, ys, depth);
    case Not(g) => ShapePhrase(d, g, ys, depth); ShapeNot(d, g, ys, depth);
    case And(g, h) => ShapePhrase(d, h, ys, depth); ShapeJoin(d, g, "and", h, ys, depth);
    case Or(g, h) => ShapePhrase(d, h, ys, depth); ShapeJoin(d, g, "or", h, ys, depth);
    case Paren(g) => ShapeParen(d, g, ys, depth);
  }

  /** One level of a phrase and of its tokens. */
  lemma WrittenCases(d: Dialect, f: Formula, depth: nat)
    requires WellFormed(d, f)
    ensures f.Truth? ==> var word := if f.value then "true" else "false"; Phrase(f) == [R.Word(word)] && Print(d, f, depth) == [WordToken(word, depth)]
    ensures f.Not? ==> Phrase(f) == [R.Word("not")] + ([SPACE] + Phrase(f.f)) && Print(d, f, depth) == [WordToken("not", depth)] + Print(d, f.f, depth)
    ensures f.Paren? ==>
              && Phrase(f) == [R.Mark('(')] + (Phrase(f.f) + [R.Mark(')')])
              && Print(d, f, depth) == [Sign(R.Mark('('), depth)] + Print(d, f.f, depth + 1) + [Sign(R.Mark(')'), depth)]
    ensures f.And? ==> Phrase(f) == JoinPhrase(f.l, "and", f.r) && Print(d, f, depth) == Print(d, f.l, depth) + [WordToken("and", depth)] + Print(d, f.r, depth)
    ensures f.Or? ==> Phrase(f) == JoinPhrase(f.l, "or", f.r) && Print(d, f, depth) == Print(d, f.l, depth) + [WordToken("or", depth)] + Print(d, f.r, depth)
  {
    hide PlainOperand, WordToken, Sign;
  }

  lemma ShapeNot(d: Dialect, g: Formula, ys: seq<R.Lexeme>, depth: nat)
    requires WellFormed(d, g) && R.Balanced(ys, depth)
    requires R.Balanced(Phrase(g) + ys, depth) && Shape(Phrase(g) + ys, depth) == Print(d, g, depth) + Shape(ys, depth)
    ensures var phrase := [R.Word("not")] + ([SPACE] + Phrase(g));
            R.Balanced(phrase + ys, depth) && Shape(phrase + ys, depth) == [WordToken("not", depth)] + Print(d, g, depth) + Shape(ys, depth)
  {
    hide Shape, R.Balanced, WordToken, Phrase, Print, WellFormed;
    ShapeSpace(Phrase(g) + ys, depth);
    ShapeWord("not", [SPACE] + (Phrase(g) + ys), depth);
    assert [R.Word("not")] + ([SPACE] + (Phrase(g) + ys)) == [R.Word("not")] + ([SPACE] + Phrase(g)) + ys;
  }

  function JoinPhrase(g: Formula, word: string, h: Formula): seq<R.Lexeme> {
    Phrase(g) + ([SPACE] + ([R.Word(word)] + ([SPACE] + Phrase(h))))
  }

  lemma ShapeJoin(d: Dialect, g: Formula, word: string, h: Formula, ys: seq<R.Lexeme>, depth: nat)
    requires WellFormed(d, g) && WellFormed(d, h) && R.Balanced(Phrase(h) + ys, depth) && R.Balanced(ys, depth)
    requires Shape(Phrase(h) + ys, depth) == Print(d, h, depth) + Shape(ys, depth)
    ensures R.Balanced(JoinPhrase(g, word, h) + ys, depth)
    ensures Shape(JoinPhrase(g, word, h) + ys, depth)
         == Print(d, g, depth) + [WordToken(word, depth)] + Print(d, h, depth) + Shape(ys, depth)
    decreases g, 1
  {
    hide Shape, R.Balanced, Sign, Phrase, Print, WellFormed;
    var one := Phrase(h) + ys;
    ShapeSpace(one, depth);
    var two := [R.Word(word)] + ([SPACE] + one);
    ShapeWord(word, [SPACE] + one, depth);
    ShapeSpace(two, depth);
    ShapePhrase(d, g, [SPACE] + two, depth);
    assert Phrase(g) + ([SPACE] + two) == JoinPhrase(g, word, h) + ys;
  }

  lemma ShapeParen(d: Dialect, g: Formula, ys: seq<R.Lexeme>, depth: nat)
    requires WellFormed(d, g) && R.Balanced(ys, depth)
    ensures var phrase := [R.Mark('(')] + (Phrase(g) + [R.Mark(')')]);
            && R.Balanced(phrase + ys, depth)
            && Shape(phrase + ys, depth) == [Sign(R.Mark('('), depth)] + Print(d, g, depth + 1) + [Sign(R.Mark(')'), depth)] + Shape(ys, depth)
    decreases g, 1
  {
    hide Shape, R.Balanced, Sign, Phrase, Print, WellFormed;
    var close := R.Mark(')');
    ShapeFrom(close, ys, depth + 1);
    ShapePhrase(d, g, [close] + ys, depth + 1);
    ShapeFrom(R.Mark('('), Phrase(g) + ([close] + ys), depth);
    assert [R.Mark('(')] + (Phrase(g) + ([close] + ys)) == [R.Mark('(')] + (Phrase(g) + [close]) + ys;
  }

  /** Main result: the text of a formula lexes, and to its printed tokens. */
  lemma FormulaLexes(d: Dialect, f: Formula)
    requires WellFormed(d, f)
    ensures Lex(d, Written(f)).Ok? && Unplace(Lex(d, Written(f)).value) == Print(d, f, 0)
  {
    hide R.Readable, R.Balanced, R.TokensOf, Print, WellFormed, Lex, Shape, R.SpellAll, Phrase;
    PhraseReads(d, f, "");
    R.ReadableBeforeNothing(d, Phrase(f));
    NothingIsBalanced();
    ShapePhrase(d, f, [], 0);
    assert Phrase(f) + [] == Phrase(f);
    R.LexReads(d, Phrase(f));
    ShapeIsUnplaced(Phrase(f), 0, 0);
  }

  lemma NothingIsBalanced()
    ensures R.Balanced([], 0) && Shape([], 0) == []
  {
  }

  // ------------------------------------------------------------------
  // The folder does not look at positions.

  lemma {:induction false} NextOpUnplaced(ts: seq<Token>, depth: nat, op: string, i: nat)
    requires i <= |ts|
    ensures NextOp(Unplace(ts), depth, op, i) == NextOp(ts, depth, op, i)
    decreases |ts| - i
  {
    if i < |ts| {
      NextOpUnplaced(ts, depth, op, i + 1);
    }
  }

  lemma WrapsUnplaced(ts: seq<Token>)
    ensures WrapsAll(Unplace(ts)) <==> WrapsAll(ts)
  {
    var us := Unplace(ts);
    assert forall k :: 0 <= k < |ts| ==> us[k].depth == ts[k].depth && us[k].text == ts[k].text;
  }

  lemma {:induction false} StripUnplaced(ts: seq<Token>)
    ensures Strip(Unplace(ts)) == Unplace(Strip(ts))
    decreases |ts|
  {
    hide WrapsAll;
    WrapsUnplaced(ts);
    if WrapsAll(ts) {
      WrapIsTwo(ts);
      StripUnplaced(ts[1..|ts| - 1]);
      assert Unplace(ts)[1..|ts| - 1] == Unplace(ts[1..|ts| - 1]);
    }
  }

  lemma {:induction false} FoldUnplaced(number: Numbers, tokens: seq<Token>)
    ensures Fold(number, Unplace(tokens)) == Fold(number, tokens)
    decreases |tokens|, 2, 0
  {
    hide FoldOperands, Strip, CompareThree, CompareFour;
    StripUnplaced(tokens);
    var ts := Strip(tokens);
    if ts != [] {
      NextOpUnplaced(ts, ts[0].depth, "or", 0);
      NextOpUnplaced(ts, ts[0].depth, "and", 0);
      if HasOp(ts, ts[0].depth, "or") {
        OperandsUnplaced(number, ts, ts[0].depth, "or", 0);
      } else if HasOp(ts, ts[0].depth, "and") {
        OperandsUnplaced(number, ts, ts[0].depth, "and", 0);
      } else if |ts| >= 2 {
        FoldUnplaced(number, ts[1..]);
        assert Unplace(ts)[1..] == Unplace(ts[1..]);
      }
    }
  }

  lemma {:induction false} OperandsUnplaced(number: Numbers, ts: seq<Token>, depth: nat, op: string, start: nat)
    requires start <= |ts| && HasOp(ts, depth, op)
    ensures HasOp(Unplace(ts), depth, op)
    ensures FoldOperands(number, Unplace(ts), depth, op, start) == FoldOperands(number, ts, depth, op, start)
    decreases |ts|, 1, |ts| - start
  {
    hide Fold, FoldOperands;
    NextOpUnplaced(ts, depth, op, 0);
    NextOpUnplaced(ts, depth, op, start);
    OperandStep(number, ts, depth, op, start);
    OperandStep(number, Unplace(ts), depth, op, start);
    OperandIsShorter(ts, depth, op, start);
    var e := NextOp(ts, depth, op, start);
    assert Unplace(ts)[start..e] == Unplace(ts[start..e]);
    FoldUnplaced(number, ts[start..e]);
    if e == |ts| {
      assert ts[start..] == ts[start..e] && Unplace(ts)[start..] == Unplace(ts)[start..e];
    } else {
      OperandsUnplaced(number, ts, depth, op, e + 1);
    }
  }

  /** Main result: what the folder makes of the lexed text of a formula is its three-valued evaluation. */
  lemma FolderReadsText(number: Numbers, d: Dialect, f: Formula)
    requires WellFormed(d, f)
    ensures Lex(d, Written(f)).Ok? && Fold(number, Lex(d, Written(f)).value) == Evaluate3(number, f)
  {
    hide *;
    FormulaLexes(d, f);
    FoldUnplaced(number, Lex(d, Written(f)).value);
    FolderReadsFormula(number, d, f, 0);
  }
}
