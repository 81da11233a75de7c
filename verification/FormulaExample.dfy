/** A database the canonical spellings are faithful to, a reader of numbers as it is
    assumed, and two clauses outside those spellings. */
module FormulaExample {
  import opened Prelude
  import opened Bytes
  import opened Lexer
  import opened Folder
  import opened Formula
  import opened FormulaText
  import opened FormulaTruth
  import opened FormulaCanonical
  import R = Render

  datatype Scalar = Integer(n: int) | Str(s: string)

  predicate Precedes(s: string, t: string) {
    t != "" && (s == "" || s[0] < t[0] || (s[0] == t[0] && Precedes(s[1..], t[1..])))
  }

  /** Integers by value before strings by their bytes. */
  predicate Less(x: Scalar, y: Scalar) {
    match (x, y)
    case (Integer(m), Integer(n)) => m < n
    case (Integer(_), Str(_)) => true
    case (Str(_), Integer(_)) => false
    case (Str(s), Str(t)) => Precedes(s, t)
  }

  function Denotes(o: Operand): Scalar {
    if o.Number? && Single(o) && o.parts[0].Word? then Integer(Decimal(o.parts[0].word))
    else if o.Text? && Single(o) && o.parts[0].Literal? then Str(o.parts[0].value)
    else Integer(0)
  }

  const PLAIN: Database<Scalar> := Database((x, y) => x == y, Less, Denotes)

  lemma {:induction false} PrecedesIsStrict(s: string, t: string)
    requires Precedes(s, t)
    ensures s != t && !Precedes(t, s)
    decreases |s|
  {
    if s != "" && s[0] == t[0] {
      PrecedesIsStrict(s[1..], t[1..]);
    }
  }

  /** What the theorems ask of a database can be had. */
  lemma PlainComparesByValue()
    ensures ComparesByValue(PLAIN)
  {
    hide CanonicalDigits, Decimal, Precedes;
    forall x, y | PLAIN.less(x, y) ensures !PLAIN.equal(x, y) && !PLAIN.less(y, x) {
      if x.Str? && y.Str? {
        PrecedesIsStrict(x.s, y.s);
      }
    }
    forall s, t, doubled ensures PLAIN.equal(PLAIN.literal(Chars(s, doubled)), PLAIN.literal(Chars(t, doubled))) <==> s == t {
      assert Denotes(Chars(s, doubled)) == Str(s) && Denotes(Chars(t, doubled)) == Str(t);
    }
  }

  lemma {:induction false} PrefixPrecedes(s: string, c: char)
    ensures Precedes(s, s + [c])
    decreases |s|
  {
    if s != "" {
      PrefixPrecedes(s[1..], c);
      assert (s + [c])[1..] == s[1..] + [c];
    }
  }

  /** The same database has values below and above every value. */
  lemma PlainIsUnbounded()
    ensures Ordered(PLAIN) && Unbounded(PLAIN)
  {
    hide Precedes;
    PlainComparesByValue();
    forall x ensures BelowAndAbove(PLAIN, x) {
      match x
      case Integer(n) =>
        assert PLAIN.less(Integer(n - 1), x) && PLAIN.less(x, Integer(n + 1));
      case Str(s) =>
        PrefixPrecedes(s, 'a');
        assert PLAIN.less(Integer(0), x) && PLAIN.less(x, Str(s + ['a']));
    }
  }

  /** The texts the theorems speak of, read as they ask. */
  const READER: Numbers := s =>
    if CanonicalDigits(s) then Some(Finite(Decimal(s) as real))
    else if s == "inf" then Some(PosInf)
    else if s == "nan" then Some(NaN)
    else if s == "1.5" then Some(Finite(1.5))
    else None

  /** What they ask of the number reader can be had as well. */
  lemma ReaderReadsNumbers()
    ensures GoNumbers(READER)
  {
    hide Decimal;
    assert !Digit("inf"[0]) && !Digit("nan"[0]) && !Digit("1.5"[1]);
    forall s: string | s != "" && Delimiter(s[0]) ensures READER(s).None? {
      assert !Digit(s[0]);
    }
  }

  // ------------------------------------------------------------------
  // A literal of three tokens.

  const ONE_AND_A_HALF := Number([R.Word("1"), R.Mark('.'), R.Word("5")])

  lemma SpelledInThree(a: R.Lexeme, b: R.Lexeme, c: R.Lexeme)
    ensures R.SpellAll([a, b, c]) == R.Spell(a) + R.Spell(b) + R.Spell(c)
  {
    hide R.Spell;
    assert [a, b, c][1..] == [b, c] && [b, c][1..] == [c] && [c][1..] == [];
    assert R.SpellAll([c]) == R.Spell(c) + R.SpellAll([]);
  }

  lemma HalfIsPlain(d: Dialect)
    ensures PlainOperand(d, ONE_AND_A_HALF) && Spelling(ONE_AND_A_HALF) == "1.5"
  {
    hide ToLower;
    var parts := ONE_AND_A_HALF.parts;
    assert parts[1..] == [R.Mark('.'), R.Word("5")] && parts[1..][1..] == [R.Word("5")] && parts[1..][1..][1..] == [];
    SpelledInThree(parts[0], parts[1], parts[2]);
    assert R.SpellAll([R.Word("5")]) == "5" by { SpelledWord("5"); }
    assert R.SpellAll(parts[1..]) == "." + R.SpellAll([R.Word("5")]);
    DigitIsNoConnective("1");
    DigitIsNoConnective("5");
  }

  lemma DigitIsNoConnective(word: string)
    requires |word| == 1
    ensures !Connective(word)
  {
  }

  /** The clause `1.5 = 1.5` holds on every row, and the folder does not know it: it has seven tokens. */
  lemma SplitLiteralIsUndecided(number: Numbers, d: Dialect, row: Row<Scalar>)
    requires GoNumbers(number)
    ensures var f := Compare(Eq, ONE_AND_A_HALF, ONE_AND_A_HALF);
            && Written(f) == "1.5 = 1.5" && WellFormed(d, f) && Ground(number, f) && Canonical(number, d, f)
            && Holds(PLAIN, row, f)
            && Lex(d, "1.5 = 1.5").Ok? && |Lex(d, "1.5 = 1.5").value| == 7 && Fold(number, Lex(d, "1.5 = 1.5").value) == Unknown
  {
    hide PlainOperand, Spelling, Fold, Lex, R.SpellAll;
    var f := Compare(Eq, ONE_AND_A_HALF, ONE_AND_A_HALF);
    HalfIsPlain(d);
    CompareIsWritten(Eq, ONE_AND_A_HALF, ONE_AND_A_HALF);
    assert R.SpellAll(OpMarks(Eq)) == "=" by { SpelledMark('='); }
    FolderReadsText(number, d, f);
    FormulaLexes(d, f);
  }

  lemma SpelledMark(c: char)
    ensures R.SpellAll([R.Mark(c)]) == [c]
  {
    SingleSpelling(Number([R.Mark(c)]));
  }

  lemma CompareIsWritten(op: Comparison, a: Operand, b: Operand)
    ensures Written(Compare(op, a, b)) == Spelling(a) + " " + R.SpellAll(OpMarks(op)) + " " + Spelling(b)
  {
    hide R.SpellAll, OpMarks;
    var ys := OpMarks(op) + ([SPACE] + b.parts);
    R.SpellConcat(a.parts, [SPACE] + ys);
    SpellFrom(SPACE, ys, "");
    R.SpellConcat(OpMarks(op), [SPACE] + b.parts);
    SpellFrom(SPACE, b.parts, "");
    assert R.SpellAll([SPACE] + ys) == R.SpellAll([SPACE] + ys) + "" == " " + R.SpellAll(ys);
    assert R.SpellAll([SPACE] + b.parts) == R.SpellAll([SPACE] + b.parts) + "" == " " + R.SpellAll(b.parts);
  }

  // ------------------------------------------------------------------
  // A column called inf.

  const INF := Column([R.Word("inf")])

  lemma WordIsOperand(d: Dialect, word: string)
    requires R.Formed(d, R.Word(word)) && !Connective(word)
    ensures PlainOperand(d, Column([R.Word(word)])) && PlainOperand(d, Digits(word))
    ensures Spelling(Column([R.Word(word)])) == word && Spelling(Digits(word)) == word
  {
    hide ToLower;
    var lexeme := R.Word(word);
    EmptyReads(d, " ");
    ReadsAfter(d, lexeme, [], " ");
    assert [lexeme] + [] == [lexeme];
    SpelledWord(word);
  }

  lemma InfIsNoConnective()
    ensures !Connective("inf") && ToLower("inf") == "inf" && !EqualFold("inf", "5")
  {
    assert ToLower("inf") == ['i', 'n', 'f'];
  }

  lemma InfIsCompared(number: Numbers, d: Dialect, op: Comparison)
    ensures var f := Compare(op, INF, Digits("5"));
            && Written(f) == "inf " + R.SpellAll(OpMarks(op)) + " 5"
            && Lex(d, Written(f)).Ok? && Fold(number, Lex(d, Written(f)).value) == CompareVerdict(number, op, "inf", "5")
  {
    hide PlainOperand, Spelling, Fold, Lex, R.SpellAll, CompareVerdict, OpMarks, Written, ToLower;
    InfIsNoConnective();
    DigitIsNoConnective("5");
    WordIsOperand(d, "inf");
    WordIsOperand(d, "5");
    CompareIsWritten(op, INF, Digits("5"));
    assert "inf" + " " + R.SpellAll(OpMarks(op)) + " " + "5" == "inf " + R.SpellAll(OpMarks(op)) + " 5";
    FolderReadsText(number, d, Compare(op, INF, Digits("5")));
  }

  /** The clause `inf > 5` is folded to true and `inf = 5` to false, as of two numbers, though rows decide both. */
  lemma NumberLikeColumnIsMisjudged(number: Numbers, d: Dialect)
    requires GoNumbers(number)
    ensures Written(Compare(Gt, INF, Digits("5"))) == "inf > 5" && Written(Compare(Eq, INF, Digits("5"))) == "inf = 5"
    ensures Lex(d, "inf > 5").Ok? && Fold(number, Lex(d, "inf > 5").value) == Known(true)
    ensures Lex(d, "inf = 5").Ok? && Fold(number, Lex(d, "inf = 5").value) == Known(false)
    ensures exists row :: !Holds(PLAIN, row, Compare(Gt, INF, Digits("5")))
    ensures exists row :: Holds(PLAIN, row, Compare(Eq, INF, Digits("5")))
  {
    hide Fold, Lex, R.SpellAll, Written, ToLower, Decimal;
    InfIsNoConnective();
    SpelledMark('>');
    SpelledMark('=');
    InfIsCompared(number, d, Gt);
    InfIsCompared(number, d, Eq);
    assert CanonicalDigits("5");
    var five: Row<Scalar> := k => Denotes(Digits("5"));
    assert !Holds(PLAIN, five, Compare(Gt, INF, Digits("5"))) && Holds(PLAIN, five, Compare(Eq, INF, Digits("5")));
  }
}
