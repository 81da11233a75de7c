/** Which spellings make the constant folder sound: decimal integers without
    leading zeros, strings and delimited names of one case, and columns that do
    not read as numbers. For text that keeps to them, what the folder knows of
    a WHERE clause is true of every row, and clauses without columns are decided. */
module FormulaCanonical {
  import opened Prelude
  import opened Bytes
  import opened Lexer
  import opened Folder
  import opened Formula
  import opened FormulaText
  import opened FormulaTruth
  import R = Render

  // ------------------------------------------------------------------
  // What is assumed of the number reader and of the database.

  /** The longest run of digits every value of which a float64 holds. */
  const MAX_DIGITS := 15

  predicate CanonicalDigits(s: string) {
    && 0 < |s| <= MAX_DIGITS && (|s| > 1 ==> s[0] != '0')
    && forall i :: 0 <= i < |s| ==> Digit(s[i])
  }

  function Decimal(s: string): int {
    if s == "" then 0 else 10 * Decimal(s[..|s| - 1]) + (s[|s| - 1] as int - '0' as int)
  }

  predicate Delimiter(c: char) {
    c == '\'' || c == '"' || c == '`' || c == '['
  }

  /** What strconv.ParseFloat promises of the texts that matter here. */
  ghost predicate GoNumbers(number: Numbers) {
    && (forall s :: CanonicalDigits(s) ==> number(s) == Some(Finite(Decimal(s) as real)))
    && (forall s :: s != "" && Delimiter(s[0]) ==> number(s).None?)
    && number("inf") == Some(PosInf) && number("nan") == Some(NaN)
    && number("1.5") == Some(Finite(1.5))
  }

  function Digits(s: string): Operand {
    Number([R.Word(s)])
  }

  function Chars(value: string, doubled: bool): Operand {
    Text([R.Literal(value, doubled)])
  }

  /** Integers are compared by value and strings byte by byte. */
  ghost predicate ComparesByValue<V(!new)>(db: Database<V>) {
    && Ordered(db)
    && (forall s, t :: CanonicalDigits(s) && CanonicalDigits(t) ==> ComparesIntegers(db, s, t))
    && (forall s, t, doubled :: db.equal(db.literal(Chars(s, doubled)), db.literal(Chars(t, doubled))) <==> s == t)
  }

  predicate ComparesIntegers<V>(db: Database<V>, s: string, t: string) {
    && (db.equal(db.literal(Digits(s)), db.literal(Digits(t))) <==> Decimal(s) == Decimal(t))
    && (db.less(db.literal(Digits(s)), db.literal(Digits(t))) <==> Decimal(s) < Decimal(t))
  }

  // ------------------------------------------------------------------
  // Canonical spelling.

  predicate LowerCase(s: string) {
    ToLower(s) == s
  }

  predicate CanonicalOperand(number: Numbers, d: Dialect, o: Operand)
    requires Single(o)
  {
    match o
    case Column(parts) => number(Spelling(o)).None? && (parts[0].Quoted? ==> LowerCase(parts[0].name))
    case Number(parts) => parts[0].Word? && CanonicalDigits(parts[0].word)
    case Text(parts) => parts[0].Literal? && parts[0].doubled == BackslashEscapes(d) && LowerCase(parts[0].value)
  }

  predicate CanonicalComparison(number: Numbers, d: Dialect, a: Operand, b: Operand) {
    Single(a) && Single(b) ==>
      && CanonicalOperand(number, d, a) && CanonicalOperand(number, d, b)
      && !(a.Number? && b.Text?) && !(a.Text? && b.Number?)
  }

  /** Every comparison of two operands of one token each is spelled canonically. */
  predicate Canonical(number: Numbers, d: Dialect, f: Formula) {
    match f
    case Truth(_) => true
    case Compare(_, a, b) => CanonicalComparison(number, d, a, b)
    case Not(g) => Canonical(number, d, g)
    case And(g, h) => Canonical(number, d, g) && Canonical(number, d, h)
    case Or(g, h) => Canonical(number, d, g) && Canonical(number, d, h)
    case Paren(g) => Canonical(number, d, g)
  }

  // ------------------------------------------------------------------
  // Equal spellings mean equal values.

  lemma {:induction false} DecimalIsPositive(s: string)
    requires CanonicalDigits(s) && s != "0"
    ensures Decimal(s) > 0
    decreases |s|
  {
    var front := s[..|s| - 1];
    if |s| == 1 {
      assert Digit(s[0]) && s == [s[0]] && Decimal(front) == 0;
    } else {
      assert front[0] == s[0] && front != "0" by { assert |front| == 1 ==> front == [s[0]]; }
      DecimalIsPositive(front);
      assert Digit(s[|s| - 1]);
    }
  }

  lemma {:induction false} DecimalIsInjective(s: string, t: string)
    requires CanonicalDigits(s) && CanonicalDigits(t) && Decimal(s) == Decimal(t)
    ensures s == t
    decreases |s|
  {
    var a, b := s[..|s| - 1], t[..|t| - 1];
    assert Digit(s[|s| - 1]) && Digit(t[|t| - 1]);
    assert Decimal(a) == Decimal(b) && s[|s| - 1] == t[|t| - 1];
    assert s == a + [s[|s| - 1]] && t == b + [t[|t| - 1]];
    if a != "" {
      FrontIsCanonical(s);
      DecimalIsPositive(a);
    }
    if b != "" {
      FrontIsCanonical(t);
      DecimalIsPositive(b);
    }
    if a != "" && b != "" {
      DecimalIsInjective(a, b);
    }
  }

  lemma FrontIsCanonical(s: string)
    requires CanonicalDigits(s) && |s| > 1
    ensures CanonicalDigits(s[..|s| - 1]) && s[..|s| - 1] != "0"
  {
    assert s[..|s| - 1][0] == s[0];
  }

  lemma {:induction false} DigitsAreLower(s: string)
    requires forall i :: 0 <= i < |s| ==> Digit(s[i])
    ensures LowerCase(s)
  {
    assert forall i :: 0 <= i < |s| ==> LowerByte(s[i]) == s[i];
  }

  lemma LowerConcat(s: string, t: string)
    ensures ToLower(s + t) == ToLower(s) + ToLower(t)
  {
  }

  lemma LowerTail(s: string)
    requires LowerCase(s) && s != ""
    ensures LowerByte(s[0]) == s[0] && LowerCase(s[1..])
  {
    assert ToLower(s)[0] == s[0];
    forall i | 0 <= i < |s[1..]| ensures LowerByte(s[1..][i]) == s[1..][i] {
      assert ToLower(s)[i + 1] == s[i + 1];
    }
  }

  lemma {:induction false} LiteralBodyIsLower(value: string, doubled: bool)
    requires LowerCase(value)
    ensures LowerCase(R.LiteralBody(value, doubled))
    decreases |value|
  {
    hide ToLower;
    if value == "" {
      EmptyIsLower();
    } else {
      LowerTail(value);
      LiteralBodyIsLower(value[1..], doubled);
      var c := value[0];
      var first := if c == '\'' || (c == '\\' && doubled) then [c, c] else [c];
      OneByteIsLower(c);
      LowerConcat(first, R.LiteralBody(value[1..], doubled));
    }
  }

  lemma EmptyIsLower()
    ensures LowerCase("")
  {
  }

  lemma OneByteIsLower(c: char)
    requires LowerByte(c) == c
    ensures ToLower([c]) == [c] && ToLower([c, c]) == [c, c]
  {
  }

  lemma {:induction false} DoubleIsLower(name: string, close: char)
    requires LowerCase(name)
    ensures LowerCase(R.Double(name, close))
    decreases |name|
  {
    hide ToLower;
    if name == "" {
      EmptyIsLower();
    } else {
      LowerTail(name);
      DoubleIsLower(name[1..], close);
      var first := if name[0] == close then [name[0], name[0]] else [name[0]];
      OneByteIsLower(name[0]);
      LowerConcat(first, R.Double(name[1..], close));
    }
  }

  lemma {:induction false} LiteralBodyIsInjective(s: string, t: string, doubled: bool)
    requires R.LiteralBody(s, doubled) == R.LiteralBody(t, doubled)
    ensures s == t
    decreases |s|
  {
    if s != "" && t != "" {
      assert R.LiteralBody(s, doubled)[0] == s[0] && R.LiteralBody(t, doubled)[0] == t[0];
      var n := if s[0] == '\'' || (s[0] == '\\' && doubled) then 2 else 1;
      assert R.LiteralBody(s, doubled)[n..] == R.LiteralBody(s[1..], doubled);
      assert R.LiteralBody(t, doubled)[n..] == R.LiteralBody(t[1..], doubled);
      LiteralBodyIsInjective(s[1..], t[1..], doubled);
    }
  }

  lemma SpelledLiteral(value: string, doubled: bool)
    ensures Spelling(Chars(value, doubled)) == "'" + R.LiteralBody(value, doubled) + "'"
    ensures LowerCase(value) ==> LowerCase(Spelling(Chars(value, doubled)))
  {
    hide R.LiteralBody, ToLower;
    SingleSpelling(Chars(value, doubled));
    if LowerCase(value) {
      LiteralBodyIsLower(value, doubled);
      OneByteIsLower('\'');
      LowerConcat("'", R.LiteralBody(value, doubled));
      LowerConcat("'" + R.LiteralBody(value, doubled), "'");
    }
  }

  lemma LiteralSpellingIsInjective(s: string, t: string, doubled: bool)
    requires Spelling(Chars(s, doubled)) == Spelling(Chars(t, doubled))
    ensures s == t
  {
    hide R.LiteralBody;
    SpelledLiteral(s, doubled);
    SpelledLiteral(t, doubled);
    var x, y := Spelling(Chars(s, doubled)), Spelling(Chars(t, doubled));
    assert R.LiteralBody(s, doubled) == x[1..|x| - 1] && R.LiteralBody(t, doubled) == y[1..|y| - 1];
    LiteralBodyIsInjective(s, t, doubled);
  }

  lemma SpelledWord(word: string)
    ensures R.SpellAll([R.Word(word)]) == word
  {
    SingleSpelling(Digits(word));
  }

  lemma SpelledName(d: Dialect, x: R.Lexeme)
    requires R.Formed(d, x) && x.Quoted?
    ensures R.SpellAll([x]) == R.Spell(x) && R.SpellAll([x])[0] == x.open
    ensures LowerCase(x.name) ==> LowerCase(R.SpellAll([x]))
  {
    hide R.Double, ToLower;
    var close := CloserOf(x.open);
    SingleSpelling(Column([x]));
    if LowerCase(x.name) {
      DoubleIsLower(x.name, close);
      OneByteIsLower(x.open);
      OneByteIsLower(close);
      LowerConcat([x.open], R.Double(x.name, close));
      LowerConcat([x.open] + R.Double(x.name, close), [close]);
    }
  }

  /** The first byte of an operand of one token tells its sort. */
  lemma FirstByte(number: Numbers, d: Dialect, o: Operand)
    requires PlainOperand(d, o) && Single(o) && CanonicalOperand(number, d, o)
    ensures Spelling(o) != "" && R.Formed(d, o.parts[0])
    ensures o.Column? ==> o.parts[0].Quoted? || o.parts[0].Word?
    ensures o.Text? ==> Spelling(o)[0] == '\''
    ensures o.Column? && o.parts[0].Quoted? ==> Spelling(o)[0] in ['"', '`', '['] && LowerCase(Spelling(o))
    ensures o.Number? || (o.Column? && o.parts[0].Word?) ==> Spelling(o) == o.parts[0].word && R.WordByte(Spelling(o)[0])
  {
    hide R.LiteralBody, R.Double, ToLower, CanonicalDigits;
    PartFormed(d, o.parts, 0, " ");
    assert o.parts == [o.parts[0]];
    if o.Text? {
      SpelledLiteral(o.parts[0].value, o.parts[0].doubled);
    } else if o.parts[0].Quoted? {
      SpelledName(d, o.parts[0]);
    } else {
      SpelledWord(o.parts[0].word);
    }
  }

  lemma FoldKeepsFirstByte(x: string, y: string)
    requires EqualFold(x, y) && x != ""
    ensures y != "" && LowerByte(x[0]) == LowerByte(y[0])
  {
    assert |ToLower(x)| == |ToLower(y)|;
    assert ToLower(x)[0] == ToLower(y)[0];
  }

  /** Columns spelled alike are the same column; a column is spelled like no literal. */
  lemma ColumnsSpelledAlike(number: Numbers, d: Dialect, a: Operand, b: Operand)
    requires PlainOperand(d, a) && PlainOperand(d, b) && Single(a) && Single(b) && a.Column? && !b.Text?
    requires CanonicalOperand(number, d, a) && CanonicalOperand(number, d, b)
    requires EqualFold(Spelling(a), Spelling(b)) && GoNumbers(number)
    ensures b.Column? && ColumnKey(a) == ColumnKey(b)
  {
    hide CanonicalDigits, PlainOperand;
    FirstByte(number, d, a);
    FirstByte(number, d, b);
    FoldKeepsFirstByte(Spelling(a), Spelling(b));
    if b.Number? {
      CanonicalIsLower(b.parts[0].word);
      FoldOfDigits(Spelling(a), b.parts[0].word);
    }
  }

  lemma CanonicalIsLower(s: string)
    requires CanonicalDigits(s)
    ensures LowerCase(s) && forall i :: 0 <= i < |s| ==> Digit(s[i])
  {
    DigitsAreLower(s);
  }

  lemma FoldOfDigits(x: string, digits: string)
    requires EqualFold(x, digits) && forall i :: 0 <= i < |digits| ==> Digit(digits[i])
    ensures x == digits
  {
    assert |x| == |ToLower(x)| == |digits|;
    forall i | 0 <= i < |x| ensures x[i] == digits[i] {
      assert LowerByte(x[i]) == ToLower(x)[i] == ToLower(digits)[i] == LowerByte(digits[i]);
      assert Digit(digits[i]);
    }
  }

  // ------------------------------------------------------------------
  // Canonical spelling is faithful.

  lemma NumbersAreFaithful<V(!new)>(number: Numbers, db: Database<V>, op: Comparison, s: string, t: string)
    requires GoNumbers(number) && ComparesByValue(db) && CanonicalDigits(s) && CanonicalDigits(t)
    ensures Faithful(number, db, op, Digits(s), Digits(t))
  {
    hide CanonicalDigits, Decimal;
    SpelledWord(s);
    SpelledWord(t);
    CanonicalIsLower(s);
    CanonicalIsLower(t);
    assert ComparesIntegers(db, s, t) && ComparesIntegers(db, t, s);
    if Decimal(s) == Decimal(t) {
      DecimalIsInjective(s, t);
    }
    if EqualFold(s, t) {
      FoldOfDigits(s, t);
    }
  }

  lemma TextsAreFaithful<V(!new)>(number: Numbers, db: Database<V>, op: Comparison, s: string, t: string, doubled: bool)
    requires GoNumbers(number) && ComparesByValue(db) && LowerCase(s) && LowerCase(t)
    ensures Faithful(number, db, op, Chars(s, doubled), Chars(t, doubled))
  {
    hide R.LiteralBody, CanonicalDigits, ComparesIntegers, ToLower, Ordered;
    SpelledLiteral(s, doubled);
    SpelledLiteral(t, doubled);
    var x, y := Spelling(Chars(s, doubled)), Spelling(Chars(t, doubled));
    assert Delimiter(x[0]);
    if EqualFold(x, y) {
      LiteralSpellingIsInjective(s, t, doubled);
    }
  }

  lemma ColumnIsNoLiteral(number: Numbers, d: Dialect, o: Operand)
    requires PlainOperand(d, o) && Single(o) && CanonicalOperand(number, d, o) && o.Column?
    ensures !LiteralToken(number, Spelling(o)) && number(Spelling(o)).None?
  {
    hide PlainOperand, ToLower, R.SpellAll;
    FirstByte(number, d, o);
    var s := Spelling(o);
    assert o.parts[0].Word? && |s| > 1 ==> s[1] != '\'';
    NoPrefix(s, "'", 0);
    NoPrefix(s, "N'", if o.parts[0].Word? then 1 else 0);
    NoPrefix(s, "n'", if o.parts[0].Word? then 1 else 0);
  }

  lemma NoPrefix(s: string, prefix: string, k: nat)
    requires k < |prefix| && (k < |s| ==> s[k] != prefix[k])
    ensures !HasPrefix(s, prefix)
  {
  }

  lemma MixedIsFaithful<V(!new)>(number: Numbers, d: Dialect, db: Database<V>, op: Comparison, a: Operand, b: Operand)
    requires PlainOperand(d, a) && PlainOperand(d, b) && Single(a) && Single(b)
    requires CanonicalOperand(number, d, a) && CanonicalOperand(number, d, b) && GoNumbers(number)
    requires a.Column? || b.Column?
    ensures Faithful(number, db, op, a, b)
  {
    hide PlainOperand, CanonicalOperand, LiteralToken, EqualFold, Spelling;
    if a.Column? {
      ColumnIsNoLiteral(number, d, a);
    }
    if b.Column? {
      ColumnIsNoLiteral(number, d, b);
    }
    if EqualFold(Spelling(a), Spelling(b)) {
      var c, e := if a.Column? then a else b, if a.Column? then b else a;
      FoldIsSymmetric(Spelling(a), Spelling(b));
      if e.Text? {
        TextIsNoColumn(number, d, c, e);
      } else {
        ColumnsSpelledAlike(number, d, c, e);
      }
    }
  }

  lemma FoldIsSymmetric(x: string, y: string)
    requires EqualFold(x, y)
    ensures EqualFold(y, x)
  {
  }

  lemma TextIsNoColumn(number: Numbers, d: Dialect, a: Operand, b: Operand)
    requires PlainOperand(d, a) && PlainOperand(d, b) && Single(a) && Single(b) && a.Column? && b.Text?
    requires CanonicalOperand(number, d, a) && CanonicalOperand(number, d, b)
    ensures !EqualFold(Spelling(a), Spelling(b))
  {
    hide PlainOperand, ToLower;
    FirstByte(number, d, a);
    FirstByte(number, d, b);
    if EqualFold(Spelling(a), Spelling(b)) {
      FoldKeepsFirstByte(Spelling(a), Spelling(b));
    }
  }

  lemma CanonicalComparisonIsFaithful<V(!new)>(number: Numbers, d: Dialect, db: Database<V>, op: Comparison, a: Operand, b: Operand)
    requires PlainOperand(d, a) && PlainOperand(d, b) && CanonicalComparison(number, d, a, b)
    requires GoNumbers(number) && ComparesByValue(db)
    ensures Faithful(number, db, op, a, b)
  {
    hide PlainOperand, ComparesByValue, GoNumbers, LowerCase, CanonicalDigits;
    if Single(a) && Single(b) {
      assert a.parts == [a.parts[0]] && b.parts == [b.parts[0]];
      if a.Column? || b.Column? {
        MixedIsFaithful(number, d, db, op, a, b);
      } else if a.Number? {
        NumbersAreFaithful(number, db, op, a.parts[0].word, b.parts[0].word);
      } else {
        TextsAreFaithful(number, db, op, a.parts[0].value, b.parts[0].value, a.parts[0].doubled);
        assert a == Chars(a.parts[0].value, a.parts[0].doubled) && b == Chars(b.parts[0].value, a.parts[0].doubled);
      }
    } else {
      SplitIsFaithful(number, db, op, a, b);
    }
  }

  lemma SplitIsFaithful<V>(number: Numbers, db: Database<V>, op: Comparison, a: Operand, b: Operand)
    requires !(Single(a) && Single(b))
    ensures Faithful(number, db, op, a, b)
  {
  }

  lemma {:induction false} CanonicalIsFaithful<V(!new)>(number: Numbers, d: Dialect, db: Database<V>, f: Formula)
    requires WellFormed(d, f) && Canonical(number, d, f) && GoNumbers(number) && ComparesByValue(db)
    ensures AllFaithful(number, db, f)
    decreases f
  {
    hide PlainOperand, ComparesByValue, GoNumbers, CanonicalComparison, Faithful;
    match f
    case Truth(_) =>
    case Compare(op, a, b) => CanonicalComparisonIsFaithful(number, d, db, op, a, b);
    case Not(g) => CanonicalIsFaithful(number, d, db, g);
    case And(g, h) => CanonicalIsFaithful(number, d, db, g); CanonicalIsFaithful(number, d, db, h);
    case Or(g, h) => CanonicalIsFaithful(number, d, db, g); CanonicalIsFaithful(number, d, db, h);
    case Paren(g) => CanonicalIsFaithful(number, d, db, g);
  }

  // ------------------------------------------------------------------
  // The folder on text.

  /** Main result: what the folder knows of a canonically spelled WHERE clause is true on every row. */
  lemma FolderIsSound<V(!new)>(number: Numbers, d: Dialect, db: Database<V>, row: Row<V>, f: Formula)
    requires WellFormed(d, f) && Canonical(number, d, f) && GoNumbers(number) && ComparesByValue(db)
    ensures Lex(d, Written(f)).Ok?
    ensures var v := Fold(number, Lex(d, Written(f)).value); v.Known? ==> v.value == Holds(db, row, f)
  {
    hide *;
    FolderReadsText(number, d, f);
    CanonicalIsFaithful(number, d, db, f);
    assert Ordered(db) by { ByValueIsOrdered(db); }
    KnownIsTrue(number, db, row, f);
  }

  lemma ByValueIsOrdered<V(!new)>(db: Database<V>)
    requires ComparesByValue(db)
    ensures Ordered(db)
  {
  }

  /** Main result: without columns the folder knows the truth exactly when the comparisons
      of two tokens, of strings by equality or of numbers, settle it. */
  lemma FolderDecidesGround<V(!new)>(number: Numbers, d: Dialect, db: Database<V>, row: Row<V>, f: Formula)
    requires WellFormed(d, f) && Canonical(number, d, f) && GoNumbers(number) && ComparesByValue(db) && Ground(number, f)
    ensures Lex(d, Written(f)).Ok?
    ensures Fold(number, Lex(d, Written(f)).value) == if Settled(db, row, f) then Known(Holds(db, row, f)) else Unknown
    ensures AllPlain(f) ==> Fold(number, Lex(d, Written(f)).value) == Known(Holds(db, row, f))
  {
    hide *;
    FolderReadsText(number, d, f);
    CanonicalIsFaithful(number, d, db, f);
    assert Ordered(db) by { ByValueIsOrdered(db); }
    GroundIsKnownExactly(number, db, row, f);
    if AllPlain(f) {
      PlainIsSettled(db, row, f);
    }
  }
}
