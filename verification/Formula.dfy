/** Formulas, how they are spelled and what the constant folder makes of their
    tokens: folding is evaluation in three values. */
module Formula {
  import opened Bytes
  import opened Lexer
  import opened Folder
  import R = Render

  /** One side of a comparison, with the lexemes it is written in: one for `a`,
      `"a b"`, `7` and `'x'`, two for `-1`, three for `t.a` and `1.5`. */
  datatype Operand = Column(parts: seq<R.Lexeme>) | Number(parts: seq<R.Lexeme>) | Text(parts: seq<R.Lexeme>)

  datatype Comparison = Eq | Ne | NotEq | Lt | Gt | Le | Ge

  datatype Formula =
    | Truth(value: bool)
    | Compare(op: Comparison, left: Operand, right: Operand)
    | Not(f: Formula)
    | And(l: Formula, r: Formula)
    | Or(l: Formula, r: Formula)
    | Paren(f: Formula)

  // ------------------------------------------------------------------
  // How a formula is written.

  function Spelling(o: Operand): string {
    R.SpellAll(o.parts)
  }

  /** Written as one token. */
  predicate Single(o: Operand) {
    |o.parts| == 1
  }

  function OpMarks(op: Comparison): seq<R.Lexeme> {
    match op
    case Eq => [R.Mark('=')]
    case Lt => [R.Mark('<')]
    case Gt => [R.Mark('>')]
    case Ne => [R.Mark('<'), R.Mark('>')]
    case NotEq => [R.Mark('!'), R.Mark('=')]
    case Le => [R.Mark('<'), R.Mark('=')]
    case Ge => [R.Mark('>'), R.Mark('=')]
  }

  predicate Connective(word: string) {
    ToLower(word) in ["or", "and", "not"]
  }

  predicate NamePart(x: R.Lexeme) {
    x.Quoted? || (x.Word? && !Connective(x.word))
  }

  predicate NumberPart(x: R.Lexeme) {
    (x.Word? && !Connective(x.word)) || x == R.Mark('.') || x == R.Mark('+') || x == R.Mark('-')
  }

  /** What can stand as an operand: a name with or without qualifiers, a number
      with or without sign, point and exponent, or a string. */
  predicate PlainOperand(d: Dialect, o: Operand) {
    && o.parts != [] && R.ReadableBefore(d, o.parts, " ")
    && match o
       case Column(parts) => NamePart(parts[0]) && forall i :: 0 <= i < |parts| ==> NamePart(parts[i]) || parts[i] == R.Mark('.')
       case Number(parts) => (Single(o) ==> parts[0].Word?) && forall i :: 0 <= i < |parts| ==> NumberPart(parts[i])
       case Text(parts) => |parts| == 1 && parts[0].Literal?
  }

  /** Parentheses stand where the grammar needs them: OR binds loosest, then AND, then NOT. */
  predicate WellFormed(d: Dialect, f: Formula) {
    match f
    case Truth(_) => true
    case Compare(_, a, b) => PlainOperand(d, a) && PlainOperand(d, b)
    case Not(g) => WellFormed(d, g) && !g.And? && !g.Or?
    case And(g, h) => WellFormed(d, g) && WellFormed(d, h) && !g.Or? && !h.Or?
    case Or(g, h) => WellFormed(d, g) && WellFormed(d, h)
    case Paren(g) => WellFormed(d, g)
  }

  // ------------------------------------------------------------------
  // Printing to tokens, with the depths the lexer gives and no positions.

  function Sign(x: R.Lexeme, depth: nat): Token {
    Token(R.Spell(x), R.LowerOf(x), 0, 0, depth, x.Word? || x.Quoted?, x.Quoted?)
  }

  function Signs(xs: seq<R.Lexeme>, depth: nat): (ts: seq<Token>)
    ensures |ts| == |xs|
    ensures forall i :: 0 <= i < |xs| ==> ts[i] == Sign(xs[i], depth)
  {
    seq(|xs|, i requires 0 <= i < |xs| => Sign(xs[i], depth))
  }

  function WordToken(word: string, depth: nat): Token {
    Sign(R.Word(word), depth)
  }

  function Print(d: Dialect, f: Formula, depth: nat): (ts: seq<Token>)
    requires WellFormed(d, f)
    ensures ts != []
  {
    match f
    case Truth(v) => [WordToken(if v then "true" else "false", depth)]
    case Compare(op, a, b) => Signs(a.parts, depth) + Signs(OpMarks(op), depth) + Signs(b.parts, depth)
    case Not(g) => [WordToken("not", depth)] + Print(d, g, depth)
    case And(g, h) => Print(d, g, depth) + [WordToken("and", depth)] + Print(d, h, depth)
    case Or(g, h) => Print(d, g, depth) + [WordToken("or", depth)] + Print(d, h, depth)
    case Paren(g) => [Sign(R.Mark('('), depth)] + Print(d, g, depth + 1) + [Sign(R.Mark(')'), depth)]
  }

  // ------------------------------------------------------------------
  // Three-valued evaluation.

  function CompareVerdict(number: Numbers, op: Comparison, a: string, b: string): Verdict {
    match op
    case Eq => CompareThree(number, a, "=", b)
    case Lt => CompareThree(number, a, "<", b)
    case Gt => CompareThree(number, a, ">", b)
    case Ne => CompareFour(number, a, "<>", b)
    case NotEq => CompareFour(number, a, "!=", b)
    case Le => CompareFour(number, a, "<=", b)
    case Ge => CompareFour(number, a, ">=", b)
  }

  /** Only operands of one token are compared. */
  function Judge(number: Numbers, op: Comparison, a: Operand, b: Operand): Verdict {
    if Single(a) && Single(b) then CompareVerdict(number, op, Spelling(a), Spelling(b)) else Unknown
  }

  function Evaluate3(number: Numbers, f: Formula): Verdict {
    match f
    case Truth(v) => Known(v)
    case Compare(op, a, b) => Judge(number, op, a, b)
    case Not(g) => Negate(Evaluate3(number, g))
    case And(g, h) => Combine("and", Evaluate3(number, g), Evaluate3(number, h))
    case Or(g, h) => Combine("or", Evaluate3(number, g), Evaluate3(number, h))
    case Paren(g) => Evaluate3(number, g)
  }

  // ------------------------------------------------------------------
  // Reading back: Fold of the printed tokens is Evaluate3.

  predicate IsOp(t: Token, depth: nat, op: string) {
    t.depth == depth && t.Keyword(op)
  }

  /** Fold over the operands of `op`, or over the whole slice when there is none. */
  function FoldBy(number: Numbers, ts: seq<Token>, depth: nat, op: string): Verdict {
    if HasOp(ts, depth, op) then FoldOperands(number, ts, depth, op, 0) else Fold(number, ts)
  }

  lemma {:induction false} NextOpInFirst(a: seq<Token>, t: Token, b: seq<Token>, depth: nat, op: string, i: nat)
    requires i <= |a| && IsOp(t, depth, op)
    ensures NextOp(a + [t] + b, depth, op, i) == NextOp(a, depth, op, i)
    decreases |a| - i
  {
    var ts := a + [t] + b;
    if i < |a| {
      assert ts[i] == a[i];
      NextOpInFirst(a, t, b, depth, op, i + 1);
    } else {
      assert ts[i] == t;
    }
  }

  lemma {:induction false} NextOpInSecond(a: seq<Token>, b: seq<Token>, depth: nat, op: string, i: nat)
    requires i <= |b|
    ensures NextOp(a + b, depth, op, |a| + i) == |a| + NextOp(b, depth, op, i)
    decreases |b| - i
  {
    if i < |b| {
      assert (a + b)[|a| + i] == b[i];
      NextOpInSecond(a, b, depth, op, i + 1);
    }
  }

  /** The operands of the second part fold alone as they do after the first. */
  lemma {:induction false} FoldSecond(number: Numbers, a: seq<Token>, b: seq<Token>, depth: nat, op: string, i: nat)
    requires i <= |b| && HasOp(a + b, depth, op) && HasOp(b, depth, op)
    ensures FoldOperands(number, a + b, depth, op, |a| + i) == FoldOperands(number, b, depth, op, i)
    decreases |b| - i
  {
    hide Fold, FoldOperands, HasOp;
    var ts := a + b;
    NextOpInSecond(a, b, depth, op, i);
    var e := NextOp(b, depth, op, i);
    OperandStep(number, ts, depth, op, |a| + i);
    OperandStep(number, b, depth, op, i);
    assert ts[|a| + i..|a| + e] == b[i..e];
    assert ts[|a| + i..] == b[i..];
    if e < |b| {
      FoldSecond(number, a, b, depth, op, e + 1);
    }
  }

  lemma Associative(op: string, u: Verdict, v: Verdict, w: Verdict)
    requires op == "or" || op == "and"
    ensures Combine(op, u, Combine(op, v, w)) == Combine(op, Combine(op, u, v), w)
  {
  }

  /** Folding a join is combining the folds of its two sides. */
  lemma {:induction false} FoldJoin(number: Numbers, a: seq<Token>, t: Token, b: seq<Token>, depth: nat, op: string, i: nat)
    requires (op == "or" || op == "and") && IsOp(t, depth, op) && i <= |a|
    requires i == 0 || HasOp(a, depth, op)
    ensures HasOp(a + [t] + b, depth, op)
    ensures FoldOperands(number, a + [t] + b, depth, op, i)
         == Combine(op, if HasOp(a, depth, op) then FoldOperands(number, a, depth, op, i) else Fold(number, a),
                        FoldBy(number, b, depth, op))
    decreases |a| - i
  {
    hide Fold, FoldOperands;
    var ts := a + [t] + b;
    NextOpInFirst(a, t, b, depth, op, 0);
    NextOpInFirst(a, t, b, depth, op, i);
    var e := NextOp(a, depth, op, i);
    OperandStep(number, ts, depth, op, i);
    assert ts[i..e] == a[i..e];
    if e < |a| {
      OperandStep(number, a, depth, op, i);
      HasOpFrom(a, depth, op, i);
      FoldJoin(number, a, t, b, depth, op, e + 1);
      Associative(op, Fold(number, a[i..e]), FoldOperands(number, a, depth, op, e + 1), FoldBy(number, b, depth, op));
    } else {
      assert a[i..e] == a[i..];
      assert a[0..] == a;
      if HasOp(a, depth, op) {
        OperandStep(number, a, depth, op, i);
      }
      FoldRest(number, a + [t], b, depth, op);
    }
  }

  lemma HasOpFrom(ts: seq<Token>, depth: nat, op: string, i: nat)
    requires i <= |ts| && NextOp(ts, depth, op, i) < |ts|
    ensures HasOp(ts, depth, op)
  {
    assert IsOp(ts[NextOp(ts, depth, op, i)], depth, op);
  }

  /** What follows the joining operator folds as it would alone. */
  lemma FoldRest(number: Numbers, a: seq<Token>, b: seq<Token>, depth: nat, op: string)
    requires HasOp(a + b, depth, op)
    ensures FoldOperands(number, a + b, depth, op, |a|) == FoldBy(number, b, depth, op)
  {
    hide Fold, FoldOperands;
    NextOpInSecond(a, b, depth, op, 0);
    if HasOp(b, depth, op) {
      FoldSecond(number, a, b, depth, op, 0);
    } else {
      OperandStep(number, a + b, depth, op, |a|);
      assert (a + b)[|a|..] == b;
    }
  }

  lemma LowerWords()
    ensures ToLower("true") == "true" && ToLower("false") == "false"
    ensures ToLower("or") == "or" && ToLower("and") == "and" && ToLower("not") == "not"
  {
    assert ToLower("true") == ['t', 'r', 'u', 'e'];
    assert ToLower("false") == ['f', 'a', 'l', 's', 'e'];
    assert ToLower("or") == ['o', 'r'];
    assert ToLower("and") == ['a', 'n', 'd'];
    assert ToLower("not") == ['n', 'o', 't'];
  }

  lemma OperandIsWritten(d: Dialect, o: Operand)
    requires PlainOperand(d, o)
    ensures o.parts != []
  {
  }

  lemma {:induction false} PrintDepths(d: Dialect, f: Formula, depth: nat)
    requires WellFormed(d, f)
    ensures forall k :: 0 <= k < |Print(d, f, depth)| ==> Print(d, f, depth)[k].depth >= depth
    ensures Print(d, f, depth)[0].depth == depth
    decreases f
  {
    hide PlainOperand, R.Spell, R.LowerOf, OpMarks;
    match f
    case Truth(_) =>
    case Compare(_, a, _) => OperandIsWritten(d, a);
    case Not(g) => PrintDepths(d, g, depth);
    case And(g, h) => PrintDepths(d, g, depth); PrintDepths(d, h, depth);
    case Or(g, h) => PrintDepths(d, g, depth); PrintDepths(d, h, depth);
    case Paren(g) => PrintDepths(d, g, depth + 1);
  }

  /** No top-level `op` anywhere in the slice. */
  ghost predicate Free(ts: seq<Token>, depth: nat, op: string) {
    forall k :: 0 <= k < |ts| ==> !IsOp(ts[k], depth, op)
  }

  lemma FreeHasNoOp(ts: seq<Token>, depth: nat, op: string)
    ensures Free(ts, depth, op) <==> !HasOp(ts, depth, op)
  {
    var e := NextOp(ts, depth, op, 0);
    if e < |ts| {
      assert IsOp(ts[e], depth, op);
    }
  }

  lemma PartIsFree(d: Dialect, o: Operand, i: nat, depth: nat)
    requires PlainOperand(d, o) && i < |o.parts|
    ensures !o.parts[i].Gap? && Sign(o.parts[i], depth).text !in ["<", ">", "=", "!"]
    ensures !IsOp(Sign(o.parts[i], depth), depth, "or") && !IsOp(Sign(o.parts[i], depth), depth, "and") && !IsOp(Sign(o.parts[i], depth), depth, "not")
    ensures i == 0 ==> Sign(o.parts[i], depth).text != "("
  {
    hide ToLower, BareName, R.Double, R.LiteralBody, R.SpellAll;
    PartFormed(d, o.parts, i, " ");
    var x := o.parts[i];
    if x.Quoted? || x.Literal? {
      assert |R.Spell(x)| >= 2 && R.Spell(x)[0] in ['"', '`', '[', '\''];
    } else if x.Word? {
      assert R.Spell(x)[0] == x.word[0] && R.WordByte(x.word[0]);
    } else {
      assert R.Spell(x)[0] == x.c;
    }
  }

  lemma {:induction false} PartFormed(d: Dialect, xs: seq<R.Lexeme>, i: nat, rest: string)
    requires R.ReadableBefore(d, xs, rest) && i < |xs|
    ensures R.Formed(d, xs[i])
    decreases i
  {
    hide R.Formed, R.Fits;
    if i > 0 {
      PartFormed(d, xs[1..], i - 1, rest);
    }
  }

  lemma OperandIsFree(d: Dialect, o: Operand, depth: nat, op: string)
    requires PlainOperand(d, o) && (op == "or" || op == "and" || op == "not")
    ensures Free(Signs(o.parts, depth), depth, op)
  {
    hide Sign, PlainOperand, IsOp;
    forall k | 0 <= k < |o.parts| ensures !IsOp(Signs(o.parts, depth)[k], depth, op) {
      PartIsFree(d, o, k, depth);
    }
  }

  lemma CompareIsFree(d: Dialect, f: Formula, depth: nat, op: string)
    requires f.Compare? && WellFormed(d, f) && (op == "or" || op == "and" || op == "not")
    ensures Free(Print(d, f, depth), depth, op)
  {
    hide ToLower, PlainOperand;
    OperandIsFree(d, f.left, depth, op);
    OperandIsFree(d, f.right, depth, op);
    assert Free(Signs(OpMarks(f.op), depth), depth, op);
  }

  lemma {:induction false} PrintFree(d: Dialect, f: Formula, depth: nat, op: string)
    requires WellFormed(d, f) && !f.Or? && (op == "or" || (op == "and" && !f.And?))
    ensures Free(Print(d, f, depth), depth, op)
    decreases f
  {
    LowerWords();
    match f
    case Truth(_) =>
    case Compare(_, _, _) => CompareIsFree(d, f, depth, op);
    case Not(g) => PrintFree(d, g, depth, op);
    case And(g, h) => PrintFree(d, g, depth, op); PrintFree(d, h, depth, op);
    case Paren(g) => PrintDepths(d, g, depth + 1);
  }

  lemma OnlyParenWraps(d: Dialect, f: Formula, depth: nat)
    requires WellFormed(d, f)
    ensures WrapsAll(Print(d, f, depth)) <==> f.Paren?
  {
    hide ToLower, PlainOperand;
    var ts := Print(d, f, depth);
    match f
    case Truth(_) =>
    case Compare(_, a, _) => OperandIsWritten(d, a); PartIsFree(d, a, 0, depth);
    case Not(_) => assert ts[0].text == "not";
    case And(g, h) => PrintDepths(d, f, depth); assert ts[|Print(d, g, depth)|] == WordToken("and", depth);
    case Or(g, h) => PrintDepths(d, f, depth); assert ts[|Print(d, g, depth)|] == WordToken("or", depth);
    case Paren(g) => PrintDepths(d, g, depth + 1);
  }

  lemma FoldStripped(number: Numbers, a: seq<Token>, b: seq<Token>)
    requires Strip(a) == Strip(b)
    ensures Fold(number, a) == Fold(number, b)
  {
    hide HasOp, Leaf, Strip;
  }

  /** Folding an unparenthesized slice, by its loosest operator. */
  lemma FoldCases(number: Numbers, ts: seq<Token>, depth: nat)
    requires ts != [] && !WrapsAll(ts) && ts[0].depth == depth
    ensures HasOp(ts, depth, "or") ==> Fold(number, ts) == FoldOperands(number, ts, depth, "or", 0)
    ensures !HasOp(ts, depth, "or") && HasOp(ts, depth, "and") ==> Fold(number, ts) == FoldOperands(number, ts, depth, "and", 0)
    ensures !HasOp(ts, depth, "or") && !HasOp(ts, depth, "and")
        ==> Fold(number, ts) == if |ts| >= 2 && ts[0].Keyword("not") then Negate(Fold(number, ts[1..])) else Leaf(number, ts)
  {
    hide HasOp, Leaf, FoldOperands, WrapsAll;
  }

  lemma FoldByItself(number: Numbers, d: Dialect, f: Formula, depth: nat, op: string)
    requires WellFormed(d, f) && (op == "or" || (op == "and" && !f.Or?))
    ensures FoldBy(number, Print(d, f, depth), depth, op) == Fold(number, Print(d, f, depth))
  {
    hide Fold, FoldOperands, Print;
    var ts := Print(d, f, depth);
    PrintDepths(d, f, depth);
    OnlyParenWraps(d, f, depth);
    FreeHasNoOp(ts, depth, "or");
    FreeHasNoOp(ts, depth, "and");
    if !f.Or? {
      PrintFree(d, f, depth, "or");
    }
    if !f.Or? && !f.And? {
      PrintFree(d, f, depth, "and");
    }
    if !f.Paren? {
      FoldCases(number, ts, depth);
    }
  }

  /** A slice of two operands around an operator compares them if each is one token, and says nothing otherwise. */
  lemma CompareLeaf(number: Numbers, d: Dialect, op: Comparison, a: Operand, b: Operand, depth: nat)
    requires PlainOperand(d, a) && PlainOperand(d, b)
    ensures Leaf(number, Signs(a.parts, depth) + Signs(OpMarks(op), depth) + Signs(b.parts, depth)) == Judge(number, op, a, b)
  {
    hide CompareThree, CompareFour, PlainOperand, R.LowerOf;
    assert a.parts != [] && b.parts != [] by { OperandIsWritten(d, a); OperandIsWritten(d, b); }
    if Single(a) && Single(b) {
      SingleSpelling(a);
      SingleSpelling(b);
      assert "<" + ">" == "<>" && "!" + "=" == "!=" && "<" + "=" == "<=" && ">" + "=" == ">=";
    } else {
      UnequalLeaf(number, d, op, a, b, depth);
    }
  }

  lemma SingleSpelling(o: Operand)
    requires Single(o)
    ensures Spelling(o) == R.Spell(o.parts[0])
  {
    hide R.Spell;
    assert o.parts[1..] == [];
    assert R.SpellAll(o.parts) == R.Spell(o.parts[0]) + R.SpellAll([]);
  }

  lemma UnequalLeaf(number: Numbers, d: Dialect, op: Comparison, a: Operand, b: Operand, depth: nat)
    requires PlainOperand(d, a) && PlainOperand(d, b) && !(Single(a) && Single(b))
    ensures Leaf(number, Signs(a.parts, depth) + Signs(OpMarks(op), depth) + Signs(b.parts, depth)) == Unknown
  {
    hide CompareThree, PlainOperand, R.LowerOf;
    var ts := Signs(a.parts, depth) + Signs(OpMarks(op), depth) + Signs(b.parts, depth);
    OperandIsWritten(d, a);
    OperandIsWritten(d, b);
    if |ts| == 4 {
      var one := if |a.parts| == 2 then ts[1].text else ts[2].text;
      var two := if |a.parts| == 2 then ts[2].text else ts[1].text;
      if |a.parts| == 2 { PartIsFree(d, a, 1, depth); } else { PartIsFree(d, b, 0, depth); }
      assert one !in ["<", ">", "=", "!"] && two in ["<", ">", "="];
      NoOperator(ts[1].text, ts[2].text);
    }
  }

  lemma NoOperator(a: string, b: string)
    requires a !in ["<", ">", "=", "!"] || b !in ["<", ">", "=", "!"]
    requires |a| == 1 || |b| == 1
    ensures a + b !in ["!=", "<>", "<=", ">="]
  {
    if |a + b| == 2 {
      assert (a + b)[0..1] == a || |a| != 1;
      assert a + b == [(a + b)[0], (a + b)[1]];
      if |a| == 1 {
        assert a == [(a + b)[0]] && b == [(a + b)[1]];
      }
    }
  }

  lemma FoldCompare(number: Numbers, d: Dialect, f: Formula, depth: nat)
    requires f.Compare? && WellFormed(d, f)
    ensures Fold(number, Print(d, f, depth)) == Evaluate3(number, f)
  {
    hide Fold, ToLower, HasOp, PlainOperand, Leaf, Judge;
    var ts := Print(d, f, depth);
    OnlyParenWraps(d, f, depth);
    PrintDepths(d, f, depth);
    FoldCases(number, ts, depth);
    CompareIsFree(d, f, depth, "or");
    CompareIsFree(d, f, depth, "and");
    CompareIsFree(d, f, depth, "not");
    FreeHasNoOp(ts, depth, "or");
    FreeHasNoOp(ts, depth, "and");
    assert !IsOp(ts[0], depth, "not");
    CompareLeaf(number, d, f.op, f.left, f.right, depth);
  }

  function Join(op: string, g: Formula, h: Formula): Formula {
    if op == "or" then Or(g, h) else And(g, h)
  }

  lemma FoldNary(number: Numbers, d: Dialect, g: Formula, h: Formula, depth: nat, op: string)
    requires (op == "or" || op == "and") && WellFormed(d, Join(op, g, h))
    ensures Fold(number, Print(d, Join(op, g, h), depth)) == Combine(op, Fold(number, Print(d, g, depth)), Fold(number, Print(d, h, depth)))
  {
    hide Fold, FoldOperands, HasOp, ToLower, FoldBy, Combine;
    var f := Join(op, g, h);
    var ts := Print(d, f, depth);
    LowerWords();
    PrintDepths(d, f, depth);
    OnlyParenWraps(d, f, depth);
    if op == "and" {
      PrintFree(d, f, depth, "or");
      FreeHasNoOp(ts, depth, "or");
    }
    FoldJoin(number, Print(d, g, depth), WordToken(op, depth), Print(d, h, depth), depth, op, 0);
    FoldCases(number, ts, depth);
    JoinSides(number, d, g, h, depth, op);
  }

  lemma FoldNot(number: Numbers, d: Dialect, g: Formula, depth: nat)
    requires WellFormed(d, Not(g))
    ensures Fold(number, Print(d, Not(g), depth)) == Negate(Fold(number, Print(d, g, depth)))
  {
    hide Fold, HasOp, ToLower;
    var ts := Print(d, Not(g), depth);
    LowerWords();
    OnlyParenWraps(d, Not(g), depth);
    PrintFree(d, Not(g), depth, "or");
    PrintFree(d, Not(g), depth, "and");
    FreeHasNoOp(ts, depth, "or");
    FreeHasNoOp(ts, depth, "and");
    FoldCases(number, ts, depth);
    assert ts[1..] == Print(d, g, depth);
  }

  lemma FoldTruth(number: Numbers, d: Dialect, v: bool, depth: nat)
    ensures Fold(number, Print(d, Truth(v), depth)) == Known(v)
  {
    LowerWords();
  }

  /** Main result: the folder reads a printed formula as three-valued evaluation. */
  lemma {:induction false} FolderReadsFormula(number: Numbers, d: Dialect, f: Formula, depth: nat)
    requires WellFormed(d, f)
    ensures Fold(number, Print(d, f, depth)) == Evaluate3(number, f)
    decreases f
  {
    hide Fold;
    match f
    case Truth(v) => FoldTruth(number, d, v, depth);
    case Compare(_, _, _) => FoldCompare(number, d, f, depth);
    case Not(g) =>
      FoldNot(number, d, g, depth);
      FolderReadsFormula(number, d, g, depth);
    case And(g, h) =>
      FoldNary(number, d, g, h, depth, "and");
      FolderReadsFormula(number, d, g, depth);
      FolderReadsFormula(number, d, h, depth);
    case Or(g, h) =>
      FoldNary(number, d, g, h, depth, "or");
      FolderReadsFormula(number, d, g, depth);
      FolderReadsFormula(number, d, h, depth);
    case Paren(g) =>
      var ts := Print(d, f, depth);
      assert ts[1..|ts| - 1] == Print(d, g, depth + 1);
      OnlyParenWraps(d, f, depth);
      FoldStripped(number, ts, Print(d, g, depth + 1));
      FolderReadsFormula(number, d, g, depth + 1);
  }

  lemma JoinSides(number: Numbers, d: Dialect, g: Formula, h: Formula, depth: nat, op: string)
    requires WellFormed(d, g) && WellFormed(d, h) && (op == "or" || (op == "and" && !g.Or? && !h.Or?))
    ensures (if HasOp(Print(d, g, depth), depth, op) then FoldOperands(number, Print(d, g, depth), depth, op, 0) else Fold(number, Print(d, g, depth)))
         == Fold(number, Print(d, g, depth))
    ensures FoldBy(number, Print(d, h, depth), depth, op) == Fold(number, Print(d, h, depth))
  {
    hide Fold, FoldOperands, HasOp;
    FoldByItself(number, d, g, depth, op);
    FoldByItself(number, d, h, depth, op);
  }
}
