/** When a known answer of the constant folder is true. The folder compares
    spellings; a database compares values. `Faithful` is what has to hold
    between the two for one comparison, and it is exactly what is needed. */
module FormulaTruth {
  import opened Bytes
  import opened Folder
  import opened Formula

  /** How the database compares values, and the value each literal denotes. */
  datatype Database<!V> = Database(equal: (V, V) -> bool, less: (V, V) -> bool, literal: Operand -> V)

  /** The value a row holds under each column key. */
  type Row<!V> = string -> V

  /** An undelimited column is found by its name in lower case, any other by its exact name. */
  function ColumnKey(o: Operand): string
    requires o.Column?
  {
    if Single(o) && o.parts[0].Word? then ToLower(Spelling(o)) else Spelling(o)
  }

  function Value<V>(db: Database<V>, row: Row<V>, o: Operand): V {
    if o.Column? then row(ColumnKey(o)) else db.literal(o)
  }

  predicate Satisfies<V>(db: Database<V>, op: Comparison, x: V, y: V) {
    match op
    case Eq => db.equal(x, y)
    case Ne => !db.equal(x, y)
    case NotEq => !db.equal(x, y)
    case Lt => db.less(x, y)
    case Gt => db.less(y, x)
    case Le => db.less(x, y) || db.equal(x, y)
    case Ge => db.less(y, x) || db.equal(x, y)
  }

  /** The formula's value on one row without NULLs. */
  predicate Holds<V>(db: Database<V>, row: Row<V>, f: Formula) {
    match f
    case Truth(v) => v
    case Compare(op, a, b) => Satisfies(db, op, Value(db, row, a), Value(db, row, b))
    case Not(g) => !Holds(db, row, g)
    case And(g, h) => Holds(db, row, g) && Holds(db, row, h)
    case Or(g, h) => Holds(db, row, g) || Holds(db, row, h)
    case Paren(g) => Holds(db, row, g)
  }

  ghost predicate Equivalence<V(!new)>(equal: (V, V) -> bool) {
    && (forall x :: equal(x, x))
    && (forall x, y :: equal(x, y) ==> equal(y, x))
    && (forall x, y, z :: equal(x, y) && equal(y, z) ==> equal(x, z))
  }

  /** Equality is one, and nothing is less than what it equals or is less than it. */
  ghost predicate Ordered<V(!new)>(db: Database<V>) {
    && Equivalence(db.equal)
    && (forall x, y :: db.less(x, y) ==> !db.equal(x, y) && !db.less(y, x))
  }

  ghost predicate BelowAndAbove<V(!new)>(db: Database<V>, x: V) {
    (exists low :: db.less(low, x)) && (exists high :: db.less(x, high))
  }

  /** Every value has one below it and one above. */
  ghost predicate Unbounded<V(!new)>(db: Database<V>) {
    forall x :: BelowAndAbove(db, x)
  }

  // ------------------------------------------------------------------
  // One comparison.

  predicate EqualityOp(op: Comparison) {
    op.Eq? || op.Ne? || op.NotEq?
  }

  /** What an order comparison of two floats answers. */
  predicate OrderAnswer(op: Comparison, x: Float, y: Float) {
    match op
    case Lt => x.Less(y)
    case Gt => y.Less(x)
    case Le => x.Less(y) || x.Equal(y)
    case _ => y.Less(x) || x.Equal(y)
  }

  /** Both sides are equal on every row. */
  predicate SameOnEveryRow<V>(db: Database<V>, a: Operand, b: Operand) {
    if a.Column? && b.Column? then ColumnKey(a) == ColumnKey(b)
    else !a.Column? && !b.Column? && db.equal(db.literal(a), db.literal(b))
  }

  /** The spellings tell the truth about the values. An order of two sides that
      read as numbers may have one literal on each side, or the same column. */
  predicate Faithful<V>(number: Numbers, db: Database<V>, op: Comparison, a: Operand, b: Operand) {
    Single(a) && Single(b) ==>
      var x, y := Spelling(a), Spelling(b);
      if EqualityOp(op) then
        if EqualFold(x, y) then SameOnEveryRow(db, a, b)
        else if LiteralToken(number, x) && LiteralToken(number, y) then
          !a.Column? && !b.Column? && !db.equal(db.literal(a), db.literal(b))
        else true
      else
        number(x).Some? && number(y).Some? ==>
          var answer := OrderAnswer(op, number(x).value, number(y).value);
          if a.Column? || b.Column? then a.Column? && b.Column? && ColumnKey(a) == ColumnKey(b) && answer == (op.Le? || op.Ge?)
          else Satisfies(db, op, db.literal(a), db.literal(b)) == answer
  }

  lemma OrderIsJudged(number: Numbers, op: Comparison, x: string, y: string)
    requires !EqualityOp(op)
    ensures CompareVerdict(number, op, x, y)
         == if number(x).Some? && number(y).Some? then Known(OrderAnswer(op, number(x).value, number(y).value)) else Unknown
  {
    hide EqualFold, LiteralToken;
  }

  lemma KnownComparisonIsTrue<V(!new)>(number: Numbers, db: Database<V>, row: Row<V>, op: Comparison, a: Operand, b: Operand)
    requires Ordered(db) && Faithful(number, db, op, a, b)
    ensures var v := Judge(number, op, a, b);
            v.Known? ==> v.value == Satisfies(db, op, Value(db, row, a), Value(db, row, b))
  {
    hide EqualFold, LiteralToken, Spelling, OrderAnswer;
    if !EqualityOp(op) {
      OrderIsJudged(number, op, Spelling(a), Spelling(b));
    }
  }

  ghost predicate RightOnEveryRow<V(!new)>(number: Numbers, db: Database<V>, op: Comparison, a: Operand, b: Operand) {
    var v := Judge(number, op, a, b);
    v.Known? ==> forall row: Row<V> :: Satisfies(db, op, Value(db, row, a), Value(db, row, b)) == v.value
  }

  lemma WrongRow<V(!new)>(number: Numbers, db: Database<V>, op: Comparison, a: Operand, b: Operand, row: Row<V>)
    requires RightOnEveryRow(number, db, op, a, b) && Judge(number, op, a, b).Known?
    ensures Satisfies(db, op, Value(db, row, a), Value(db, row, b)) == Judge(number, op, a, b).value
  {
  }

  lemma FaithfulIsRight<V(!new)>(number: Numbers, db: Database<V>, op: Comparison, a: Operand, b: Operand)
    requires Ordered(db) && Faithful(number, db, op, a, b)
    ensures RightOnEveryRow(number, db, op, a, b)
  {
    hide Judge, Satisfies, Value, Faithful, Ordered;
    forall row: Row<V> ensures var v := Judge(number, op, a, b);
                               v.Known? ==> Satisfies(db, op, Value(db, row, a), Value(db, row, b)) == v.value
    {
      KnownComparisonIsTrue(number, db, row, op, a, b);
    }
  }

  /** Exactness: an equality's known answer is right on every row if and only if the spellings are faithful. */
  lemma EqualityAnswerIsRightExactlyWhenFaithful<V(!new)>(number: Numbers, db: Database<V>, op: Comparison, a: Operand, b: Operand, p: V, q: V)
    requires Ordered(db) && !db.equal(p, q) && EqualityOp(op)
    ensures RightOnEveryRow(number, db, op, a, b) <==> Faithful(number, db, op, a, b)
  {
    hide EqualFold, LiteralToken, Spelling, ColumnKey;
    if Faithful(number, db, op, a, b) {
      FaithfulIsRight(number, db, op, a, b);
    }
    if RightOnEveryRow(number, db, op, a, b) && !Faithful(number, db, op, a, b) {
      if EqualFold(Spelling(a), Spelling(b)) {
        if a.Column? && b.Column? {
          WrongRow(number, db, op, a, b, k => if k == ColumnKey(a) then p else q);
        } else if a.Column? || b.Column? {
          WrongRow(number, db, op, a, b, k => p);
          WrongRow(number, db, op, a, b, k => q);
        } else {
          WrongRow(number, db, op, a, b, k => p);
        }
      } else if a.Column? {
        var same := if b.Column? then p else db.literal(b);
        WrongRow(number, db, op, a, b, k => same);
      } else {
        WrongRow(number, db, op, a, b, k => db.literal(a));
      }
    }
  }

  /** The answer for a smaller left side, and for a smaller right side. */
  lemma OrderBothWays<V(!new)>(db: Database<V>, op: Comparison, low: V, high: V)
    requires Ordered(db) && !EqualityOp(op) && db.less(low, high)
    ensures Satisfies(db, op, low, high) == (op.Lt? || op.Le?) && Satisfies(db, op, high, low) == (op.Gt? || op.Ge?)
  {
  }

  /** With a column on one side only, or two columns, an order comparison comes out both ways. */
  lemma OrderVaries<V(!new)>(db: Database<V>, op: Comparison, a: Operand, b: Operand) returns (yes: Row<V>, no: Row<V>)
    requires Ordered(db) && Unbounded(db) && !EqualityOp(op)
    requires (a.Column? || b.Column?) && !(a.Column? && b.Column? && ColumnKey(a) == ColumnKey(b))
    ensures Satisfies(db, op, Value(db, yes, a), Value(db, yes, b)) && !Satisfies(db, op, Value(db, no, a), Value(db, no, b))
  {
    hide ColumnKey, Ordered, Satisfies;
    var x := db.literal(if a.Column? then b else a);
    assert BelowAndAbove(db, x);
    var low :| db.less(low, x);
    var high :| db.less(x, high);
    OrderBothWays(db, op, low, x);
    OrderBothWays(db, op, x, high);
    var key := ColumnKey(if a.Column? then a else b);
    var lower: Row<V> := k => if k == key then low else x;
    var upper: Row<V> := k => if k == key then high else x;
    assert Value(db, lower, if a.Column? then a else b) == low && Value(db, lower, if a.Column? then b else a) == x;
    assert Value(db, upper, if a.Column? then a else b) == high && Value(db, upper, if a.Column? then b else a) == x;
    yes, no := if (op.Lt? || op.Le?) == a.Column? then lower else upper, if (op.Lt? || op.Le?) == a.Column? then upper else lower;
  }

  /** The same for each order comparison, of literals or columns. */
  lemma OrderAnswerIsRightExactlyWhenFaithful<V(!new)>(number: Numbers, db: Database<V>, op: Comparison, a: Operand, b: Operand)
    requires Ordered(db) && Unbounded(db) && !EqualityOp(op)
    ensures RightOnEveryRow(number, db, op, a, b) <==> Faithful(number, db, op, a, b)
  {
    hide Spelling, ColumnKey, OrderAnswer, Unbounded, EqualFold, LiteralToken;
    OrderIsJudged(number, op, Spelling(a), Spelling(b));
    if Faithful(number, db, op, a, b) {
      FaithfulIsRight(number, db, op, a, b);
    }
    if RightOnEveryRow(number, db, op, a, b) && !Faithful(number, db, op, a, b) {
      if (a.Column? || b.Column?) && !(a.Column? && b.Column? && ColumnKey(a) == ColumnKey(b)) {
        var yes, no := OrderVaries(db, op, a, b);
        WrongRow(number, db, op, a, b, yes);
        WrongRow(number, db, op, a, b, no);
      } else {
        WrongRow(number, db, op, a, b, k => db.literal(a));
      }
    }
  }

  // ------------------------------------------------------------------
  // Whole formulas.

  predicate AllFaithful<V>(number: Numbers, db: Database<V>, f: Formula) {
    match f
    case Truth(_) => true
    case Compare(op, a, b) => Faithful(number, db, op, a, b)
    case Not(g) => AllFaithful(number, db, g)
    case And(g, h) => AllFaithful(number, db, g) && AllFaithful(number, db, h)
    case Or(g, h) => AllFaithful(number, db, g) && AllFaithful(number, db, h)
    case Paren(g) => AllFaithful(number, db, g)
  }

  lemma {:induction false} KnownIsTrue<V(!new)>(number: Numbers, db: Database<V>, row: Row<V>, f: Formula)
    requires Ordered(db) && AllFaithful(number, db, f)
    ensures Evaluate3(number, f).Known? ==> Evaluate3(number, f).value == Holds(db, row, f)
    decreases f
  {
    hide Judge, Faithful, Satisfies, Ordered;
    match f
    case Truth(_) =>
    case Compare(op, a, b) => KnownComparisonIsTrue(number, db, row, op, a, b);
    case Not(g) => KnownIsTrue(number, db, row, g);
    case And(g, h) => KnownIsTrue(number, db, row, g); KnownIsTrue(number, db, row, h);
    case Or(g, h) => KnownIsTrue(number, db, row, g); KnownIsTrue(number, db, row, h);
    case Paren(g) => KnownIsTrue(number, db, row, g);
  }

  /** No column; a literal that is written like a number reads as one. */
  predicate Ground(number: Numbers, f: Formula) {
    match f
    case Truth(_) => true
    case Compare(_, a, b) => GroundOperand(number, a) && GroundOperand(number, b)
    case Not(g) => Ground(number, g)
    case And(g, h) => Ground(number, g) && Ground(number, h)
    case Or(g, h) => Ground(number, g) && Ground(number, h)
    case Paren(g) => Ground(number, g)
  }

  predicate GroundOperand(number: Numbers, o: Operand) {
    match o
    case Column(_) => false
    case Number(_) => number(Spelling(o)).Some?
    case Text(_) => HasPrefix(Spelling(o), "'") && number(Spelling(o)).None?
  }

  /** A comparison of two literals the folder decides: each is one token, and only numbers are ordered. */
  predicate Plain(op: Comparison, a: Operand, b: Operand) {
    Single(a) && Single(b) && (EqualityOp(op) || (a.Number? && b.Number?))
  }

  lemma GroundComparison(number: Numbers, op: Comparison, a: Operand, b: Operand)
    requires GroundOperand(number, a) && GroundOperand(number, b)
    ensures Judge(number, op, a, b).Known? <==> Plain(op, a, b)
  {
    hide EqualFold, Spelling;
    if !EqualityOp(op) {
      OrderIsJudged(number, op, Spelling(a), Spelling(b));
    }
  }

  /** The plain comparisons settle the formula, whatever the others say. */
  predicate Settled<V>(db: Database<V>, row: Row<V>, f: Formula) {
    match f
    case Truth(_) => true
    case Compare(op, a, b) => Plain(op, a, b)
    case Not(g) => Settled(db, row, g)
    case And(g, h) =>
      || (Settled(db, row, g) && Settled(db, row, h))
      || (Settled(db, row, g) && !Holds(db, row, g)) || (Settled(db, row, h) && !Holds(db, row, h))
    case Or(g, h) =>
      || (Settled(db, row, g) && Settled(db, row, h))
      || (Settled(db, row, g) && Holds(db, row, g)) || (Settled(db, row, h) && Holds(db, row, h))
    case Paren(g) => Settled(db, row, g)
  }

  /** A formula without columns is decided exactly when its plain comparisons settle it. */
  lemma {:induction false} GroundIsKnownExactly<V(!new)>(number: Numbers, db: Database<V>, row: Row<V>, f: Formula)
    requires Ground(number, f) && Ordered(db) && AllFaithful(number, db, f)
    ensures Evaluate3(number, f) == if Settled(db, row, f) then Known(Holds(db, row, f)) else Unknown
    decreases f
  {
    hide Judge, Faithful, Satisfies, Ordered, Plain, GroundOperand;
    KnownIsTrue(number, db, row, f);
    match f
    case Truth(_) =>
    case Compare(op, a, b) => GroundComparison(number, op, a, b);
    case Not(g) => GroundIsKnownExactly(number, db, row, g);
    case And(g, h) => GroundIsKnownExactly(number, db, row, g); GroundIsKnownExactly(number, db, row, h);
    case Or(g, h) => GroundIsKnownExactly(number, db, row, g); GroundIsKnownExactly(number, db, row, h);
    case Paren(g) => GroundIsKnownExactly(number, db, row, g);
  }

  predicate AllPlain(f: Formula) {
    match f
    case Truth(_) => true
    case Compare(op, a, b) => Plain(op, a, b)
    case Not(g) => AllPlain(g)
    case And(g, h) => AllPlain(g) && AllPlain(h)
    case Or(g, h) => AllPlain(g) && AllPlain(h)
    case Paren(g) => AllPlain(g)
  }

  lemma {:induction false} PlainIsSettled<V(!new)>(db: Database<V>, row: Row<V>, f: Formula)
    requires AllPlain(f)
    ensures Settled(db, row, f)
    decreases f
  {
    hide Plain;
    match f
    case Truth(_) =>
    case Compare(_, _, _) =>
    case Not(g) => PlainIsSettled(db, row, g);
    case And(g, h) => PlainIsSettled(db, row, g); PlainIsSettled(db, row, h);
    case Or(g, h) => PlainIsSettled(db, row, g); PlainIsSettled(db, row, h);
    case Paren(g) => PlainIsSettled(db, row, g);
  }
}
