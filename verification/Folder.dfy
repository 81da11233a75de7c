/** The constant folder that decides whether a WHERE clause holds on every row.
    It works on token slices; `Fold` is what it answers and the method
    `ConstantBoolean` is the program's recursion with its inner loop. */
module Folder {
  import opened Prelude
  import opened Bytes
  import opened Lexer

  datatype Verdict = Unknown | Known(value: bool)

  /** A float64, its rounding aside. */
  datatype Float = Finite(value: real) | PosInf | NegInf | NaN {
    predicate Less(other: Float) {
      match (this, other)
      case (Finite(x), Finite(y)) => x < y
      case (NegInf, Finite(_)) => true
      case (NegInf, PosInf) => true
      case (Finite(_), PosInf) => true
      case _ => false
    }

    /** Equal as Go compares: NaN equals nothing. */
    predicate Equal(other: Float) {
      !NaN? && this == other
    }
  }

  /** strconv.ParseFloat, as the caller supplies it; None where it reports an error. */
  type Numbers = string -> Option<Float>

  predicate LiteralToken(number: Numbers, text: string) {
    number(text).Some? || HasPrefix(text, "'") || HasPrefix(text, "N'") || HasPrefix(text, "n'")
  }

  predicate WrapsAll(ts: seq<Token>) {
    && |ts| >= 2
    && ts[0].text == "(" && ts[|ts| - 1].text == ")"
    && ts[0].depth == ts[|ts| - 1].depth
    && forall k :: 0 < k < |ts| - 1 ==> ts[k].depth > ts[0].depth
  }

  function Strip(ts: seq<Token>): (r: seq<Token>)
    ensures |r| <= |ts|
  {
    if WrapsAll(ts) then Strip(ts[1..|ts| - 1]) else ts
  }

  /** Next top-level operator at or after i. */
  function NextOp(ts: seq<Token>, depth: nat, op: string, i: nat): (e: nat)
    requires i <= |ts|
    ensures i <= e <= |ts|
    ensures e < |ts| ==> ts[e].depth == depth && ts[e].Keyword(op)
    ensures forall k :: i <= k < e ==> !(ts[k].depth == depth && ts[k].Keyword(op))
    decreases |ts| - i
  {
    if i == |ts| || (ts[i].depth == depth && ts[i].Keyword(op)) then i else NextOp(ts, depth, op, i + 1)
  }

  predicate HasOp(ts: seq<Token>, depth: nat, op: string) {
    NextOp(ts, depth, op, 0) < |ts|
  }

  predicate Decides(op: string, v: Verdict) {
    v == Known(op == "or")
  }

  /** Three-valued "or" and "and". */
  function Combine(op: string, v: Verdict, w: Verdict): Verdict {
    if Decides(op, v) || Decides(op, w) then Known(op == "or")
    else if v.Unknown? || w.Unknown? then Unknown
    else Known(op == "and")
  }

  function Negate(v: Verdict): Verdict {
    match v case Unknown => Unknown case Known(b) => Known(!b)
  }

  function CompareThree(number: Numbers, left: string, op: string, right: string): Verdict {
    if op == "=" then
      if EqualFold(left, right) then Known(true)
      else if LiteralToken(number, left) && LiteralToken(number, right) then Known(false)
      else Unknown
    else if number(left).Some? && number(right).Some? && op == ">" then Known(number(right).value.Less(number(left).value))
    else if number(left).Some? && number(right).Some? && op == "<" then Known(number(left).value.Less(number(right).value))
    else Unknown
  }

  function CompareFour(number: Numbers, left: string, op: string, right: string): Verdict {
    if op == "!=" || op == "<>" then
      if EqualFold(left, right) then Known(false)
      else if LiteralToken(number, left) && LiteralToken(number, right) then Known(true)
      else Unknown
    else if (op == "<=" || op == ">=") && number(left).Some? && number(right).Some? then
      var x, y := number(left).value, number(right).value;
      Known(if op == "<=" then x.Less(y) || x.Equal(y) else y.Less(x) || x.Equal(y))
    else Unknown
  }

  /** A slice with no top-level operator: a truth value, a comparison, or something else. */
  function Leaf(number: Numbers, ts: seq<Token>): Verdict {
    if |ts| == 1 && ts[0].Keyword("true") then Known(true)
    else if |ts| == 1 && ts[0].Keyword("false") then Known(false)
    else if |ts| == 3 then CompareThree(number, ts[0].text, ts[1].text, ts[2].text)
    else if |ts| == 4 then CompareFour(number, ts[0].text, ts[1].text + ts[2].text, ts[3].text)
    else Unknown
  }

  function Fold(number: Numbers, tokens: seq<Token>): Verdict
    decreases |tokens|, 2, 0
  {
    var ts := Strip(tokens);
    if ts == [] then Unknown
    else if HasOp(ts, ts[0].depth, "or") then FoldOperands(number, ts, ts[0].depth, "or", 0)
    else if HasOp(ts, ts[0].depth, "and") then FoldOperands(number, ts, ts[0].depth, "and", 0)
    else if |ts| >= 2 && ts[0].Keyword("not") then Negate(Fold(number, ts[1..]))
    else Leaf(number, ts)
  }

  /** Folds what the operator separates, from the operand that starts at `start`. */
  function FoldOperands(number: Numbers, ts: seq<Token>, depth: nat, op: string, start: nat): Verdict
    requires start <= |ts| && HasOp(ts, depth, op)
    decreases |ts|, 1, |ts| - start
  {
    var e := NextOp(ts, depth, op, start);
    var v := Fold(number, ts[start..e]);
    if e == |ts| then v else Combine(op, v, FoldOperands(number, ts, depth, op, e + 1))
  }

  // ------------------------------------------------------------------
  // The program.

  method ConstantBoolean(number: Numbers, tokens: seq<Token>) returns (known: bool, value: bool)
    ensures known <==> Fold(number, tokens).Known?
    ensures known ==> Fold(number, tokens) == Known(value)
    decreases |tokens|
  {
    hide Leaf, WrapsAll;
    var ts := tokens;
    while WrapsAll(ts)
      invariant |ts| <= |tokens| && Strip(ts) == Strip(tokens)
      decreases |ts|
    {
      WrapIsTwo(ts);
      ts := ts[1..|ts| - 1];
    }
    if |ts| == 0 {
      return false, false;
    }
    assert Strip(tokens) == ts;
    var depth := ts[0].depth;
    if HasOp(ts, depth, "or") {
      known, value := FoldOver(number, ts, depth, "or");
      return;
    }
    if HasOp(ts, depth, "and") {
      known, value := FoldOver(number, ts, depth, "and");
      return;
    }
    if |ts| >= 2 && ts[0].Keyword("not") {
      known, value := ConstantBoolean(number, ts[1..]);
      return known, !value;
    }
    var v := Leaf(number, ts);
    return v.Known?, v.Known? && v.value;
  }

  lemma WrapIsTwo(ts: seq<Token>)
    requires WrapsAll(ts)
    ensures |ts| >= 2 && Strip(ts) == Strip(ts[1..|ts| - 1])
  {
  }

  lemma OperandStep(number: Numbers, ts: seq<Token>, depth: nat, op: string, start: nat)
    requires start <= |ts| && HasOp(ts, depth, op)
    ensures FoldOperands(number, ts, depth, op, start)
         == if NextOp(ts, depth, op, start) == |ts| then Fold(number, ts[start..])
            else Combine(op, Fold(number, ts[start..NextOp(ts, depth, op, start)]),
                         FoldOperands(number, ts, depth, op, NextOp(ts, depth, op, start) + 1))
  {
    hide Fold, HasOp;
    assert ts[start..|ts|] == ts[start..];
  }

  /** An operand shorter than its slice. */
  lemma OperandIsShorter(ts: seq<Token>, depth: nat, op: string, start: nat)
    requires start <= |ts| && HasOp(ts, depth, op)
    ensures |ts[start..NextOp(ts, depth, op, start)]| < |ts|
  {
  }

  /** The inner loop: operand after operand, stopping at the first one that decides. */
  method FoldOver(number: Numbers, ts: seq<Token>, depth: nat, op: string) returns (known: bool, value: bool)
    requires HasOp(ts, depth, op) && (op == "or" || op == "and")
    ensures known <==> FoldOperands(number, ts, depth, op, 0).Known?
    ensures known ==> FoldOperands(number, ts, depth, op, 0) == Known(value)
    decreases |ts|, 0
  {
    hide Fold, FoldOperands, HasOp;
    var allKnown, start := true, 0;
    ghost var whole := FoldOperands(number, ts, depth, op, 0);
    while true
      invariant start <= |ts|
      invariant whole == if start == 0 then FoldOperands(number, ts, depth, op, 0)
                         else Combine(op, if allKnown then Known(op == "and") else Unknown, FoldOperands(number, ts, depth, op, start))
      invariant start == 0 ==> allKnown
      decreases |ts| - start
    {
      OperandStep(number, ts, depth, op, start);
      OperandIsShorter(ts, depth, op, start);
      var e := NextOp(ts, depth, op, start);
      assert e == |ts| ==> ts[start..e] == ts[start..];
      var operandKnown, operand := ConstantBoolean(number, ts[start..e]);
      if !operandKnown {
        allKnown := false;
      } else if operand == (op == "or") {
        return true, operand;
      }
      if e == |ts| {
        break;
      }
      start := e + 1;
    }
    known, value := allKnown, op == "and";
  }
}
