/** Routine definitions: what a body with blocks is, said of its structure, and that the splitter keeps it whole. */
module Routine {
  import opened Prelude
  import opened Bytes
  import opened Lexer
  import opened Window
  import opened Splitter
  import opened Suffix
  import opened Source

  /** Code by its blocks, as the engines nest them. */
  datatype Code =
    | Nothing
    | Plain(t: Token, rest: Code)
    | Block(open: Token, body: Code, end: Token, rest: Code)                        // BEGIN .. END, and CASE .. END in an expression
    | Compound(open: Token, body: Code, end: Token, again: Token, rest: Code)       // IF .. END IF, LOOP .. END LOOP and the like
    | CaseStatement(open: Token, body: Code, end: Token, again: Token, rest: Code)  // MySQL's CASE .. END CASE
    | Transaction(begin: Token, what: Token, rest: Code)                            // BEGIN TRANSACTION

  function Print(c: Code): seq<Token> {
    match c
    case Nothing => []
    case Plain(t, rest) => [t] + Print(rest)
    case Block(open, body, end, rest) => [open] + Print(body) + [end] + Print(rest)
    case Compound(open, body, end, again, rest) => [open] + Print(body) + [end, again] + Print(rest)
    case CaseStatement(open, body, end, again, rest) => [open] + Print(body) + [end, again] + Print(rest)
    case Transaction(begin, what, rest) => [begin, what] + Print(rest)
  }

  predicate Says(t: Token, word: string) {
    t.lower == word && t.depth == 0 && t.text != ";"
  }

  predicate SaysOneOf(t: Token, words: seq<string>) {
    t.lower in words && t.depth == 0 && t.text != ";"
  }

  /** The first word of the code, or of what follows it. */
  function FirstWord(c: Code, next: string): string {
    if Print(c) == [] then next else Print(c)[0].lower
  }

  predicate WellFormed(c: Code) {
    match c
    case Nothing => true
    case Plain(t, rest) => !(t.lower == "end" && t.depth == 0) && (t.text == ";" ==> t.lower == ";") && WellFormed(rest)
    case Block(open, body, end, rest) =>
      && (Says(open, "case") || (Says(open, "begin") && FirstWord(body, "end") !in ["tran", "transaction", "distributed", "work"]))
      && Says(end, "end") && WellFormed(body) && WellFormed(rest)
    case Compound(open, body, end, again, rest) =>
      SaysOneOf(open, ["if", "loop", "while", "repeat"]) && Says(end, "end") && Says(again, open.lower) && WellFormed(body) && WellFormed(rest)
    case CaseStatement(open, body, end, again, rest) =>
      Says(open, "case") && Says(end, "end") && Says(again, "case") && WellFormed(body) && WellFormed(rest)
    case Transaction(begin, what, rest) =>
      Says(begin, "begin") && SaysOneOf(what, ["tran", "transaction", "distributed", "work"]) && WellFormed(rest)
  }

  /** No semicolon stands outside every block: not in parentheses, BEGIN or CASE. */
  predicate OneStatement(c: Code) {
    match c
    case Nothing => true
    case Plain(t, rest) => !(t.text == ";" && t.depth == 0) && OneStatement(rest)
    case Block(_, _, _, rest) => OneStatement(rest)
    case Compound(_, body, _, _, rest) => OneStatement(body) && OneStatement(rest)
    case CaseStatement(_, _, _, _, rest) => OneStatement(rest)
    case Transaction(_, _, rest) => OneStatement(rest)
  }

  /** A name at depth 0, quoted or after a dot, that is spelled like a word that opens a block. */
  predicate LooksOpen(t: Token, next: string) {
    t.depth == 0 && (t.lower == "case" || (t.lower == "begin" && next !in ["tran", "transaction", "distributed", "work"]))
  }

  /** How often the counting of blocks goes wrong: at every CASE statement, whose END CASE counts as an END and one more CASE,
      at every block whose END is followed by the word of a new IF, LOOP, WHILE or REPEAT, and at every name that looks like a block. */
  function Miscounts(c: Code, next: string): nat {
    match c
    case Nothing => 0
    case Plain(t, rest) => (if LooksOpen(t, FirstWord(rest, next)) then 1 else 0) + Miscounts(rest, next)
    case Block(_, body, _, rest) =>
      Miscounts(body, "end") + (if FirstWord(rest, next) in ["if", "loop", "while", "repeat"] then 1 else 0) + Miscounts(rest, next)
    case Compound(_, body, _, _, rest) => Miscounts(body, "end") + Miscounts(rest, next)
    case CaseStatement(_, body, _, _, rest) => Miscounts(body, "end") + 1 + Miscounts(rest, next)
    case Transaction(_, _, rest) => Miscounts(rest, next)
  }

  // ------------------------------------------------------------------
  // The scan over a body.

  function NextOf(ts: seq<Token>, i: nat): string {
    if i < |ts| then ts[i].lower else ""
  }

  /** From token i on, `part` comes first. */
  predicate Holds(ts: seq<Token>, i: nat, part: seq<Token>) {
    i + |part| <= |ts| && ts[i..i + |part|] == part
  }

  lemma HoldsParts(ts: seq<Token>, i: nat, a: seq<Token>, b: seq<Token>)
    requires Holds(ts, i, a + b)
    ensures Holds(ts, i, a) && Holds(ts, i + |a|, b)
  {
    var part := a + b;
    assert part[..|a|] == a && part[|a|..] == b;
    assert ts[i..i + |a|] == ts[i..i + |part|][..|a|];
    assert ts[i + |a|..i + |a| + |b|] == ts[i..i + |part|][|a|..];
  }

  lemma HoldsOne(ts: seq<Token>, i: nat, t: Token)
    requires Holds(ts, i, [t])
    ensures i < |ts| && ts[i] == t
  {
    assert ts[i..i + 1][0] == ts[i];
  }

  lemma HoldsFirst(ts: seq<Token>, i: nat, c: Code)
    requires Holds(ts, i, Print(c))
    ensures NextOf(ts, i) == FirstWord(c, NextOf(ts, i + |Print(c)|))
  {
    var part := Print(c);
    if part != [] {
      assert ts[i..i + |part|][0] == ts[i];
    }
  }

  /** A token that neither separates nor moves the count. */
  lemma Over(ts: seq<Token>, i: nat, blocks: nat)
    requires i < |ts| && (ts[i].depth == 0 ==> ts[i].lower !in ["begin", "case", "end"])
    requires blocks > 0 || !(ts[i].text == ";" && ts[i].depth == 0)
    ensures StatementEnd(ts, i, true, blocks) == StatementEnd(ts, i + 1, true, blocks)
  {
  }

  lemma OverOpen(ts: seq<Token>, i: nat, blocks: nat)
    requires i < |ts| && (Says(ts[i], "case") || (Says(ts[i], "begin") && NextOf(ts, i + 1) !in ["tran", "transaction", "distributed", "work"]))
    ensures StatementEnd(ts, i, true, blocks) == StatementEnd(ts, i + 1, true, blocks + 1)
  {
  }

  lemma OverEnd(ts: seq<Token>, i: nat, blocks: nat)
    requires i < |ts| && Says(ts[i], "end") && blocks > 0
    ensures StatementEnd(ts, i, true, blocks)
         == StatementEnd(ts, i + 1, true, if NextOf(ts, i + 1) in ["if", "loop", "while", "repeat"] then blocks else blocks - 1)
  {
  }

  lemma OverEndAgain(ts: seq<Token>, i: nat, blocks: nat)
    requires i + 1 < |ts| && Says(ts[i], "end") && SaysOneOf(ts[i + 1], ["if", "loop", "while", "repeat"])
    ensures StatementEnd(ts, i, true, blocks) == StatementEnd(ts, i + 2, true, blocks)
  {
  }

  lemma OverTransaction(ts: seq<Token>, i: nat, blocks: nat)
    requires i + 1 < |ts| && Says(ts[i], "begin") && SaysOneOf(ts[i + 1], ["tran", "transaction", "distributed", "work"])
    ensures StatementEnd(ts, i, true, blocks) == StatementEnd(ts, i + 2, true, blocks)
  {
  }

  lemma {:induction false} OverCode(ts: seq<Token>, i: nat, c: Code, blocks: nat)
    requires Holds(ts, i, Print(c)) && WellFormed(c) && (blocks > 0 || OneStatement(c))
    ensures StatementEnd(ts, i, true, blocks)
         == StatementEnd(ts, i + |Print(c)|, true, blocks + Miscounts(c, NextOf(ts, i + |Print(c)|)))
    decreases c
  {
    hide *;
    match c
    case Nothing => NothingPrinted(NextOf(ts, i));
    case Plain(_, _) => OverPlain(ts, i, c, blocks);
    case Block(_, _, _, _) => OverBlock(ts, i, c, blocks);
    case Compound(_, _, _, _, _) => OverCompound(ts, i, c, blocks);
    case CaseStatement(_, _, _, _, _) => OverCase(ts, i, c, blocks);
    case Transaction(_, _, _) => OverStart(ts, i, c, blocks);
  }

  lemma OverPlain(ts: seq<Token>, i: nat, c: Code, blocks: nat)
    requires c.Plain? && Holds(ts, i, Print(c)) && WellFormed(c) && (blocks > 0 || OneStatement(c))
    ensures StatementEnd(ts, i, true, blocks)
         == StatementEnd(ts, i + |Print(c)|, true, blocks + Miscounts(c, NextOf(ts, i + |Print(c)|)))
    decreases c, 0
  {
    hide *;
    var next := NextOf(ts, i + |Print(c)|);
    PrintPlain(c.t, c.rest);
    PlainFacts(c, next);
    HoldsParts(ts, i, [c.t], Print(c.rest));
    HoldsOne(ts, i, c.t);
    HoldsFirst(ts, i + 1, c.rest);
    OverToken(ts, i, blocks);
    OverCode(ts, i + 1, c.rest, blocks + (if LooksOpen(c.t, FirstWord(c.rest, next)) then 1 else 0));
  }

  lemma OverToken(ts: seq<Token>, i: nat, blocks: nat)
    requires i < |ts| && !(ts[i].lower == "end" && ts[i].depth == 0) && (ts[i].text == ";" ==> ts[i].lower == ";")
    requires blocks > 0 || !(ts[i].text == ";" && ts[i].depth == 0)
    ensures StatementEnd(ts, i, true, blocks)
         == StatementEnd(ts, i + 1, true, blocks + (if LooksOpen(ts[i], NextOf(ts, i + 1)) then 1 else 0))
  {
  }

  lemma PlainFacts(c: Code, next: string)
    requires c.Plain? && WellFormed(c)
    ensures WellFormed(c.rest) && (OneStatement(c) ==> OneStatement(c.rest) && !(c.t.text == ";" && c.t.depth == 0))
    ensures Miscounts(c, next) == (if LooksOpen(c.t, FirstWord(c.rest, next)) then 1 else 0) + Miscounts(c.rest, next)
    ensures !(c.t.lower == "end" && c.t.depth == 0) && (c.t.text == ";" ==> c.t.lower == ";")
  {
    hide LooksOpen, FirstWord;
  }

  lemma OverStart(ts: seq<Token>, i: nat, c: Code, blocks: nat)
    requires c.Transaction? && Holds(ts, i, Print(c)) && WellFormed(c) && (blocks > 0 || OneStatement(c))
    ensures StatementEnd(ts, i, true, blocks)
         == StatementEnd(ts, i + |Print(c)|, true, blocks + Miscounts(c, NextOf(ts, i + |Print(c)|)))
    decreases c, 0
  {
    hide *;
    PrintTransaction(c.begin, c.what, c.rest);
    StartFacts(c, NextOf(ts, i + |Print(c)|));
    HoldsParts(ts, i, [c.begin], [c.what] + Print(c.rest));
    HoldsParts(ts, i + 1, [c.what], Print(c.rest));
    HoldsOne(ts, i, c.begin);
    HoldsOne(ts, i + 1, c.what);
    OverTransaction(ts, i, blocks);
    OverCode(ts, i + 2, c.rest, blocks);
  }

  lemma StartFacts(c: Code, next: string)
    requires c.Transaction? && WellFormed(c)
    ensures WellFormed(c.rest) && (OneStatement(c) ==> OneStatement(c.rest)) && Miscounts(c, next) == Miscounts(c.rest, next)
    ensures Says(c.begin, "begin") && SaysOneOf(c.what, ["tran", "transaction", "distributed", "work"])
  {
  }

  lemma NothingPrinted(next: string)
    ensures Print(Nothing) == [] && Miscounts(Nothing, next) == 0
  {
  }

  lemma PrintPlain(t: Token, rest: Code)
    ensures Print(Code.Plain(t, rest)) == [t] + Print(rest)
  {
  }

  lemma PrintTransaction(begin: Token, what: Token, rest: Code)
    ensures Print(Transaction(begin, what, rest)) == [begin] + ([what] + Print(rest))
  {
    assert [begin, what] + Print(rest) == [begin] + ([what] + Print(rest));
  }

  lemma PrintBlock(open: Token, body: Code, end: Token, rest: Code)
    ensures Print(Block(open, body, end, rest)) == [open] + (Print(body) + ([end] + Print(rest)))
  {
  }

  lemma PrintAgain(c: Code)
    requires c.Compound? || c.CaseStatement?
    ensures Print(c) == [c.open] + (Print(c.body) + ([c.end] + ([c.again] + Print(c.rest))))
  {
    assert [c.end, c.again] == [c.end] + [c.again];
    assert Print(c) == [c.open] + Print(c.body) + ([c.end] + [c.again]) + Print(c.rest);
    Reassociate([c.open], Print(c.body), [c.end], [c.again], Print(c.rest));
  }

  lemma Reassociate(a: seq<Token>, b: seq<Token>, c: seq<Token>, d: seq<Token>, e: seq<Token>)
    ensures a + b + (c + d) + e == a + (b + (c + (d + e)))
  {
  }

  lemma BlockFacts(c: Code, next: string)
    requires c.Block? && WellFormed(c)
    ensures WellFormed(c.body) && WellFormed(c.rest) && Says(c.end, "end") && (OneStatement(c) ==> OneStatement(c.rest))
    ensures Says(c.open, "case") || (Says(c.open, "begin") && FirstWord(c.body, "end") !in ["tran", "transaction", "distributed", "work"])
    ensures Miscounts(c, next)
         == Miscounts(c.body, "end") + (if FirstWord(c.rest, next) in ["if", "loop", "while", "repeat"] then 1 else 0) + Miscounts(c.rest, next)
    ensures c.end.lower == "end"
  {
    hide FirstWord;
  }

  /** Where the parts of a block stand. */
  lemma BlockParts(ts: seq<Token>, i: nat, c: Code)
    requires c.Block? && Holds(ts, i, Print(c))
    ensures |Print(c)| == |Print(c.body)| + |Print(c.rest)| + 2
    ensures Holds(ts, i + 1, Print(c.body)) && Holds(ts, i + 2 + |Print(c.body)|, Print(c.rest))
    ensures i + 1 + |Print(c.body)| < |ts| && ts[i] == c.open && ts[i + 1 + |Print(c.body)|] == c.end
  {
    hide *;
    var j := i + 1 + |Print(c.body)|;
    PrintBlock(c.open, c.body, c.end, c.rest);
    HoldsParts(ts, i, [c.open], Print(c.body) + ([c.end] + Print(c.rest)));
    HoldsParts(ts, i + 1, Print(c.body), [c.end] + Print(c.rest));
    HoldsParts(ts, j, [c.end], Print(c.rest));
    HoldsOne(ts, i, c.open);
    HoldsOne(ts, j, c.end);
  }

  lemma OverBlock(ts: seq<Token>, i: nat, c: Code, blocks: nat)
    requires c.Block? && Holds(ts, i, Print(c)) && WellFormed(c) && (blocks > 0 || OneStatement(c))
    ensures StatementEnd(ts, i, true, blocks)
         == StatementEnd(ts, i + |Print(c)|, true, blocks + Miscounts(c, NextOf(ts, i + |Print(c)|)))
    decreases c, 0
  {
    hide *;
    var j, next := i + 1 + |Print(c.body)|, NextOf(ts, i + |Print(c)|);
    BlockParts(ts, i, c);
    BlockFacts(c, next);
    NextIs(ts, j);
    HoldsFirst(ts, i + 1, c.body);
    HoldsFirst(ts, j + 1, c.rest);
    OverOpen(ts, i, blocks);
    OverCode(ts, i + 1, c.body, blocks + 1);
    OverEnd(ts, j, blocks + 1 + Miscounts(c.body, "end"));
    OverCode(ts, j + 1, c.rest, blocks + Miscounts(c.body, "end") + (if FirstWord(c.rest, next) in ["if", "loop", "while", "repeat"] then 1 else 0));
  }

  lemma NextIs(ts: seq<Token>, i: nat)
    requires i < |ts|
    ensures NextOf(ts, i) == ts[i].lower
  {
  }

  lemma AgainFacts(c: Code, next: string)
    requires (c.Compound? || c.CaseStatement?) && WellFormed(c)
    ensures WellFormed(c.body) && WellFormed(c.rest) && Says(c.end, "end") && c.end.lower == "end" && (OneStatement(c) ==> OneStatement(c.rest))
    ensures c.Compound? ==> SaysOneOf(c.open, ["if", "loop", "while", "repeat"]) && SaysOneOf(c.again, ["if", "loop", "while", "repeat"])
    ensures c.Compound? ==> Miscounts(c, next) == Miscounts(c.body, "end") + Miscounts(c.rest, next) && (OneStatement(c) ==> OneStatement(c.body))
    ensures c.CaseStatement? ==> Says(c.open, "case") && Says(c.again, "case") && c.again.lower == "case"
    ensures c.CaseStatement? ==> Miscounts(c, next) == Miscounts(c.body, "end") + 1 + Miscounts(c.rest, next)
  {
  }

  /** Where the parts of a statement stand that closes with END and its own word. */
  lemma AgainParts(ts: seq<Token>, i: nat, c: Code)
    requires (c.Compound? || c.CaseStatement?) && Holds(ts, i, Print(c))
    ensures |Print(c)| == |Print(c.body)| + |Print(c.rest)| + 3
    ensures Holds(ts, i + 1, Print(c.body)) && Holds(ts, i + 3 + |Print(c.body)|, Print(c.rest))
    ensures i + 2 + |Print(c.body)| < |ts|
    ensures ts[i] == c.open && ts[i + 1 + |Print(c.body)|] == c.end && ts[i + 2 + |Print(c.body)|] == c.again
  {
    hide Holds, Print;
    var j := i + 1 + |Print(c.body)|;
    PrintAgain(c);
    HoldsParts(ts, i, [c.open], Print(c.body) + ([c.end] + ([c.again] + Print(c.rest))));
    HoldsParts(ts, i + 1, Print(c.body), [c.end] + ([c.again] + Print(c.rest)));
    HoldsParts(ts, j, [c.end], [c.again] + Print(c.rest));
    HoldsParts(ts, j + 1, [c.again], Print(c.rest));
    HoldsOne(ts, i, c.open);
    HoldsOne(ts, j, c.end);
    HoldsOne(ts, j + 1, c.again);
  }

  lemma OverWord(ts: seq<Token>, i: nat, blocks: nat)
    requires i < |ts| && SaysOneOf(ts[i], ["if", "loop", "while", "repeat"])
    ensures StatementEnd(ts, i, true, blocks) == StatementEnd(ts, i + 1, true, blocks)
  {
  }

  lemma OverCompound(ts: seq<Token>, i: nat, c: Code, blocks: nat)
    requires c.Compound? && Holds(ts, i, Print(c)) && WellFormed(c) && (blocks > 0 || OneStatement(c))
    ensures StatementEnd(ts, i, true, blocks)
         == StatementEnd(ts, i + |Print(c)|, true, blocks + Miscounts(c, NextOf(ts, i + |Print(c)|)))
    decreases c, 0
  {
    hide *;
    var j := i + 1 + |Print(c.body)|;
    AgainParts(ts, i, c);
    AgainFacts(c, NextOf(ts, i + |Print(c)|));
    NextIs(ts, j);
    OverWord(ts, i, blocks);
    OverCode(ts, i + 1, c.body, blocks);
    OverEndAgain(ts, j, blocks + Miscounts(c.body, "end"));
    OverCode(ts, j + 2, c.rest, blocks + Miscounts(c.body, "end"));
  }

  lemma OverCase(ts: seq<Token>, i: nat, c: Code, blocks: nat)
    requires c.CaseStatement? && Holds(ts, i, Print(c)) && WellFormed(c) && (blocks > 0 || OneStatement(c))
    ensures StatementEnd(ts, i, true, blocks)
         == StatementEnd(ts, i + |Print(c)|, true, blocks + Miscounts(c, NextOf(ts, i + |Print(c)|)))
    decreases c, 0
  {
    hide *;
    var j := i + 1 + |Print(c.body)|;
    AgainParts(ts, i, c);
    AgainFacts(c, NextOf(ts, i + |Print(c)|));
    NextIs(ts, j);
    OverOpen(ts, i, blocks);
    OverCode(ts, i + 1, c.body, blocks + 1);
    OverEndCase(ts, j, blocks + 1 + Miscounts(c.body, "end"));
    OverCode(ts, j + 2, c.rest, blocks + Miscounts(c.body, "end") + 1);
  }

  lemma OverEndCase(ts: seq<Token>, j: nat, blocks: nat)
    requires j + 1 < |ts| && Says(ts[j], "end") && Says(ts[j + 1], "case") && blocks > 0
    ensures StatementEnd(ts, j, true, blocks) == StatementEnd(ts, j + 2, true, blocks)
  {
    hide StatementEnd;
    OverEnd(ts, j, blocks);
    OverOpen(ts, j + 1, blocks - 1);
  }

  // ------------------------------------------------------------------
  // Which statements are routine definitions, and where each ends.

  predicate KindWord(word: string) {
    word == "procedure" || word == "proc" || word == "function" || word == "trigger" || word == "event"
  }

  predicate OtherObject(word: string) {
    word in {"table", "view", "index", "unique", "schema", "database", "sequence", "type", "user", "role", "materialized",
             "temporary", "temp", "extension", "as", "select"}
  }

  /** A word that may stand between CREATE and the kind of the routine, OR REPLACE and DEFINER = x among them. */
  predicate Between(t: Token) {
    t.depth == 0 && !KindWord(t.lower) && !OtherObject(t.lower)
  }

  /** CREATE, at most fourteen words of no other object, and the kind of a routine. */
  predicate Header(ts: seq<Token>, k: nat) {
    0 < k < |ts| && k < 16 && ts[0].lower == "create" && ts[k].depth == 0 && KindWord(ts[k].lower) && forall j :: 0 < j < k ==> Between(ts[j])
  }

  lemma WordLists(w: string)
    ensures KindWord(w) <==> RoutineWord(w)
    ensures OtherObject(w) <==> NotRoutineWord(w)
  {
  }

  lemma {:induction false} WordsRead(ts: seq<Token>, i: nat, limit: nat)
    requires limit <= |ts|
    ensures RoutineWords(ts, i, limit) <==>
              exists k :: i <= k < limit && ts[k].depth == 0 && KindWord(ts[k].lower) && forall j :: i <= j < k ==> Between(ts[j])
    decreases limit - i
  {
    hide KindWord, OtherObject, RoutineWord, NotRoutineWord;
    if i < limit {
      WordLists(ts[i].lower);
      WordsRead(ts, i + 1, limit);
      if Between(ts[i]) && RoutineWords(ts, i + 1, limit) {
        var k :| i + 1 <= k < limit && ts[k].depth == 0 && KindWord(ts[k].lower) && forall j :: i + 1 <= j < k ==> Between(ts[j]);
        assert forall j :: i <= j < k ==> Between(ts[j]);
      }
    }
  }

  /** A statement is a routine definition exactly by its header. */
  lemma RoutineByHeader(ts: seq<Token>)
    ensures RoutineDefinition(ts) <==> exists k: nat :: Header(ts, k)
  {
    hide Between, KindWord, RoutineWords;
    if |ts| > 0 {
      var limit := if |ts| < 16 then |ts| else 16;
      WordsRead(ts, 1, limit);
      if exists k: nat :: Header(ts, k) {
        var k: nat :| Header(ts, k);
        assert 1 <= k < limit;
      }
      if RoutineDefinition(ts) {
        var k: nat :| 1 <= k < limit && ts[k].depth == 0 && KindWord(ts[k].lower) && forall j :: 1 <= j < k ==> Between(ts[j]);
        assert Header(ts, k);
      }
    }
  }

  lemma {:induction false} FirstSemicolon(ts: seq<Token>, i: nat, blocks: nat)
    requires i <= |ts|
    ensures var q := StatementEnd(ts, i, false, blocks);
            && (q < |ts| ==> ts[q].text == ";" && ts[q].depth == 0)
            && (forall k :: i <= k < q ==> !(ts[k].text == ";" && ts[k].depth == 0))
    decreases |ts| - i
  {
    if i < |ts| && !Separates(ts, i, false, blocks) {
      FirstSemicolon(ts, i + 1, blocks);
    }
  }

  /** Every other statement ends at its first semicolon outside parentheses. */
  lemma OthersEndAtSemicolon(ts: seq<Token>, p: nat)
    requires p <= |ts| && !exists k: nat :: Header(ts[p..], k)
    ensures var q := EndFrom(ts, p);
            && (q < |ts| ==> ts[q].text == ";" && ts[q].depth == 0)
            && (forall k :: p <= k < q ==> !(ts[k].text == ";" && ts[k].depth == 0))
  {
    hide StatementEnd, RoutineDefinition;
    RoutineByHeader(ts[p..]);
    FirstSemicolon(ts, p, 0);
  }

  /** A definition: CREATE and the words before the kind, then the code with its blocks, the kind in front. */
  predicate Definition(head: seq<Token>, code: Code) {
    && |head| > 0 && Header(head + Print(code), |head|)
    && (forall j :: 0 <= j < |head| ==> head[j].text != ";" && (head[j].depth == 0 ==> head[j].lower !in ["begin", "case", "end"]))
    && WellFormed(code) && OneStatement(code)
  }

  lemma {:induction false} OverHead(ts: seq<Token>, i: nat, n: nat)
    requires i <= n <= |ts|
    requires forall j :: i <= j < n ==> ts[j].text != ";" && (ts[j].depth == 0 ==> ts[j].lower !in ["begin", "case", "end"])
    ensures StatementEnd(ts, i, true, 0) == StatementEnd(ts, n, true, 0)
    decreases n - i
  {
    hide StatementEnd;
    if i < n {
      Over(ts, i, 0);
      OverHead(ts, i + 1, n);
    }
  }

  /** Main result: the statement that starts with a definition ends at the semicolon after it, and at no earlier one;
      it ends there if and only if the blocks were never miscounted. */
  lemma DefinitionEnds(head: seq<Token>, code: Code, semi: Token, more: seq<Token>)
    requires Definition(head, code) && semi.text == ";" && semi.lower == ";" && semi.depth == 0
    ensures var ts, n := head + Print(code) + [semi] + more, |head| + |Print(code)|;
            EndFrom(ts, 0) >= n && (EndFrom(ts, 0) == n <==> Miscounts(code, ";") == 0)
  {
    hide *;
    var all := head + Print(code);
    var ts, n := all + [semi] + more, |all|;
    assert ts[n] == semi && ts[0..] == ts && ts == all + ([semi] + more);
    DefinitionFacts(head, code);
    HeaderGrows(all, [semi] + more, |head|);
    RoutineByHeader(ts);
    assert forall j :: 0 <= j < |head| ==> ts[j] == head[j];
    OverHead(ts, 0, |head|);
    HoldsBetween(head, Print(code), [semi] + more);
    OverCode(ts, |head|, code, 0);
    NextIs(ts, n);
    AtSemicolon(ts, n, Miscounts(code, ";"));
    FromStart(ts);
  }

  lemma DefinitionFacts(head: seq<Token>, code: Code)
    requires Definition(head, code)
    ensures Header(head + Print(code), |head|) && WellFormed(code) && OneStatement(code)
    ensures forall j :: 0 <= j < |head| ==> head[j].text != ";" && (head[j].depth == 0 ==> head[j].lower !in ["begin", "case", "end"])
  {
    hide Header, WellFormed, OneStatement, Print;
  }

  lemma HoldsBetween(a: seq<Token>, b: seq<Token>, c: seq<Token>)
    ensures Holds(a + b + c, |a|, b)
  {
    assert (a + b + c)[|a|..|a| + |b|] == b;
  }

  lemma FromStart(ts: seq<Token>)
    requires ts[0..] == ts
    ensures EndFrom(ts, 0) == StatementEnd(ts, 0, RoutineDefinition(ts), 0)
  {
  }

  lemma HeaderGrows(ts: seq<Token>, more: seq<Token>, k: nat)
    requires Header(ts, k)
    ensures Header(ts + more, k)
  {
    hide KindWord, Between;
    forall j | 0 < j < k ensures Between((ts + more)[j]) {
      assert (ts + more)[j] == ts[j];
    }
  }

  lemma AtSemicolon(ts: seq<Token>, n: nat, blocks: nat)
    requires n < |ts| && ts[n].text == ";" && ts[n].lower == ";" && ts[n].depth == 0
    ensures StatementEnd(ts, n, true, blocks) >= n && (StatementEnd(ts, n, true, blocks) == n <==> blocks == 0)
  {
  }

  // ------------------------------------------------------------------
  // The text: the definition whole, and then what the rest alone splits into.

  lemma SameToken(ts: seq<Token>, i: nat, us: seq<Token>, j: nat, routine: bool, blocks: nat)
    requires i < |ts| && j < |us| && ts[i].text == us[j].text && ts[i].lower == us[j].lower && ts[i].depth == us[j].depth
    requires NextLower(ts, i) == NextLower(us, j)
    ensures Blocks(ts, i, routine, blocks) == Blocks(us, j, routine, blocks)
    ensures Separates(ts, i, routine, blocks) == Separates(us, j, routine, blocks)
  {
    hide NextLower;
  }

  lemma MovedToken(ts: seq<Token>, base: nat, us: seq<Token>, k: nat, i: nat)
    requires base <= |ts| && ts[base..] == MoveAll(us, k) && i < |us|
    ensures |ts| == base + |us|
    ensures ts[base + i].text == us[i].text && ts[base + i].lower == us[i].lower && ts[base + i].depth == us[i].depth
    ensures NextLower(ts, base + i) == NextLower(us, i)
  {
    assert ts[base + i] == ts[base..][i] == Move(us[i], k);
    if i + 1 < |us| {
      assert ts[base + i + 1] == ts[base..][i + 1] == Move(us[i + 1], k);
    }
  }

  lemma {:induction false} EndMoved(ts: seq<Token>, base: nat, us: seq<Token>, k: nat, i: nat, routine: bool, blocks: nat)
    requires base <= |ts| && ts[base..] == MoveAll(us, k) && i <= |us|
    ensures StatementEnd(ts, base + i, routine, blocks) == base + StatementEnd(us, i, routine, blocks)
    decreases |us| - i
  {
    hide Blocks, Separates, NextLower;
    assert |ts| == base + |us|;
    if i < |us| {
      MovedToken(ts, base, us, k, i);
      SameToken(ts, base + i, us, i, routine, blocks);
      EndMoved(ts, base, us, k, i + 1, routine, Blocks(us, i, routine, blocks));
    }
  }

  lemma HeaderMoved(ts: seq<Token>, us: seq<Token>, k: nat)
    requires |ts| == |us| && forall i :: 0 <= i < |ts| ==> ts[i].lower == us[i].lower && ts[i].depth == us[i].depth
    ensures Header(ts, k) <==> Header(us, k)
  {
    hide KindWord, OtherObject;
  }

  lemma RoutineMoved(ts: seq<Token>, us: seq<Token>)
    requires |ts| == |us| && forall i :: 0 <= i < |ts| ==> ts[i].lower == us[i].lower && ts[i].depth == us[i].depth
    ensures RoutineDefinition(ts) <==> RoutineDefinition(us)
  {
    hide RoutineDefinition, Header;
    RoutineByHeader(ts);
    RoutineByHeader(us);
    forall k: nat ensures Header(ts, k) <==> Header(us, k) {
      HeaderMoved(ts, us, k);
    }
  }

  lemma StatementMoved(ts: seq<Token>, base: nat, us: seq<Token>, k: nat, p: nat)
    requires base <= |ts| && ts[base..] == MoveAll(us, k) && p <= |us|
    ensures EndFrom(ts, base + p) == base + EndFrom(us, p)
  {
    hide RoutineDefinition, StatementEnd;
    assert ts[base + p..] == ts[base..][p..];
    RoutineMoved(ts[base + p..], us[p..]);
    EndMoved(ts, base, us, k, p, RoutineDefinition(us[p..]), 0);
  }

  lemma PieceMoved(s: string, k: nat, rest: string, a: nat, b: nat)
    requires k <= |s| && s[k..] == rest
    ensures Piece(s, k + a, k + b) == Piece(rest, a, b)
  {
    hide TrimSpace;
    if a <= b <= |rest| {
      var cut := s[k + a..k + b];
      assert forall i :: 0 <= i < b - a ==> cut[i] == s[k + a + i] && rest[a..b][i] == s[k..][a + i];
      assert cut == rest[a..b];
    }
  }

  /** The rest of a script is cut as it would be alone. */
  lemma {:induction false} RestSplits(s: string, ts: seq<Token>, base: nat, rest: string, us: seq<Token>, k: nat, p: nat, start: nat)
    requires k <= |s| && s[k..] == rest && base <= |ts| && ts[base..] == MoveAll(us, k) && p <= |us|
    ensures Pieces(s, Segments(s, ts, base + p, k + start)) == Pieces(rest, Segments(rest, us, p, start))
    decreases |us| - p
  {
    hide *;
    var q := EndFrom(us, p);
    StatementMoved(ts, base, us, k, p);
    SegmentsFrom(s, ts, base + p, k + start);
    SegmentsFrom(rest, us, p, start);
    assert |ts| == base + |us|;
    if q == |us| {
      PieceMoved(s, k, rest, start, |rest|);
    } else {
      assert ts[base + q] == ts[base..][q] == Move(us[q], k);
      MovedEnds(us[q], k);
      PieceMoved(s, k, rest, start, us[q].start);
      RestSplits(s, ts, base, rest, us, k, q + 1, us[q].end);
    }
  }

  lemma MovedEnds(t: Token, k: nat)
    ensures Move(t, k).start == t.start + k && Move(t, k).end == t.end + k
  {
  }

  lemma SemicolonFirst(d: Dialect, rest: string)
    requires Lex(d, rest).Ok?
    ensures Lex(d, ";" + rest) == Ok([Token(";", ";", 0, 1, 0, false, false)] + MoveAll(Lex(d, rest).value, 1))
  {
    hide LexFrom;
    var x := Item.Plain(Render.Mark(';'));
    assert ItemText(x) == ";" && [x][1..] == [] && SourceText([x]) == ";";
    assert AllRead(d, [x], rest, 0, 0);
    LexReadsSource(d, [x], rest, 0, 0);
    assert SourceTokens([x], 0, 0) == [Token(";", ";", 0, 1, 0, false, false)];
  }

  lemma MoveSemicolon(us: seq<Token>, n: nat)
    ensures MoveAll([Token(";", ";", 0, 1, 0, false, false)] + MoveAll(us, 1), n) == [Token(";", ";", n, n + 1, 0, false, false)] + MoveAll(us, n + 1)
  {
  }

  lemma ScriptTokens(d: Dialect, xs: seq<Item>, rest: string)
    requires AllRead(d, xs, ";" + rest, 0, 0) && DepthAfterAll(xs, 0) == 0 && ExecutableAfterAll(xs, 0) == 0 && Lex(d, rest).Ok?
    ensures Lex(d, SourceText(xs) + (";" + rest))
         == Ok(SourceTokens(xs, 0, 0)
               + ([Token(";", ";", |SourceText(xs)|, |SourceText(xs)| + 1, 0, false, false)] + MoveAll(Lex(d, rest).value, |SourceText(xs)| + 1)))
  {
    hide LexFrom, AllRead, SourceTokens, DepthAfterAll, ExecutableAfterAll, SourceText;
    LexReadsSource(d, xs, ";" + rest, 0, 0);
    SemicolonFirst(d, rest);
    MoveSemicolon(Lex(d, rest).value, |SourceText(xs)|);
  }

  /** Main result: in a script, a routine definition, with whatever comments and literals its text has, is returned whole,
      and what follows its semicolon is split as it would be alone, if its blocks are not miscounted. */
  lemma DefinitionIsOnePiece(d: Dialect, xs: seq<Item>, head: seq<Token>, code: Code, rest: string)
    requires AllRead(d, xs, ";" + rest, 0, 0) && DepthAfterAll(xs, 0) == 0 && ExecutableAfterAll(xs, 0) == 0
    requires SourceTokens(xs, 0, 0) == head + Print(code) && Definition(head, code) && Miscounts(code, ";") == 0
    requires Lex(d, rest).Ok?
    ensures Split(d, SourceText(xs) + (";" + rest)) == Ok(Piece(SourceText(xs), 0, |SourceText(xs)|) + Split(d, rest).value)
  {
    hide *;
    var s, n, us := SourceText(xs) + (";" + rest), |SourceText(xs)|, Lex(d, rest).value;
    var semi := Token(";", ";", n, n + 1, 0, false, false);
    var all := head + Print(code);
    var ts := all + ([semi] + MoveAll(us, n + 1));
    ScriptTokens(d, xs, rest);
    SplitLexed(d, s);
    SplitLexed(d, rest);
    DefinitionEnds(head, code, semi, MoveAll(us, n + 1));
    assert ts == all + [semi] + MoveAll(us, n + 1);
    assert ts[|all|] == semi && ts[|all| + 1..] == MoveAll(us, n + 1);
    SegmentsFrom(s, ts, 0, 0);
    assert s[n + 1..] == rest && s[0..n] == SourceText(xs)[0..n];
    RestSplits(s, ts, |all| + 1, rest, us, n + 1, 0, 0);
    FirstPiece(s, SourceText(xs), n);
  }

  lemma FirstPiece(s: string, text: string, n: nat)
    requires n == |text| <= |s| && s[0..n] == text[0..n]
    ensures Piece(s, 0, n) == Piece(text, 0, n)
  {
    hide TrimSpace;
  }

  lemma LetterIsKept(text: string, j: nat)
    requires j < |text| && Letter(text[j])
    ensures Piece(text, 0, |text|) == [TrimSpace(text)]
  {
    assert text[0..|text|] == text;
    assert TrimLow(text) <= j < TrimHigh(text);
  }

  /** A definition whose CREATE is a bare word makes a piece. */
  lemma DefinitionIsKept(d: Dialect, xs: seq<Item>, head: seq<Token>, code: Code)
    requires AllRead(d, xs, "", 0, 0) && DepthAfterAll(xs, 0) == 0
    requires SourceTokens(xs, 0, 0) == head + Print(code) && Definition(head, code) && ToLower(head[0].text) == "create"
    ensures Piece(SourceText(xs), 0, |SourceText(xs)|) == [TrimSpace(SourceText(xs))]
  {
    hide AllRead, SourceTokens, SourceText, Header, WellFormed, OneStatement, LexFrom, Print, TrimSpace;
    var text := SourceText(xs);
    LexReadsSource(d, xs, "", 0, 0);
    assert text + "" == text;
    EmptyLexes(d, ExecutableAfterAll(xs, 0));
    var ts := SourceTokens(xs, 0, 0);
    assert ts + [] == ts;
    WholeInOrder(d, text);
    assert ts[0] == head[0] && ts[0].text == text[ts[0].start..ts[0].end];
    assert ToLower(ts[0].text)[0] == 'c' && ts[0].text[0] == text[ts[0].start];
    LetterIsKept(text, ts[0].start);
  }

  lemma EmptyLexes(d: Dialect, executable: nat)
    ensures MoveResult(LexFrom(d, "", 0, 0, executable), 0) == Ok([])
  {
  }

  // ------------------------------------------------------------------
  // Examples.

  function WordToken(w: string): Token {
    Token(w, w, 0, 0, 0, true, false)
  }

  function QuotedToken(w: string): Token {
    Token("\"" + w + "\"", w, 0, 0, 0, true, true)
  }

  function Words(ws: seq<string>, rest: Code): Code {
    if ws == [] then rest else Code.Plain(WordToken(ws[0]), Words(ws[1..], rest))
  }

  predicate Ordinary(w: string) {
    w != "end" && w != "case" && w != "begin"
  }

  lemma {:induction false} WordsFacts(ws: seq<string>, rest: Code, next: string)
    requires forall i :: 0 <= i < |ws| ==> Ordinary(ws[i])
    ensures WellFormed(Words(ws, rest)) <==> WellFormed(rest)
    ensures Miscounts(Words(ws, rest), next) == Miscounts(rest, next)
    ensures ";" !in ws ==> (OneStatement(Words(ws, rest)) <==> OneStatement(rest))
    ensures FirstWord(Words(ws, rest), next) == if ws == [] then FirstWord(rest, next) else ws[0]
    decreases |ws|
  {
    if ws != [] {
      WordsFacts(ws[1..], rest, next);
    }
  }

  function Procedure(body: Code): Code {
    Words(["procedure", "p"], Code.Block(WordToken("begin"), body, WordToken("end"), Nothing))
  }

  lemma ProcedureIsDefined(body: Code)
    requires WellFormed(body) && FirstWord(body, "end") !in ["tran", "transaction", "distributed", "work"]
    ensures Definition([WordToken("create")], Procedure(body))
    ensures Miscounts(Procedure(body), ";") == Miscounts(body, "end")
  {
    hide FirstWord, KindWord, OtherObject;
    var block := Code.Block(WordToken("begin"), body, WordToken("end"), Nothing);
    WordsFacts(["procedure", "p"], block, ";");
    assert FirstWord(Nothing, ";") == ";" by { NothingFirst(); }
    ProcedureHeader(body);
  }

  lemma NothingFirst()
    ensures FirstWord(Nothing, ";") == ";"
  {
  }

  lemma ProcedureHeader(body: Code)
    ensures Header([WordToken("create")] + Print(Procedure(body)), 1)
  {
    var code := Procedure(body);
    assert code == Code.Plain(WordToken("procedure"), code.rest);
    assert ([WordToken("create")] + Print(code))[1] == WordToken("procedure");
  }

  /** CREATE PROCEDURE p BEGIN SELECT CASE WHEN a THEN 2 END FROM t; DELETE FROM u; END; and more: both inner semicolons stay inside. */
  lemma CaseInBodyStaysInside(more: seq<Token>)
    ensures var choice := Code.Block(WordToken("case"), Words(["when", "a", "then", "2"], Nothing), WordToken("end"),
                                     Words(["from", "t", ";", "delete", "from", "u", ";"], Nothing));
            var all := [WordToken("create")] + Print(Procedure(Words(["select"], choice)));
            EndFrom(all + [WordToken(";")] + more, 0) == |all|
  {
    hide *;
    var inner, after := Words(["when", "a", "then", "2"], Nothing), Words(["from", "t", ";", "delete", "from", "u", ";"], Nothing);
    InnerIsOrdinary();
    WordsFacts(["when", "a", "then", "2"], Nothing, "end");
    WordsFacts(["from", "t", ";", "delete", "from", "u", ";"], Nothing, "end");
    ChoiceFacts(inner, after);
    var choice := Code.Block(WordToken("case"), inner, WordToken("end"), after);
    WordsFacts(["select"], choice, "end");
    ProcedureIsDefined(Words(["select"], choice));
    SemicolonWord();
    DefinitionEnds([WordToken("create")], Procedure(Words(["select"], choice)), WordToken(";"), more);
  }

  lemma InnerIsOrdinary()
    ensures forall w :: w in ["when", "a", "then", "2"] || w in ["from", "t", ";", "delete", "from", "u", ";"] || w in ["select"] ==> Ordinary(w)
    ensures WellFormed(Nothing) && Miscounts(Nothing, "end") == 0
  {
  }

  lemma SemicolonWord()
    ensures WordToken(";").text == ";" && WordToken(";").lower == ";" && WordToken(";").depth == 0
  {
  }

  lemma ChoiceFacts(inner: Code, after: Code)
    requires WellFormed(inner) && WellFormed(after) && FirstWord(after, "end") == "from"
    ensures WellFormed(Code.Block(WordToken("case"), inner, WordToken("end"), after))
    ensures Miscounts(Code.Block(WordToken("case"), inner, WordToken("end"), after), "end") == Miscounts(inner, "end") + Miscounts(after, "end")
  {
    hide FirstWord;
  }

  /** BEGIN CASE WHEN a THEN x; END CASE; END, and then a semicolon: MySQL's END CASE leaves a block open, so what follows joins the definition. */
  lemma EndCaseSwallows(more: seq<Token>)
    ensures var choice := Code.CaseStatement(WordToken("case"), Words(["when", "a", "then", "x", ";"], Nothing), WordToken("end"), WordToken("case"),
                                             Words([";"], Nothing));
            var all := [WordToken("create")] + Print(Procedure(choice));
            EndFrom(all + [WordToken(";")] + more, 0) > |all|
  {
    hide *;
    var inner, after := Words(["when", "a", "then", "x", ";"], Nothing), Words([";"], Nothing);
    MoreIsOrdinary();
    WordsFacts(["when", "a", "then", "x", ";"], Nothing, "end");
    WordsFacts([";"], Nothing, "end");
    var choice := Code.CaseStatement(WordToken("case"), inner, WordToken("end"), WordToken("case"), after);
    CaseFacts(inner, after);
    CaseFirst(choice);
    ProcedureIsDefined(choice);
    SemicolonWord();
    DefinitionEnds([WordToken("create")], Procedure(choice), WordToken(";"), more);
  }

  lemma MoreIsOrdinary()
    ensures forall w :: w in ["when", "a", "then", "x", ";"] || w in [";"] || w in ["x", ";"] || w in ["if", "a", "y", ";"] ==> Ordinary(w)
    ensures WellFormed(Nothing) && Miscounts(Nothing, "end") == 0
  {
  }

  lemma CaseFacts(inner: Code, after: Code)
    requires WellFormed(inner) && WellFormed(after)
    ensures WellFormed(Code.CaseStatement(WordToken("case"), inner, WordToken("end"), WordToken("case"), after))
    ensures Miscounts(Code.CaseStatement(WordToken("case"), inner, WordToken("end"), WordToken("case"), after), "end") > 0
  {
  }

  lemma CaseFirst(c: Code)
    requires (c.CaseStatement? || c.Block?) && (c.open == WordToken("case") || c.open == WordToken("begin"))
    ensures FirstWord(c, "end") == "case" || FirstWord(c, "end") == "begin"
    ensures FirstWord(c, "end") !in ["tran", "transaction", "distributed", "work"]
  {
  }

  /** BEGIN BEGIN x; END IF a y; END, and then a semicolon: the IF of the next statement hides the END before it. */
  lemma EndBeforeIfSwallows(more: seq<Token>)
    ensures var block := Code.Block(WordToken("begin"), Words(["x", ";"], Nothing), WordToken("end"), Words(["if", "a", "y", ";"], Nothing));
            var all := [WordToken("create")] + Print(Procedure(block));
            EndFrom(all + [WordToken(";")] + more, 0) > |all|
  {
    hide *;
    var inner, after := Words(["x", ";"], Nothing), Words(["if", "a", "y", ";"], Nothing);
    MoreIsOrdinary();
    WordsFacts(["x", ";"], Nothing, "end");
    WordsFacts(["if", "a", "y", ";"], Nothing, "end");
    var block := Code.Block(WordToken("begin"), inner, WordToken("end"), after);
    IfFacts(inner, after);
    CaseFirst(block);
    ProcedureIsDefined(block);
    SemicolonWord();
    DefinitionEnds([WordToken("create")], Procedure(block), WordToken(";"), more);
  }

  lemma IfFacts(inner: Code, after: Code)
    requires WellFormed(inner) && WellFormed(after) && FirstWord(inner, "end") == "x" && FirstWord(after, "end") == "if"
    ensures WellFormed(Code.Block(WordToken("begin"), inner, WordToken("end"), after))
    ensures Miscounts(Code.Block(WordToken("begin"), inner, WordToken("end"), after), "end") > 0
  {
    hide FirstWord;
  }

  /** CREATE PROCEDURE p BEGIN SELECT "end"; and more: a quoted column of that name closes the block, and the body is cut. */
  lemma NamedEndCuts(more: seq<Token>)
    ensures EndFrom([WordToken("create"), WordToken("procedure"), WordToken("p"), WordToken("begin"), WordToken("select"), QuotedToken("end"), WordToken(";")] + more, 0) == 6
  {
    hide StatementEnd, RoutineDefinition;
    var ts := [WordToken("create"), WordToken("procedure"), WordToken("p"), WordToken("begin"), WordToken("select"), QuotedToken("end"), WordToken(";")] + more;
    assert ts[0..] == ts;
    assert Header(ts, 1);
    RoutineByHeader(ts);
    OverHead(ts, 0, 3);
    OverOpen(ts, 3, 0);
    OverToken(ts, 4, 1);
    OverEnd(ts, 5, 1);
    AtSemicolon(ts, 6, 0);
  }
}
