/** Cutting a script into statements: what the pieces are, and the loop that cuts them. */
module Splitter {
  import opened Prelude
  import opened Bytes
  import opened Lexer
  import opened Window

  function NextLower(ts: seq<Token>, i: nat): string {
    if i + 1 < |ts| then ts[i + 1].lower else ""
  }

  predicate RoutineWord(w: string) {
    w in ["procedure", "proc", "function", "trigger", "event"]
  }

  predicate NotRoutineWord(w: string) {
    w in ["table", "view", "index", "unique", "schema", "database", "sequence", "type", "user", "role",
          "materialized", "temporary", "temp", "extension", "as", "select"]
  }

  /** Reads the words after CREATE from position i up to `limit`. */
  predicate RoutineWords(ts: seq<Token>, i: nat, limit: nat)
    requires limit <= |ts|
    decreases limit - i
  {
    if i >= limit || ts[i].depth != 0 then false
    else if RoutineWord(ts[i].lower) then true
    else if NotRoutineWord(ts[i].lower) then false
    else RoutineWords(ts, i + 1, limit)
  }

  predicate RoutineDefinition(ts: seq<Token>) {
    |ts| > 0 && ts[0].lower == "create" && RoutineWords(ts, 1, if |ts| < 16 then |ts| else 16)
  }

  /** Open blocks of a routine body after token i. */
  function Blocks(ts: seq<Token>, i: nat, routine: bool, blocks: nat): nat
    requires i < |ts|
  {
    if !routine || ts[i].depth != 0 then blocks
    else if ts[i].lower == "case" then blocks + 1
    else if ts[i].lower == "begin" then
      if NextLower(ts, i) in ["tran", "transaction", "distributed", "work"] then blocks else blocks + 1
    else if ts[i].lower == "end" then
      if blocks > 0 && NextLower(ts, i) !in ["if", "loop", "while", "repeat"] then blocks - 1 else blocks
    else blocks
  }

  predicate Semicolon(t: Token) {
    t.text == ";" && t.depth == 0
  }

  predicate Separates(ts: seq<Token>, i: nat, routine: bool, blocks: nat)
    requires i < |ts|
  {
    Semicolon(ts[i]) && (!routine || Blocks(ts, i, routine, blocks) == 0)
  }

  /** Index of the first token at or after i that ends the statement being read, or |ts|. */
  function StatementEnd(ts: seq<Token>, i: nat, routine: bool, blocks: nat): (q: nat)
    requires i <= |ts|
    ensures i <= q <= |ts|
    ensures q < |ts| ==> Semicolon(ts[q])
    decreases |ts| - i
  {
    if i == |ts| then i
    else if Separates(ts, i, routine, blocks) then i
    else StatementEnd(ts, i + 1, routine, Blocks(ts, i, routine, blocks))
  }

  /** End of the statement whose first token is p. */
  function EndFrom(ts: seq<Token>, p: nat): (q: nat)
    requires p <= |ts|
    ensures p <= q <= |ts|
    ensures q < |ts| ==> Semicolon(ts[q])
  {
    StatementEnd(ts, p, RoutineDefinition(ts[p..]), 0)
  }

  /** Tokens p..q and bytes start..end of one statement, before trimming. */
  datatype Segment = Segment(p: nat, q: nat, start: nat, end: nat)

  function Segments(s: string, ts: seq<Token>, p: nat, start: nat): (r: seq<Segment>)
    requires p <= |ts|
    ensures |r| > 0
    decreases |ts| - p
  {
    var q := EndFrom(ts, p);
    if q == |ts| then [Segment(p, q, start, |s|)]
    else [Segment(p, q, start, ts[q].start)] + Segments(s, ts, q + 1, ts[q].end)
  }

  /** The bytes of a segment; positions are clipped so that the function is total. */
  function Text(s: string, start: nat, end: nat): string {
    if start <= end <= |s| then s[start..end] else ""
  }

  /** The trimmed text, unless nothing is left of it. */
  function Piece(s: string, start: nat, end: nat): seq<string> {
    var part := TrimSpace(Text(s, start, end));
    if part == "" then [] else [part]
  }

  function Pieces(s: string, gs: seq<Segment>): seq<string> {
    if gs == [] then [] else Piece(s, gs[0].start, gs[0].end) + Pieces(s, gs[1..])
  }

  type SplitResult = Result<seq<string>, LexError>

  function Split(d: Dialect, s: string): SplitResult {
    match Lex(d, s)
    case Err(e) => Err(e)
    case Ok(ts) => Ok(Pieces(s, Segments(s, ts, 0, 0)))
  }

  // ------------------------------------------------------------------
  // The loop of the program, against Split.

  /** What is still to be cut when the loop stands before token i of a statement that began at byte start. */
  function Remaining(s: string, ts: seq<Token>, i: nat, routine: bool, blocks: nat, start: nat): seq<string>
    requires i <= |ts|
  {
    var q := StatementEnd(ts, i, routine, blocks);
    if q == |ts| then Piece(s, start, |s|)
    else Piece(s, start, ts[q].start) + Pieces(s, Segments(s, ts, q + 1, ts[q].end))
  }

  lemma RemainingIsPieces(s: string, ts: seq<Token>, p: nat, start: nat)
    requires p <= |ts|
    ensures Pieces(s, Segments(s, ts, p, start)) == Remaining(s, ts, p, RoutineDefinition(ts[p..]), 0, start)
  {
    hide RoutineDefinition, StatementEnd, Piece;
    var q := EndFrom(ts, p);
    var gs := Segments(s, ts, p, start);
    if q == |ts| {
      assert gs == [Segment(p, q, start, |s|)];
      assert Pieces(s, gs) == Piece(s, start, |s|) + [];
    } else {
      assert gs[1..] == Segments(s, ts, q + 1, ts[q].end);
    }
  }

  /** One turn of the loop: token i either ends the statement or is part of it. */
  lemma RemainingStep(s: string, ts: seq<Token>, i: nat, routine: bool, blocks: nat, start: nat)
    requires i < |ts|
    ensures Remaining(s, ts, i, routine, blocks, start)
         == if ts[i].text == ";" && ts[i].depth == 0 && (!routine || Blocks(ts, i, routine, blocks) == 0)
            then Piece(s, start, ts[i].start) + Remaining(s, ts, i + 1, RoutineDefinition(ts[i + 1..]), 0, ts[i].end)
            else Remaining(s, ts, i + 1, routine, Blocks(ts, i, routine, blocks), start)
  {
    hide RoutineDefinition, Piece, Blocks;
    RemainingIsPieces(s, ts, i + 1, ts[i].end);
  }

  lemma SegmentsFrom(s: string, ts: seq<Token>, p: nat, start: nat)
    requires p <= |ts|
    ensures var q := EndFrom(ts, p);
            && (q == |ts| ==> Pieces(s, Segments(s, ts, p, start)) == Piece(s, start, |s|))
            && (q < |ts| ==> Pieces(s, Segments(s, ts, p, start)) == Piece(s, start, ts[q].start) + Pieces(s, Segments(s, ts, q + 1, ts[q].end)))
  {
    hide EndFrom, Piece;
    var gs := Segments(s, ts, p, start);
    if EndFrom(ts, p) == |ts| {
      assert gs[1..] == [];
      assert Pieces(s, gs) == Piece(s, start, |s|) + Pieces(s, []);
    }
  }

  lemma SplitLexed(d: Dialect, s: string)
    ensures Lex(d, s).Err? ==> Split(d, s) == Err(Lex(d, s).error)
    ensures Lex(d, s).Ok? ==> Split(d, s) == Ok(Pieces(s, Segments(s, Lex(d, s).value, 0, 0)))
  {
    hide Lex, Pieces, Segments;
  }

  lemma StartsInOrder(s: string, ts: seq<Token>, i: nat)
    requires InOrder(s, 0, ts) && i < |ts|
    ensures ts[i].start < ts[i].end <= |s| && (i + 1 < |ts| ==> ts[i].end <= ts[i + 1].start)
  {
  }

  /** The trimmed text from byte a to byte b joins the result, unless nothing is left of it. */
  method AppendPart(s: string, a: nat, b: nat, result: seq<string>) returns (more: seq<string>)
    requires a <= b <= |s|
    ensures more == result + Piece(s, a, b)
  {
    hide TrimSpace;
    var part := TrimSpace(s[a..b]);
    if part != "" {
      return result + [part];
    }
    assert result + [] == result;
    more := result;
  }

  method SplitStatements(d: Dialect, s: string) returns (r: SplitResult)
    ensures r == Split(d, s)
  {
    hide *;
    SplitLexed(d, s);
    var lexed := LexDialect(d, s);
    if lexed.Err? {
      return Err(lexed.error);
    }
    var ts := lexed.value;
    WholeInOrder(d, s);
    var result: seq<string> := [];
    var start: nat, routine, blocks: nat, first := 0, false, 0, true;
    RemainingIsPieces(s, ts, 0, 0);
    for i := 0 to |ts|
      invariant start <= |s| && (i < |ts| ==> start <= ts[i].start)
      invariant first ==> blocks == 0
      invariant Pieces(s, Segments(s, ts, 0, 0))
             == result + Remaining(s, ts, i, if first then RoutineDefinition(ts[i..]) else routine, blocks, start)
    {
      if first {
        routine, first := RoutineDefinition(ts[i..]), false;
      }
      StartsInOrder(s, ts, i);
      RemainingStep(s, ts, i, routine, blocks, start);
      var after := Blocks(ts, i, routine, blocks);
      if ts[i].text == ";" && ts[i].depth == 0 && (!routine || after == 0) {
        result := AppendPart(s, start, ts[i].start, result);
        start, first, blocks := ts[i].end, true, 0;
      } else {
        blocks := after;
      }
    }
    RemainingAtEnd(s, ts, if first then RoutineDefinition(ts[|ts|..]) else routine, blocks, start);
    result := AppendPart(s, start, |s|, result);
    r := Ok(result);
  }

  lemma RemainingAtEnd(s: string, ts: seq<Token>, routine: bool, blocks: nat, start: nat)
    ensures Remaining(s, ts, |ts|, routine, blocks, start) == Piece(s, start, |s|)
  {
  }

  lemma WholeInOrder(d: Dialect, s: string)
    requires Lex(d, s).Ok?
    ensures InOrder(s, 0, Lex(d, s).value)
  {
    TokensInOrder(d, s, 0, 0, 0);
  }
}
