/** The dialect-aware SQL tokenizer. `Lex` says what the token list is; the
    method `LexDialect` is the single left-to-right scan that computes it. */
module Lexer {
  import opened Prelude
  import opened Bytes

  datatype Dialect = Generic | Postgres | MySQL | MSSQL

  datatype LexError = UnterminatedComment | UnterminatedDollarQuote | UnterminatedString | UnterminatedIdentifier | UnbalancedParenthesis

  datatype Token = Token(text: string, lower: string, start: nat, end: nat, depth: nat, identifier: bool, quoted: bool) {
    predicate Keyword(word: string) {
      !quoted && lower == word
    }
  }

  predicate HashStartsComment(d: Dialect) {
    d == MySQL || d == Generic
  }

  predicate NestsComments(d: Dialect) {
    d != MySQL
  }

  predicate BackslashEscapes(d: Dialect) {
    d == MySQL
  }

  predicate RunsComments(d: Dialect) {
    d == MySQL || d == Generic
  }

  predicate At(s: string, i: nat, pat: string) {
    i + |pat| <= |s| && s[i..i + |pat|] == pat
  }

  predicate Two(s: string, i: nat, a: char, b: char) {
    i + 1 < |s| && s[i] == a && s[i + 1] == b
  }

  // ------------------------------------------------------------------
  // Where each lexical element ends.

  function LineEnd(s: string, i: nat): (e: nat)
    requires i <= |s|
    ensures i <= e <= |s|
    decreases |s| - i
  {
    if i < |s| && s[i] != '\n' then LineEnd(s, i + 1) else i
  }

  /** End of a block comment that is open `level` deep at i; None when it never closes. */
  function BlockEnd(d: Dialect, s: string, i: nat, level: nat): (r: Option<nat>)
    requires i <= |s|
    ensures r.Some? ==> i <= r.value <= |s|
    ensures r.Some? && level > 0 ==> i + 2 <= r.value && s[r.value - 1] == '/'
    decreases |s| - i
  {
    if level == 0 then Some(i)
    else if i >= |s| then None
    else if Two(s, i, '/', '*') && NestsComments(d) then BlockEnd(d, s, i + 2, level + 1)
    else if Two(s, i, '*', '/') then BlockEnd(d, s, i + 2, level - 1)
    else BlockEnd(d, s, i + 1, level)
  }

  /** Two bytes of a string body that stand for one: a doubled quote, or a backslash and what it escapes. */
  predicate EscapedPair(d: Dialect, s: string, i: nat) {
    i + 1 < |s| && ((s[i] == '\\' && BackslashEscapes(d)) || (s[i] == '\'' && s[i + 1] == '\''))
  }

  /** Where the scan of a string body stops; the caller then looks at the byte before. */
  function StringEnd(d: Dialect, s: string, i: nat): (e: nat)
    requires i <= |s|
    ensures i <= e <= |s|
    ensures e < |s| ==> i < e && s[e - 1] == '\''
    decreases |s| - i
  {
    if i >= |s| then i
    else if EscapedPair(d, s, i) then StringEnd(d, s, i + 2)
    else if s[i] == '\'' then i + 1
    else StringEnd(d, s, i + 1)
  }

  /** Position of the closing quote of a quoted identifier, or |s|. */
  function QuoteEnd(s: string, i: nat, close: char): (e: nat)
    requires i <= |s|
    ensures i <= e <= |s|
    ensures e < |s| ==> s[e] == close
    decreases |s| - i
  {
    if i >= |s| then i
    else if s[i] == close then
      if i + 1 < |s| && s[i + 1] == close then QuoteEnd(s, i + 2, close) else i
    else QuoteEnd(s, i + 1, close)
  }

  function IdentEnd(s: string, i: nat): (e: nat)
    requires i <= |s|
    ensures i <= e <= |s|
    ensures i < e ==> IdentByte(s[e - 1])
    decreases |s| - i
  {
    if i < |s| && IdentByte(s[i]) then IdentEnd(s, i + 1) else i
  }

  function DigitsEnd(s: string, i: nat): (e: nat)
    requires i <= |s|
    ensures i <= e <= |s|
    decreases |s| - i
  {
    if i < |s| && Digit(s[i]) then DigitsEnd(s, i + 1) else i
  }

  /** One past a "$tag$" whose tag bytes are being read at i, or None. */
  function DollarEnd(s: string, start: nat, i: nat): (r: Option<nat>)
    requires start < i <= |s|
    ensures r.Some? ==> i < r.value <= |s|
    ensures r.Some? ==> s[r.value - 1] == '$'
    decreases |s| - i
  {
    if i >= |s| then None
    else if s[i] == '$' then Some(i + 1)
    else if s[i] == '_' || Letter(s[i]) || (i > start + 1 && Digit(s[i])) then DollarEnd(s, start, i + 1)
    else None
  }

  /** First position at or after i where pat occurs. */
  function Find(s: string, i: nat, pat: string): (r: Option<nat>)
    requires i <= |s|
    ensures r.Some? ==> i <= r.value && At(s, r.value, pat)
    decreases |s| - i
  {
    if At(s, i, pat) then Some(i)
    else if i < |s| then Find(s, i + 1, pat)
    else None
  }

  /** Length of an executable-comment marker at i, or 0. */
  function MarkerLength(d: Dialect, s: string, i: nat): (n: nat)
    requires i <= |s|
    ensures i + n <= |s|
  {
    if RunsComments(d) && At(s, i, "/*!") then DigitsEnd(s, i + 3) - i else 0
  }

  // ------------------------------------------------------------------
  // One step of the scan.

  datatype Step =
    | Skip(next: nat, executable: nat)
    | Emit(next: nat, lower: string, identifier: bool, quoted: bool)
    | Fail(error: LexError)

  function CloserOf(open: char): char {
    if open == '[' then ']' else open
  }

  function TrimQuotesLeft(s: string): string {
    if s != "" && s[0] in "\"`[]" then TrimQuotesLeft(s[1..]) else s
  }

  function TrimQuotesRight(s: string): string {
    if s != "" && s[|s| - 1] in "\"`[]" then TrimQuotesRight(s[..|s| - 1]) else s
  }

  /** The bare name of a quoted identifier. */
  function BareName(text: string): string {
    ToLower(TrimQuotesRight(TrimQuotesLeft(text)))
  }

  function CommentStep(d: Dialect, s: string, i: nat, executable: nat): (r: Step)
    requires i + 2 <= |s|
    ensures !r.Emit?
    ensures r.Skip? ==> i < r.next <= |s|
  {
    var marker := MarkerLength(d, s, i);
    if marker > 0 then Skip(i + marker, executable + 1)
    else
      match BlockEnd(d, s, i + 2, 1)
      case Some(e) => Skip(e, executable)
      case None => Fail(UnterminatedComment)
  }

  function DollarStep(s: string, i: nat, open: nat): (r: Step)
    requires i < open <= |s|
    ensures r.Emit? ==> open < r.next <= |s|
  {
    match Find(s, open, s[i..open])
    case Some(c) => Emit(c + (open - i), "?", false, false)
    case None => Fail(UnterminatedDollarQuote)
  }

  function StringStep(d: Dialect, s: string, i: nat): (r: Step)
    requires i < |s|
    ensures r.Emit? ==> i < r.next <= |s|
  {
    var e := StringEnd(d, s, i + 1);
    if s[e - 1] != '\'' then Fail(UnterminatedString) else Emit(e, "?", false, false)
  }

  function QuotedStep(s: string, i: nat): (r: Step)
    requires i < |s|
    ensures r.Emit? ==> i < r.next <= |s|
  {
    var e := QuoteEnd(s, i + 1, CloserOf(s[i]));
    if e >= |s| then Fail(UnterminatedIdentifier) else Emit(e + 1, BareName(s[i..e + 1]), true, true)
  }

  function WordStep(s: string, i: nat): (r: Step)
    requires i < |s|
    ensures r.Emit? && i < r.next <= |s|
  {
    var e := IdentEnd(s, i + 1);
    Emit(e, ToLower(s[i..e]), true, false)
  }

  function ByteStep(s: string, i: nat): (r: Step)
    requires i < |s|
    ensures r.Emit? && r.next == i + 1
  {
    Emit(i + 1, ToLower(s[i..i + 1]), false, false)
  }

  /** Everything after the white-space and comment checks: a dollar-quoted or
      quoted string, a quoted or bare name, or one byte. */
  function TokenStep(d: Dialect, s: string, i: nat): (r: Step)
    requires i < |s|
    ensures !r.Skip?
    ensures r.Emit? ==> i < r.next <= |s|
  {
    if s[i] == '$' && DollarEnd(s, i, i + 1).Some? then DollarStep(s, i, DollarEnd(s, i, i + 1).value)
    else if s[i] == '\'' then StringStep(d, s, i)
    else if s[i] == '"' || s[i] == '`' || s[i] == '[' then QuotedStep(s, i)
    else if IdentByte(s[i]) then WordStep(s, i)
    else ByteStep(s, i)
  }

  function Scan(d: Dialect, s: string, i: nat, executable: nat): (r: Step)
    requires i < |s|
    ensures !r.Fail? ==> i < r.next <= |s|
  {
    if ByteSpace(s[i]) then Skip(i + 1, executable)
    else if Two(s, i, '-', '-') then Skip(LineEnd(s, i + 2), executable)
    else if s[i] == '#' && HashStartsComment(d) then Skip(LineEnd(s, i + 1), executable)
    else if Two(s, i, '/', '*') then CommentStep(d, s, i, executable)
    else if executable > 0 && Two(s, i, '*', '/') then Skip(i + 2, executable - 1)
    else TokenStep(d, s, i)
  }

  type LexResult = Result<seq<Token>, LexError>

  function Prepend(ts: seq<Token>, r: LexResult): LexResult {
    match r
    case Ok(rest) => Ok(ts + rest)
    case Err(e) => Err(e)
  }

  /** The token an Emit step stands for. */
  function MakeToken(s: string, i: nat, step: Step, depth: nat): Token
    requires step.Emit? && i <= step.next <= |s|
  {
    Token(s[i..step.next], step.lower, i, step.next, depth, step.identifier, step.quoted)
  }

  /** Both parentheses carry the depth outside them. */
  function TokenDepth(c: char, depth: nat): nat
    requires c == ')' ==> depth > 0
  {
    if c == ')' then depth - 1 else depth
  }

  function DepthAfter(c: char, depth: nat): nat
    requires c == ')' ==> depth > 0
  {
    if c == '(' then depth + 1 else TokenDepth(c, depth)
  }

  /** Tokens of s from i on, with `depth` parentheses and `executable` comments open. */
  function LexFrom(d: Dialect, s: string, i: nat, depth: nat, executable: nat): LexResult
    requires i <= |s|
    decreases |s| - i
  {
    if i == |s| then if depth != 0 then Err(UnbalancedParenthesis) else Ok([])
    else
      match Scan(d, s, i, executable)
      case Skip(next, executable') => LexFrom(d, s, next, depth, executable')
      case Fail(e) => Err(e)
      case Emit(next, _, _, _) =>
        if s[i] == ')' && depth == 0 then Err(UnbalancedParenthesis)
        else Prepend([MakeToken(s, i, Scan(d, s, i, executable), TokenDepth(s[i], depth))],
                     LexFrom(d, s, next, DepthAfter(s[i], depth), executable))
  }

  function Lex(d: Dialect, s: string): LexResult {
    LexFrom(d, s, 0, 0, 0)
  }

  // ------------------------------------------------------------------
  // The scan as the program writes it: one index moved by nested loops.

  method ScanBlock(d: Dialect, s: string, from: nat) returns (end: Option<nat>)
    requires from <= |s|
    ensures end == BlockEnd(d, s, from, 1)
  {
    var i, level := from, 1;
    while i < |s| && level > 0
      invariant i <= |s|
      invariant BlockEnd(d, s, i, level) == BlockEnd(d, s, from, 1)
    {
      if Two(s, i, '/', '*') && NestsComments(d) {
        level, i := level + 1, i + 2;
      } else if Two(s, i, '*', '/') {
        level, i := level - 1, i + 2;
      } else {
        i := i + 1;
      }
    }
    end := if level != 0 then None else Some(i);
  }

  method ScanString(d: Dialect, s: string, from: nat) returns (end: nat)
    requires from <= |s|
    ensures end == StringEnd(d, s, from)
  {
    var i := from;
    while i < |s|
      invariant i <= |s|
      invariant StringEnd(d, s, i) == StringEnd(d, s, from)
    {
      if s[i] == '\\' && BackslashEscapes(d) && i + 1 < |s| {
        i := i + 2;
        continue;
      }
      if s[i] == '\'' {
        if i + 1 < |s| && s[i + 1] == '\'' {
          i := i + 2;
          continue;
        }
        return i + 1;
      }
      i := i + 1;
    }
    end := i;
  }

  method ScanQuoted(s: string, from: nat, close: char) returns (end: nat)
    requires from <= |s|
    ensures end == QuoteEnd(s, from, close)
  {
    var i := from;
    while i < |s|
      invariant i <= |s|
      invariant QuoteEnd(s, i, close) == QuoteEnd(s, from, close)
    {
      if s[i] == close {
        if i + 1 < |s| && s[i + 1] == close {
          i := i + 2;
          continue;
        }
        return i;
      }
      i := i + 1;
    }
    end := i;
  }

  method ScanLine(s: string, from: nat) returns (end: nat)
    requires from <= |s|
    ensures end == LineEnd(s, from)
  {
    end := from;
    while end < |s| && s[end] != '\n'
      invariant end <= |s|
      invariant LineEnd(s, end) == LineEnd(s, from)
    {
      end := end + 1;
    }
  }

  method ScanIdent(s: string, from: nat) returns (end: nat)
    requires from <= |s|
    ensures end == IdentEnd(s, from)
  {
    end := from;
    while end < |s| && IdentByte(s[end])
      invariant end <= |s|
      invariant IdentEnd(s, end) == IdentEnd(s, from)
    {
      end := end + 1;
    }
  }

  lemma PrependNothing(r: LexResult)
    ensures Prepend([], r) == r
  {
    if r.Ok? {
      assert [] + r.value == r.value;
    }
  }

  lemma PrependTwice(a: seq<Token>, b: seq<Token>, r: LexResult)
    ensures Prepend(a, Prepend(b, r)) == Prepend(a + b, r)
  {
    if r.Ok? {
      assert a + (b + r.value) == a + b + r.value;
    }
  }

  method LexDialect(d: Dialect, s: string) returns (r: LexResult)
    ensures r == Lex(d, s)
  {
    var out: seq<Token> := [];
    var depth: nat, executable: nat, i: nat := 0, 0, 0;
    PrependNothing(Lex(d, s));
    while i < |s|
      invariant i <= |s|
      invariant Lex(d, s) == Prepend(out, LexFrom(d, s, i, depth, executable))
    {
      var step := ScanNext(d, s, i, executable);
      match step {
        case Fail(error) =>
          return Err(error);
        case Skip(next, executable') =>
          i, executable := next, executable';
        case Emit(next, _, _, _) =>
          if s[i] == ')' && depth == 0 {
            return Err(UnbalancedParenthesis);
          }
          var token := MakeToken(s, i, step, TokenDepth(s[i], depth));
          PrependTwice(out, [token], LexFrom(d, s, next, DepthAfter(s[i], depth), executable));
          out, depth, i := out + [token], DepthAfter(s[i], depth), next;
      }
    }
    if depth != 0 {
      return Err(UnbalancedParenthesis);
    }
    assert out + [] == out;
    r := Ok(out);
  }

  method ScanNext(d: Dialect, s: string, i: nat, executable: nat) returns (step: Step)
    requires i < |s|
    ensures step == Scan(d, s, i, executable)
  {
    if ByteSpace(s[i]) {
      return Skip(i + 1, executable);
    }
    if Two(s, i, '-', '-') {
      var end := ScanLine(s, i + 2);
      return Skip(end, executable);
    }
    if s[i] == '#' && HashStartsComment(d) {
      var end := ScanLine(s, i + 1);
      return Skip(end, executable);
    }
    if Two(s, i, '/', '*') {
      var marker := MarkerLength(d, s, i);
      if marker > 0 {
        return Skip(i + marker, executable + 1);
      }
      var end := ScanBlock(d, s, i + 2);
      return if end.None? then Fail(UnterminatedComment) else Skip(end.value, executable);
    }
    if executable > 0 && Two(s, i, '*', '/') {
      return Skip(i + 2, executable - 1);
    }
    step := ScanToken(d, s, i);
  }

  method ScanToken(d: Dialect, s: string, i: nat) returns (step: Step)
    requires i < |s|
    ensures step == TokenStep(d, s, i)
  {
    hide BareName, ToLower, DollarStep, DollarEnd, ByteStep, StringEnd, QuoteEnd, IdentEnd;
    if s[i] == '$' && DollarEnd(s, i, i + 1).Some? {
      step := DollarStep(s, i, DollarEnd(s, i, i + 1).value);
    } else if s[i] == '\'' {
      var end := ScanString(d, s, i + 1);
      step := if s[end - 1] != '\'' then Fail(UnterminatedString) else Emit(end, "?", false, false);
    } else if s[i] == '"' || s[i] == '`' || s[i] == '[' {
      var end := ScanQuoted(s, i + 1, CloserOf(s[i]));
      step := if end >= |s| then Fail(UnterminatedIdentifier) else Emit(end + 1, BareName(s[i..end + 1]), true, true);
    } else if IdentByte(s[i]) {
      var end := ScanIdent(s, i + 1);
      step := Emit(end, ToLower(s[i..end]), true, false);
    } else {
      step := ByteStep(s, i);
    }
  }
}
